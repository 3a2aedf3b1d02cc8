/** Trie.insert with its extension and leaf cases. */
module TrieInsert {
  import opened Options
  import opened TrieNodes

  /** matchkeyLen: length of the longest common prefix. */
  function MatchLen(a: Nibbles, b: Nibbles): (m: nat)
    ensures m <= |a| && m <= |b| && a[..m] == b[..m]
    ensures m < |a| && m < |b| ==> a[m] != b[m]
  {
    if |a| == 0 || |b| == 0 || a[0] != b[0] then 0
    else
      var m := 1 + MatchLen(a[1..], b[1..]);
      assert a[..m] == [a[0]] + a[1..][..m - 1] && b[..m] == [b[0]] + b[1..][..m - 1];
      m
  }

  /** The loop form of matchkeyLen. */
  method MatchKeyLen(a: Nibbles, b: Nibbles) returns (i: nat)
    ensures i == MatchLen(a, b)
  {
    var length := if |b| < |a| then |b| else |a|;
    i := 0;
    while i < length
      invariant i <= length
      invariant MatchLen(a, b) == i + MatchLen(a[i..], b[i..])
    {
      if a[i] != b[i] {
        break;
      }
      assert a[i..][1..] == a[i + 1..] && b[i..][1..] == b[i + 1..];
      i := i + 1;
    }
  }

  function NewLeaf(key: Nibbles, value: Bytes): Node {
    Leaf(EMPTY_HASH, Dirty, key, value)
  }

  function TwoChildren(i: nat, left: Node, j: nat, right: Node): (cs: seq<Node>)
    ensures |cs| == NUM_BRANCH_CHILDREN
    ensures forall x :: 0 <= x < |cs| ==> cs[x] == if x == j then right else if x == i then left else Nil
  {
    seq(NUM_BRANCH_CHILDREN, x => if x == j then right else if x == i then left else Nil)
  }

  /** A fresh branch over two children, below an extension when there is a shared prefix. */
  function Fork(prefix: Nibbles, i: nat, left: Node, j: nat, right: Node): Node
    requires i < NUM_BRANCH_CHILDREN && j < NUM_BRANCH_CHILDREN
  {
    var branch := Branch(EMPTY_HASH, Dirty, TwoChildren(i, left, j, right));
    if prefix == [] then branch else Ext(EMPTY_HASH, Dirty, prefix, branch)
  }

  /** A terminated key cut at an index keeps the terminator in its second part. */
  lemma CutKey(key: Nibbles, m: nat)
    requires Terminated(key) && m < |key|
    ensures key[m] <= TERMINATOR && AllNibbles(key[..m])
    ensures KeyOk(key[m + 1..], key[m] == TERMINATOR)
  {
    var front := key[..|key| - 1];
    assert forall i :: 0 <= i < |key| - 1 ==> front[i] == key[i];
  }

  /** Two terminated keys are equal or part at an index of both. */
  lemma LeafKeysPart(k: Nibbles, key: Nibbles, ended: bool)
    requires KeyOk(k, ended) && KeyOk(key, ended)
    ensures MatchLen(k, key) == |k| ==> k == key
    ensures MatchLen(k, key) < |k| ==> MatchLen(k, key) < |key| && !ended
  {
    var m := MatchLen(k, key);
    if !ended && m == |k| < |key| {
      assert key[m - 1] == key[..m][m - 1] == k[m - 1] == TERMINATOR;
      CutKey(key, m);
      assert false;
    }
    if !ended && m == |key| < |k| {
      assert k[m - 1] == k[..m][m - 1] == key[m - 1] == TERMINATOR;
      CutKey(k, m);
      assert false;
    }
  }

  /** A terminated key goes through an extension key or parts from it at an index of both. */
  lemma ExtKeysPart(k: Nibbles, key: Nibbles)
    requires AllNibbles(k) && Terminated(key)
    ensures MatchLen(k, key) == |k| ==> |k| < |key| && Terminated(key[|k|..])
    ensures MatchLen(k, key) < |k| ==> MatchLen(k, key) < |key|
  {
    var m := MatchLen(k, key);
    assert m > 0 ==> key[m - 1] == key[..m][m - 1] == k[..m][m - 1] == k[m - 1];
    if m == |key| {
      assert false;
    }
    if m == |k| { TerminatedRest(key, m); }
  }

  lemma TerminatedRest(key: Nibbles, m: nat)
    requires Terminated(key) && m < |key|
    ensures Terminated(key[m..])
  {
    var front := key[..|key| - 1];
    assert forall i :: m <= i < |key| - 1 ==> front[i] == key[i];
  }

  function Insert(db: Db, node: Node, key: Nibbles, value: Bytes, ghost ended: bool): Option<Node>
    requires WF(LinkOf(node), ended) && KeyOk(key, ended) && Sound(node, db)
    decreases LinkOf(node), node.HashRef?
  {
    match node
    case Nil => Some(NewLeaf(key, value))
    case HashRef(h) =>
      var loaded := LoadNode(db, h);
      if loaded.None? then None
      else
        DecodeSound(h, db);
        Insert(db, loaded.value, key, value, ended)
    case Leaf(cached, _, k, v) =>
      LeafKeysPart(k, key, ended);
      var m := MatchLen(k, key);
      if m == |k| then Some(Leaf(cached, Dirty, k, value))
      else
        CutKey(k, m);
        CutKey(key, m);
        Some(Fork(key[..m], k[m], Leaf(cached, Dirty, k[m + 1..], v), key[m], NewLeaf(key[m + 1..], value)))
    case Ext(cached, _, k, next) =>
      ExtKeysPart(k, key);
      var m := MatchLen(k, key);
      if m == |k| then
        var r := Insert(db, next, key[m..], value, false);
        if r.None? then None else Some(Ext(cached, Dirty, k, r.value))
      else
        var rest := if m != |k| - 1 then Ext(cached, Dirty, k[m + 1..], next) else next;
        CutKey(key, m);
        Some(Fork(key[..m], k[m], rest, key[m], NewLeaf(key[m + 1..], value)))
    case Branch(cached, _, cs) =>
      CutKey(key, 0);
      assert WF(Links(cs)[key[0]], key[0] == TERMINATOR);
      var r := Insert(db, cs[key[0]], key[1..], value, key[0] == TERMINATOR);
      if r.None? then None else Some(Branch(cached, Dirty, cs[key[0] := r.value]))
  }

  /** A node loaded by hash is sound and stands for the hash it was loaded by. */
  lemma DecodeSound(h: Hash, db: Db)
    requires InDb(To(h), db)
    ensures LoadNode(db, h).Some? ==>
      var n := LoadNode(db, h).value;
      LinkOf(n) == To(h) && Sound(n, db) && Clean(n) && !n.HashRef?
    ensures WF(To(h), true) || WF(To(h), false) ==> LoadNode(db, h).Some?
  {
    DecodeKeepsHash(h, h.body);
  }

  /** Looking a key up through a branch, an extension and a freshly split node. */
  lemma BranchLookup(cached: Hash, st: Status, cs: seq<Node>, key: Nibbles)
    ensures Lookup(LinkOf(Branch(cached, st, cs)), key) ==
      if key == [] || key[0] >= |cs| then None else Lookup(LinkOf(cs[key[0]]), key[1..])
  {
  }

  lemma ForkLookup(prefix: Nibbles, i: nat, left: Node, j: nat, right: Node, key: Nibbles)
    requires i < NUM_BRANCH_CHILDREN && j < NUM_BRANCH_CHILDREN && i != j
    ensures Lookup(LinkOf(Fork(prefix, i, left, j, right)), key) ==
      if !(prefix <= key) || |key| == |prefix| then None
      else if key[|prefix|] == i then Lookup(LinkOf(left), key[|prefix| + 1..])
      else if key[|prefix|] == j then Lookup(LinkOf(right), key[|prefix| + 1..])
      else None
  {
    var cs := TwoChildren(i, left, j, right);
    if prefix <= key {
      var rest := key[|prefix|..];
      BranchLookup(EMPTY_HASH, Dirty, cs, rest);
      assert prefix == [] ==> rest == key;
      if rest != [] {
        assert rest[0] == key[|prefix|];
        assert rest[1..] == key[|prefix| + 1..];
      }
    }
  }

  lemma BranchShape(cached: Hash, st: Status, cs: seq<Node>, db: Db)
    ensures WF(LinkOf(Branch(cached, st, cs)), false) <==>
      |cs| == NUM_BRANCH_CHILDREN && forall i :: 0 <= i < |cs| ==> WF(LinkOf(cs[i]), i == TERMINATOR)
    ensures st == Dirty && (forall i :: 0 <= i < |cs| ==> Sound(cs[i], db)) ==> Sound(Branch(cached, st, cs), db)
  {
    var links := Links(cs);
    if WF(LinkOf(Branch(cached, st, cs)), false) {
      forall i | 0 <= i < |cs| ensures WF(LinkOf(cs[i]), i == TERMINATOR) {
        assert WF(links[i], i == TERMINATOR);
      }
    }
  }

  lemma ForkShape(prefix: Nibbles, i: nat, left: Node, j: nat, right: Node, db: Db)
    requires i < NUM_BRANCH_CHILDREN && j < NUM_BRANCH_CHILDREN && i != j
    requires AllNibbles(prefix)
    requires WF(LinkOf(left), i == TERMINATOR) && WF(LinkOf(right), j == TERMINATOR)
    requires Sound(left, db) && Sound(right, db)
    ensures var n := Fork(prefix, i, left, j, right);
      WF(LinkOf(n), false) && Sound(n, db) && !Clean(n)
  {
    var cs := TwoChildren(i, left, j, right);
    BranchShape(EMPTY_HASH, Dirty, cs, db);
  }

  /** What Insert returns of a node that is neither nil nor a reference, case by case. */
  lemma InsertLeaf(db: Db, node: Node, key: Nibbles, value: Bytes, ended: bool)
    requires WF(LinkOf(node), ended) && KeyOk(key, ended) && Sound(node, db) && node.Leaf?
    ensures Insert(db, node, key, value, ended).Some?
    ensures var n := Insert(db, node, key, value, ended).value;
      WF(LinkOf(n), ended) && Sound(n, db) && !Clean(n)
  {
    var k := node.key;
    LeafKeysPart(k, key, ended);
    var m := MatchLen(k, key);
    if m < |k| {
      CutKey(k, m);
      CutKey(key, m);
      ForkShape(key[..m], k[m], Leaf(node.cached, Dirty, k[m + 1..], node.value),
                key[m], NewLeaf(key[m + 1..], value), db);
    }
  }

  lemma InsertSplitsExt(db: Db, node: Node, key: Nibbles, value: Bytes)
    requires WF(LinkOf(node), false) && Terminated(key) && Sound(node, db) && node.Ext?
    requires MatchLen(node.key, key) < |node.key|
    ensures Insert(db, node, key, value, false).Some?
    ensures var n := Insert(db, node, key, value, false).value;
      WF(LinkOf(n), false) && Sound(n, db) && !Clean(n)
  {
    var k := node.key;
    ExtKeysPart(k, key);
    var m := MatchLen(k, key);
    CutKey(key, m);
    var rest := if m != |k| - 1 then Ext(node.cached, Dirty, k[m + 1..], node.next) else node.next;
    assert WF(LinkOf(rest), false) && Sound(rest, db);
    ForkShape(key[..m], k[m], rest, key[m], NewLeaf(key[m + 1..], value), db);
  }

  /** Insert never fails on a trie whose committed nodes are in the database; it keeps the shape
      and the hash cache coherent, and leaves the returned node dirty. */
  lemma {:induction false} InsertKeeps(db: Db, node: Node, key: Nibbles, value: Bytes, ended: bool)
    requires WF(LinkOf(node), ended) && KeyOk(key, ended) && Sound(node, db)
    ensures Insert(db, node, key, value, ended).Some?
    ensures var n := Insert(db, node, key, value, ended).value;
      WF(LinkOf(n), ended) && Sound(n, db) && !Clean(n)
    decreases LinkOf(node), node.HashRef?
  {
    match node
    case Nil =>
    case HashRef(h) =>
      DecodeSound(h, db);
      InsertKeeps(db, LoadNode(db, h).value, key, value, ended);
    case Leaf(_, _, _, _) =>
      InsertLeaf(db, node, key, value, ended);
    case Ext(_, _, k, next) =>
      ExtKeysPart(k, key);
      if MatchLen(k, key) == |k| {
        InsertKeeps(db, next, key[|k|..], value, false);
      } else {
        InsertSplitsExt(db, node, key, value);
      }
    case Branch(cached, st, cs) =>
      CutKey(key, 0);
      BranchShape(cached, st, cs, db);
      InsertKeeps(db, cs[key[0]], key[1..], value, key[0] == TERMINATOR);
      var n := Insert(db, cs[key[0]], key[1..], value, key[0] == TERMINATOR).value;
      BranchShape(cached, Dirty, cs[key[0] := n], db);
  }

  lemma LeafForkLookup(k: Nibbles, v: Bytes, cached: Hash, key: Nibbles, value: Bytes, other: Nibbles)
    requires var m := MatchLen(k, key);
      m < |k| && m < |key| && k[m] <= TERMINATOR && key[m] <= TERMINATOR
    ensures var m := MatchLen(k, key);
      var n := Fork(key[..m], k[m], Leaf(cached, Dirty, k[m + 1..], v), key[m], NewLeaf(key[m + 1..], value));
      Lookup(LinkOf(n), other) == if other == key then Some(value) else if other == k then Some(v) else None
  {
    var m := MatchLen(k, key);
    ForkLookup(key[..m], k[m], Leaf(cached, Dirty, k[m + 1..], v), key[m], NewLeaf(key[m + 1..], value), other);
    SplitEq(k, m, other);
    SplitEq(key, m, other);
    assert k[..m] == key[..m];
  }

  lemma InsertForksLeaf(db: Db, node: Node, key: Nibbles, value: Bytes, ended: bool)
    requires WF(LinkOf(node), ended) && KeyOk(key, ended) && Sound(node, db) && node.Leaf?
    requires MatchLen(node.key, key) < |node.key|
    ensures var k, m := node.key, MatchLen(node.key, key);
      m < |key| && k[m] <= TERMINATOR && key[m] <= TERMINATOR &&
      Insert(db, node, key, value, ended) ==
      Some(Fork(key[..m], k[m], Leaf(node.cached, Dirty, k[m + 1..], node.value), key[m], NewLeaf(key[m + 1..], value)))
  {
    LeafKeysPart(node.key, key, ended);
    CutKey(node.key, MatchLen(node.key, key));
    CutKey(key, MatchLen(node.key, key));
  }

  lemma InsertLeafLookup(db: Db, node: Node, key: Nibbles, value: Bytes, ended: bool, other: Nibbles)
    requires WF(LinkOf(node), ended) && KeyOk(key, ended) && KeyOk(other, ended) && Sound(node, db) && node.Leaf?
    requires Insert(db, node, key, value, ended).Some?
    ensures Lookup(LinkOf(Insert(db, node, key, value, ended).value), other) ==
      if other == key then Some(value) else Lookup(LinkOf(node), other)
  {
    var k := node.key;
    assert Lookup(LinkOf(node), other) == if other == k then Some(node.value) else None;
    if MatchLen(k, key) < |k| {
      InsertForksLeaf(db, node, key, value, ended);
      LeafForkLookup(k, node.value, node.cached, key, value, other);
      assert k != key;
    } else {
      LeafKeysPart(k, key, ended);
    }
  }

  /** What insert makes of an extension that the key leaves. */
  lemma InsertForksExt(db: Db, node: Node, key: Nibbles, value: Bytes)
    requires WF(LinkOf(node), false) && Terminated(key) && Sound(node, db) && node.Ext?
    requires MatchLen(node.key, key) < |node.key|
    ensures var k, m := node.key, MatchLen(node.key, key);
      var rest := if m != |k| - 1 then Ext(node.cached, Dirty, k[m + 1..], node.next) else node.next;
      m < |key| && k[m] <= TERMINATOR && key[m] <= TERMINATOR && k[m] != key[m] &&
      Insert(db, node, key, value, false) == Some(Fork(key[..m], k[m], rest, key[m], NewLeaf(key[m + 1..], value)))
  {
    ExtKeysPart(node.key, key);
    CutKey(key, MatchLen(node.key, key));
  }

  lemma InsertSplitsExtLookup(db: Db, node: Node, key: Nibbles, value: Bytes, other: Nibbles)
    requires WF(LinkOf(node), false) && Terminated(key) && Terminated(other) && Sound(node, db) && node.Ext?
    requires MatchLen(node.key, key) < |node.key|
    requires Insert(db, node, key, value, false).Some?
    ensures Lookup(LinkOf(Insert(db, node, key, value, false).value), other) ==
      if other == key then Some(value) else Lookup(LinkOf(node), other)
  {
    var k, m := node.key, MatchLen(node.key, key);
    InsertForksExt(db, node, key, value);
    ExtForkLookup(k, node.next, node.cached, key, value, other, m);
  }

  lemma ExtForkLookup(k: Nibbles, next: Node, cached: Hash, key: Nibbles, value: Bytes, other: Nibbles, m: nat)
    requires m == MatchLen(k, key) && m < |k| && m < |key| && k[m] <= TERMINATOR && key[m] <= TERMINATOR
    requires k[m] != key[m]
    ensures var rest := if m != |k| - 1 then Ext(cached, Dirty, k[m + 1..], next) else next;
      var n := Fork(key[..m], k[m], rest, key[m], NewLeaf(key[m + 1..], value));
      Lookup(LinkOf(n), other) ==
        if other == key then Some(value) else Lookup(To(Digest(ExtEnc(k, LinkOf(next)))), other)
  {
    var rest := if m != |k| - 1 then Ext(cached, Dirty, k[m + 1..], next) else next;
    ForkLookup(key[..m], k[m], rest, key[m], NewLeaf(key[m + 1..], value), other);
    SplitEq(key, m, other);
    assert k[..m] == key[..m];
    ExtSplitLookup(k, next, m, other);
  }

  /** Replacing one child of a branch changes the keys of that child only. */
  lemma ReplaceChildLookup(cached: Hash, st: Status, cs: seq<Node>, i: nat, n: Node, other: Nibbles)
    requires i < |cs| && other != []
    ensures Lookup(LinkOf(Branch(cached, Dirty, cs[i := n])), other) ==
      if other[0] == i then Lookup(LinkOf(n), other[1..]) else Lookup(LinkOf(Branch(cached, st, cs)), other)
  {
    BranchLookup(cached, st, cs, other);
    BranchLookup(cached, Dirty, cs[i := n], other);
  }

  /** The two recursive cases of InsertLookup, given what the recursive call establishes. */
  lemma PrefixSplit(k: Nibbles, key: Nibbles)
    requires k <= key
    ensures key == k + key[|k|..]
  {
  }

  lemma InsertThroughExt(db: Db, node: Node, key: Nibbles, value: Bytes, other: Nibbles)
    requires WF(LinkOf(node), false) && Terminated(key) && Terminated(other) && Sound(node, db) && node.Ext?
    requires MatchLen(node.key, key) == |node.key| && Terminated(key[|node.key|..])
    requires Insert(db, node.next, key[|node.key|..], value, false).Some?
    requires var k := node.key;
      k <= other ==>
        Lookup(LinkOf(Insert(db, node.next, key[|k|..], value, false).value), other[|k|..]) ==
        if other[|k|..] == key[|k|..] then Some(value) else Lookup(LinkOf(node.next), other[|k|..])
    ensures Insert(db, node, key, value, false).Some?
    ensures Lookup(LinkOf(Insert(db, node, key, value, false).value), other) ==
      if other == key then Some(value) else Lookup(LinkOf(node), other)
  {
    var k := node.key;
    PrefixSplit(k, key);
    if k <= other { PrefixSplit(k, other); }
  }

  lemma InsertThroughBranch(db: Db, node: Node, key: Nibbles, value: Bytes, other: Nibbles)
    requires WF(LinkOf(node), false) && Terminated(key) && Terminated(other) && Sound(node, db) && node.Branch?
    requires |node.children| == NUM_BRANCH_CHILDREN && key[0] <= TERMINATOR && other[0] <= TERMINATOR
    requires WF(LinkOf(node.children[key[0]]), key[0] == TERMINATOR) && KeyOk(key[1..], key[0] == TERMINATOR)
    requires Insert(db, node.children[key[0]], key[1..], value, key[0] == TERMINATOR).Some?
    requires var child := node.children[key[0]];
      other[0] == key[0] ==>
        Lookup(LinkOf(Insert(db, child, key[1..], value, key[0] == TERMINATOR).value), other[1..]) ==
        if other[1..] == key[1..] then Some(value) else Lookup(LinkOf(child), other[1..])
    ensures Insert(db, node, key, value, false).Some?
    ensures Lookup(LinkOf(Insert(db, node, key, value, false).value), other) ==
      if other == key then Some(value) else Lookup(LinkOf(node), other)
  {
    var n := Insert(db, node.children[key[0]], key[1..], value, key[0] == TERMINATOR).value;
    SplitEq(key, 0, other);
    ReplaceChildLookup(node.cached, node.status, node.children, key[0], n, other);
    BranchLookup(node.cached, node.status, node.children, other);
  }

  /** Insert changes the value of one key and of no other. */
  lemma {:induction false} InsertLookup(db: Db, node: Node, key: Nibbles, value: Bytes, ended: bool, other: Nibbles)
    requires WF(LinkOf(node), ended) && KeyOk(key, ended) && KeyOk(other, ended) && Sound(node, db)
    ensures Insert(db, node, key, value, ended).Some?
    ensures Lookup(LinkOf(Insert(db, node, key, value, ended).value), other) ==
      if other == key then Some(value) else Lookup(LinkOf(node), other)
    decreases LinkOf(node), node.HashRef?
  {
    InsertKeeps(db, node, key, value, ended);
    match node
    case Nil =>
    case HashRef(h) =>
      DecodeSound(h, db);
      InsertLookup(db, LoadNode(db, h).value, key, value, ended, other);
    case Leaf(_, _, _, _) =>
      InsertLeafLookup(db, node, key, value, ended, other);
    case Ext(_, _, k, next) =>
      ExtKeysPart(k, key);
      if MatchLen(k, key) < |k| {
        InsertSplitsExtLookup(db, node, key, value, other);
      } else {
        InsertKeeps(db, next, key[|k|..], value, false);
        if k <= other {
          ThroughExt(k, other);
          InsertLookup(db, next, key[|k|..], value, false, other[|k|..]);
        }
        InsertThroughExt(db, node, key, value, other);
      }
    case Branch(cached, st, cs) =>
      CutKey(key, 0);
      CutKey(other, 0);
      BranchShape(cached, st, cs, db);
      InsertKeeps(db, cs[key[0]], key[1..], value, key[0] == TERMINATOR);
      if other[0] == key[0] {
        InsertLookup(db, cs[key[0]], key[1..], value, key[0] == TERMINATOR, other[1..]);
      }
      InsertThroughBranch(db, node, key, value, other);
  }

  lemma ThroughExt(k: Nibbles, other: Nibbles)
    requires AllNibbles(k) && Terminated(other) && k <= other
    ensures |k| < |other| && Terminated(other[|k|..]) && other == k + other[|k|..]
  {
    ExtKeysPart(k, other);
    assert other[..|k|] == k;
    var m := MatchLen(k, other);
    assert m == |k| by {
      if m < |k| { assert false; }
    }
  }

  /** Equality of keys, read off a cut. */
  lemma SplitEq(k: Nibbles, m: nat, other: Nibbles)
    requires m < |k|
    ensures k == other <==> k[..m] <= other && m < |other| && other[m] == k[m] && other[m + 1..] == k[m + 1..]
  {
    if k[..m] <= other && m < |other| && other[m] == k[m] && other[m + 1..] == k[m + 1..] {
      assert k == k[..m] + [k[m]] + k[m + 1..];
      assert other == other[..m] + [other[m]] + other[m + 1..];
    }
  }

  /** An extension reads like its key cut in two. */
  lemma ExtSplitLookup(k: Nibbles, next: Node, m: nat, other: Nibbles)
    requires m < |k|
    ensures Lookup(To(Digest(ExtEnc(k, LinkOf(next)))), other) ==
      if !(k[..m] <= other) || |other| == m || other[m] != k[m] then None
      else if m == |k| - 1 then Lookup(LinkOf(next), other[m + 1..])
      else Lookup(To(Digest(ExtEnc(k[m + 1..], LinkOf(next)))), other[m + 1..])
  {
    if k <= other {
      assert other[..|k|] == k;
      assert k[..m] == other[..m];
      assert k[m + 1..] == other[m + 1..][..|k| - m - 1];
      assert other[m + 1..][|k| - m - 1..] == other[|k|..];
    } else if k[..m] <= other && m < |other| && other[m] == k[m] {
      if k[m + 1..] <= other[m + 1..] {
        assert false;
      }
    }
  }
}
