/** Trie.delete for one key or a key prefix, with the collapse of one-child branches. */
module TrieDelete {
  import opened Options
  import opened TrieNodes
  import opened TrieInsert

  datatype DelResult = Failed | Kept | Removed(node: Node)

  /** The loop over a branch's children: how many are set, and the last of them. */
  function CountSet(cs: seq<Node>): nat {
    if cs == [] then 0 else CountSet(cs[..|cs| - 1]) + if cs[|cs| - 1].Nil? then 0 else 1
  }

  function LastSet(cs: seq<Node>): (pos: int)
    ensures -1 <= pos < |cs|
    ensures pos == -1 ==> CountSet(cs) == 0 && forall i :: 0 <= i < |cs| ==> cs[i].Nil?
    ensures pos >= 0 ==> !cs[pos].Nil? && CountSet(cs) > 0
    ensures CountSet(cs) == 1 ==> forall i :: 0 <= i < |cs| && i != pos ==> cs[i].Nil?
  {
    if cs == [] then -1
    else
      var front := cs[..|cs| - 1];
      var p := LastSet(front);
      assert forall i :: 0 <= i < |front| ==> cs[i] == front[i];
      if cs[|cs| - 1].Nil? then p else |cs| - 1
  }

  method CountChildren(cs: seq<Node>) returns (pos: int, count: nat)
    ensures pos == LastSet(cs) && count == CountSet(cs)
  {
    pos, count := -1, 0;
    for i := 0 to |cs|
      invariant pos == LastSet(cs[..i]) && count == CountSet(cs[..i])
    {
      assert cs[..i + 1][..i] == cs[..i];
      if !cs[i].Nil? {
        pos, count := i, count + 1;
      }
    }
    assert cs[..|cs|] == cs;
  }

  /** What becomes of a branch whose children are now `cs`. */
  function Collapse(db: Db, cached: Hash, cs: seq<Node>): DelResult {
    var branch := Branch(cached, Dirty, cs);
    if CountSet(cs) != 1 then Removed(branch)
    else
      var pos := LastSet(cs);
      assert pos >= 0;
      var loaded := if cs[pos].HashRef? then LoadNode(db, cs[pos].ref) else Some(cs[pos]);
      if loaded.None? then Failed
      else match loaded.value
        case Leaf(_, _, k, v) => Removed(Leaf(EMPTY_HASH, Dirty, [pos as nat] + k, v))
        case Ext(_, _, k, next) => Removed(Ext(EMPTY_HASH, Dirty, [pos as nat] + k, next))
        case _ => Removed(branch)
  }

  /** Keys and prefixes that delete is called with. */
  ghost predicate DelKeyOk(key: Nibbles, descendant: bool, ended: bool) {
    if descendant then !ended && |key| > 0 && AllNibbles(key) else KeyOk(key, ended)
  }

  function Delete(db: Db, node: Node, key: Nibbles, descendant: bool, ghost ended: bool): DelResult
    requires WF(LinkOf(node), ended) && DelKeyOk(key, descendant, ended) && Sound(node, db)
    decreases LinkOf(node), node.HashRef?
  {
    match node
    case Nil => Kept
    case HashRef(h) =>
      var loaded := LoadNode(db, h);
      if loaded.None? then Failed
      else
        DecodeSound(h, db);
        Delete(db, loaded.value, key, descendant, ended)
    case Leaf(_, _, k, _) =>
      var m := MatchLen(key, k);
      if m == |k| || m == |key| then Removed(Nil) else Kept
    case Ext(cached, _, k, next) =>
      var m := MatchLen(key, k);
      if descendant && m == |key| then Removed(Nil)
      else if m == |k| then
        DelThroughExt(k, key, descendant);
        match Delete(db, next, key[m..], descendant, false)
        case Removed(n) => if n.Nil? then Removed(Nil) else Removed(Ext(cached, Dirty, k, n))
        case other => other
      else Kept
    case Branch(cached, _, cs) =>
      if descendant && |key| == 1 then
        if cs[key[0]].Nil? then Kept else Collapse(db, cached, cs[key[0] := Nil])
      else
        DelThroughBranch(key, descendant);
        assert WF(Links(cs)[key[0]], key[0] == TERMINATOR);
        match Delete(db, cs[key[0]], key[1..], descendant, key[0] == TERMINATOR)
        case Removed(n) => Collapse(db, cached, cs[key[0] := n])
        case other => other
  }

  lemma DelThroughExt(k: Nibbles, key: Nibbles, descendant: bool)
    requires AllNibbles(k) && DelKeyOk(key, descendant, false) && MatchLen(key, k) == |k|
    requires descendant ==> MatchLen(key, k) < |key|
    ensures DelKeyOk(key[|k|..], descendant, false) && key == k + key[|k|..]
  {
    assert key[..|k|] == k;
    if !descendant { ThroughExt(k, key); }
  }

  lemma DelThroughBranch(key: Nibbles, descendant: bool)
    requires DelKeyOk(key, descendant, false) && (descendant ==> |key| != 1)
    ensures key[0] <= TERMINATOR && DelKeyOk(key[1..], descendant, key[0] == TERMINATOR)
  {
    if !descendant { CutKey(key, 0); }
  }

  // ---------- collapse ----------

  lemma CollapseKeeps(db: Db, cached: Hash, cs: seq<Node>)
    requires |cs| == NUM_BRANCH_CHILDREN
    requires forall i :: 0 <= i < |cs| ==> WF(LinkOf(cs[i]), i == TERMINATOR) && Sound(cs[i], db)
    ensures var r := Collapse(db, cached, cs);
      r.Removed? && WF(LinkOf(r.node), false) && Sound(r.node, db) && !Clean(r.node)
  {
    BranchShape(cached, Dirty, cs, db);
    if CountSet(cs) == 1 {
      var pos := LastSet(cs);
      if cs[pos].HashRef? { DecodeSound(cs[pos].ref, db); }
      var child := if cs[pos].HashRef? then LoadNode(db, cs[pos].ref).value else cs[pos];
      assert LinkOf(child) == LinkOf(cs[pos]);
      if child.Leaf? { PrependTerminated(pos, child.key); }
    }
  }

  lemma PrependTerminated(pos: nat, k: Nibbles)
    requires KeyOk(k, pos == TERMINATOR) && pos <= TERMINATOR
    ensures Terminated([pos] + k)
  {
    var key := [pos] + k;
    assert forall i :: 0 < i < |key| ==> key[i] == k[i - 1];
    if pos != TERMINATOR {
      assert forall i :: 0 <= i < |k| - 1 ==> k[i] == k[..|k| - 1][i];
    }
  }

  /** A leaf or extension with one more nibble in front. */
  lemma PrependedLookup(pos: nat, child: Node, merged: Node, other: Nibbles)
    requires other != []
    requires child.Leaf? || (child.Ext? && |child.key| > 0)
    requires child.Leaf? ==> merged == Leaf(EMPTY_HASH, Dirty, [pos] + child.key, child.value)
    requires child.Ext? ==> merged == Ext(EMPTY_HASH, Dirty, [pos] + child.key, child.next)
    ensures Lookup(LinkOf(merged), other) == if other[0] == pos then Lookup(LinkOf(child), other[1..]) else None
  {
    var k := [pos] + child.key;
    assert k[1..] == child.key;
    if child.Leaf? {
      SplitEq(k, 0, other);
    } else {
      ExtSplitLookup(k, child.next, 0, other);
    }
  }

  /** The one child that is left, loaded, is what the collapse works on. */
  lemma CollapseOne(db: Db, cached: Hash, cs: seq<Node>, pos: nat, child: Node, other: Nibbles)
    requires |cs| == NUM_BRANCH_CHILDREN && other != [] && CountSet(cs) == 1 && LastSet(cs) == pos < |cs|
    requires Some(child) == (if cs[pos].HashRef? then LoadNode(db, cs[pos].ref) else Some(cs[pos]))
    requires LinkOf(child) == LinkOf(cs[pos]) && (child.Ext? ==> |child.key| > 0)
    ensures var r := Collapse(db, cached, cs);
      r.Removed? && Lookup(LinkOf(r.node), other) == Lookup(LinkOf(Branch(cached, Dirty, cs)), other)
  {
    BranchLookup(cached, Dirty, cs, other);
    var r := Collapse(db, cached, cs);
    if child.Leaf? || child.Ext? {
      PrependedLookup(pos, child, r.node, other);
    }
  }

  lemma CollapseLookup(db: Db, cached: Hash, cs: seq<Node>, other: Nibbles)
    requires |cs| == NUM_BRANCH_CHILDREN && other != []
    requires forall i :: 0 <= i < |cs| ==> WF(LinkOf(cs[i]), i == TERMINATOR) && Sound(cs[i], db)
    ensures var r := Collapse(db, cached, cs);
      r.Removed? && Lookup(LinkOf(r.node), other) == Lookup(LinkOf(Branch(cached, Dirty, cs)), other)
  {
    if CountSet(cs) == 1 {
      var pos := LastSet(cs);
      if cs[pos].HashRef? { DecodeSound(cs[pos].ref, db); }
      var child := if cs[pos].HashRef? then LoadNode(db, cs[pos].ref).value else cs[pos];
      assert WF(LinkOf(cs[pos]), pos == TERMINATOR);
      CollapseOne(db, cached, cs, pos, child, other);
    }
  }

  // ---------- delete ----------

  ghost predicate GoodResult(r: DelResult, db: Db, ended: bool) {
    !r.Failed? && (r.Removed? ==> WF(LinkOf(r.node), ended) && Sound(r.node, db) && (r.node.Nil? || !Clean(r.node)))
  }

  lemma DeleteBranchKeeps(db: Db, node: Node, key: Nibbles, descendant: bool)
    requires WF(LinkOf(node), false) && DelKeyOk(key, descendant, false) && Sound(node, db) && node.Branch?
    requires |node.children| == NUM_BRANCH_CHILDREN && key[0] <= TERMINATOR
    requires forall i :: 0 <= i < |node.children| ==> WF(LinkOf(node.children[i]), i == TERMINATOR)
    requires (descendant && |key| == 1) ||
      (DelKeyOk(key[1..], descendant, key[0] == TERMINATOR) &&
       GoodResult(Delete(db, node.children[key[0]], key[1..], descendant, key[0] == TERMINATOR),
                  db, key[0] == TERMINATOR))
    ensures GoodResult(Delete(db, node, key, descendant, false), db, false)
  {
    var cs := node.children;
    if descendant && |key| == 1 {
      CollapseKeeps(db, node.cached, cs[key[0] := Nil]);
    } else {
      var r := Delete(db, cs[key[0]], key[1..], descendant, key[0] == TERMINATOR);
      if r.Removed? { CollapseKeeps(db, node.cached, cs[key[0] := r.node]); }
    }
  }

  lemma DeleteExtKeeps(db: Db, node: Node, key: Nibbles, descendant: bool)
    requires WF(LinkOf(node), false) && DelKeyOk(key, descendant, false) && Sound(node, db) && node.Ext?
    requires MatchLen(key, node.key) == |node.key| && (descendant ==> |node.key| < |key|) ==>
      DelKeyOk(key[|node.key|..], descendant, false) &&
        GoodResult(Delete(db, node.next, key[|node.key|..], descendant, false), db, false)
    ensures GoodResult(Delete(db, node, key, descendant, false), db, false)
  {
  }

  /** Delete never fails on a sound trie, and what it returns is well shaped and sound. */
  lemma {:induction false} DeleteKeeps(db: Db, node: Node, key: Nibbles, descendant: bool, ended: bool)
    requires WF(LinkOf(node), ended) && DelKeyOk(key, descendant, ended) && Sound(node, db)
    ensures GoodResult(Delete(db, node, key, descendant, ended), db, ended)
    decreases LinkOf(node), node.HashRef?
  {
    match node
    case Nil =>
    case HashRef(h) =>
      DecodeSound(h, db);
      DeleteKeeps(db, LoadNode(db, h).value, key, descendant, ended);
    case Leaf(_, _, k, _) =>
    case Ext(cached, _, k, next) =>
      DeleteExtKeeps(db, node, key, descendant) by {
        if MatchLen(key, k) == |k| && (descendant ==> |k| < |key|) {
          DelThroughExt(k, key, descendant);
          DeleteKeeps(db, next, key[|k|..], descendant, false);
        }
      }
    case Branch(cached, st, cs) =>
      DeleteBranchKeeps(db, node, key, descendant) by {
        BranchShape(cached, st, cs, db);
        if !descendant || |key| != 1 {
          DelThroughBranch(key, descendant);
          DeleteKeeps(db, cs[key[0]], key[1..], descendant, key[0] == TERMINATOR);
        }
      }
  }

  ghost predicate Hit(key: Nibbles, descendant: bool, other: Nibbles) {
    if descendant then key <= other else other == key
  }

  /** What a delete result says about one key `other`. */
  ghost predicate DeletedLookup(r: DelResult, link: Link, key: Nibbles, descendant: bool, other: Nibbles) {
    match r
    case Failed => false
    case Kept => Hit(key, descendant, other) ==> Lookup(link, other).None?
    case Removed(n) => Lookup(LinkOf(n), other) == if Hit(key, descendant, other) then None else Lookup(link, other)
  }

  lemma DeleteLeafLookup(db: Db, node: Node, key: Nibbles, descendant: bool, ended: bool, other: Nibbles)
    requires WF(LinkOf(node), ended) && DelKeyOk(key, descendant, ended) && Sound(node, db) && node.Leaf?
    requires KeyOk(other, ended)
    ensures DeletedLookup(Delete(db, node, key, descendant, ended), LinkOf(node), key, descendant, other)
  {
    var k := node.key;
    var m := MatchLen(key, k);
    if descendant {
      if m == |k| { assert false; }
      if key <= k { assert m == |key| by { if m < |key| { assert false; } } }
      if m == |key| { assert k[..m] == key; }
    } else {
      LeafKeysPart(key, k, ended);
      LeafKeysPart(k, key, ended);
      MatchSym(k, key);
    }
  }

  lemma MatchSym(a: Nibbles, b: Nibbles)
    ensures MatchLen(a, b) == MatchLen(b, a)
  {
    var m, n := MatchLen(a, b), MatchLen(b, a);
    if m < n { assert false; }
    if n < m { assert false; }
  }

  /** An extension is removed as a whole when the prefix ends inside its key. */
  lemma DeleteExtLookup(db: Db, node: Node, key: Nibbles, descendant: bool, other: Nibbles)
    requires WF(LinkOf(node), false) && DelKeyOk(key, descendant, false) && Sound(node, db) && node.Ext?
    requires Terminated(other)
    requires MatchLen(key, node.key) < |node.key| || (descendant && MatchLen(key, node.key) == |key|)
    ensures DeletedLookup(Delete(db, node, key, descendant, false), LinkOf(node), key, descendant, other)
  {
    var k := node.key;
    var m := MatchLen(key, k);
    if node.key <= other {
      assert other[..|k|] == k;
      if descendant && m == |key| {
        assert key <= other by { assert other[..m] == k[..m] == key; }
      } else if Hit(key, descendant, other) {
        assert false;
      }
    }
  }

  lemma DeleteThroughExt(db: Db, node: Node, key: Nibbles, descendant: bool, other: Nibbles)
    requires WF(LinkOf(node), false) && DelKeyOk(key, descendant, false) && Sound(node, db) && node.Ext?
    requires Terminated(other)
    requires MatchLen(key, node.key) == |node.key| && (descendant ==> |node.key| < |key|)
    requires DelKeyOk(key[|node.key|..], descendant, false) && key == node.key + key[|node.key|..]
    requires node.key <= other ==>
      DeletedLookup(Delete(db, node.next, key[|node.key|..], descendant, false), LinkOf(node.next),
                    key[|node.key|..], descendant, other[|node.key|..])
    requires !Delete(db, node.next, key[|node.key|..], descendant, false).Failed?
    ensures DeletedLookup(Delete(db, node, key, descendant, false), LinkOf(node), key, descendant, other)
  {
    var k := node.key;
    if k <= other {
      assert other == k + other[|k|..];
      HitTail(k, key, descendant, other);
    } else if Hit(key, descendant, other) {
      assert false;
    }
  }

  lemma HitTail(k: Nibbles, key: Nibbles, descendant: bool, other: Nibbles)
    requires k <= key && k <= other
    ensures Hit(key, descendant, other) <==> Hit(key[|k|..], descendant, other[|k|..])
  {
    assert key == k + key[|k|..] && other == k + other[|k|..];
  }

  lemma DeleteThroughBranch(db: Db, node: Node, key: Nibbles, descendant: bool, other: Nibbles)
    requires WF(LinkOf(node), false) && DelKeyOk(key, descendant, false) && Sound(node, db) && node.Branch?
    requires Terminated(other) && |node.children| == NUM_BRANCH_CHILDREN && !(descendant && |key| == 1)
    requires key[0] <= TERMINATOR && DelKeyOk(key[1..], descendant, key[0] == TERMINATOR)
    requires forall i :: 0 <= i < |node.children| ==> WF(LinkOf(node.children[i]), i == TERMINATOR)
    requires var r := Delete(db, node.children[key[0]], key[1..], descendant, key[0] == TERMINATOR);
      && !r.Failed?
      && (r.Removed? ==> WF(LinkOf(r.node), key[0] == TERMINATOR) && Sound(r.node, db))
      && (other[0] == key[0] ==> DeletedLookup(r, LinkOf(node.children[key[0]]), key[1..], descendant, other[1..]))
    ensures DeletedLookup(Delete(db, node, key, descendant, false), LinkOf(node), key, descendant, other)
  {
    var r := Delete(db, node.children[key[0]], key[1..], descendant, key[0] == TERMINATOR);
    BranchLookup(node.cached, node.status, node.children, other);
    if other[0] == key[0] { HitTail(key[..1], key, descendant, other); }
    if r.Removed? {
      var cs := node.children[key[0] := r.node];
      CollapseLookup(db, node.cached, cs, other);
      ReplaceChildLookup(node.cached, node.status, node.children, key[0], r.node, other);
    }
  }

  lemma DeleteChild(db: Db, node: Node, key: Nibbles, other: Nibbles)
    requires WF(LinkOf(node), false) && DelKeyOk(key, true, false) && Sound(node, db) && node.Branch?
    requires Terminated(other) && |key| == 1
    ensures DeletedLookup(Delete(db, node, key, true, false), LinkOf(node), key, true, other)
  {
    BranchShape(node.cached, node.status, node.children, db);
    BranchLookup(node.cached, node.status, node.children, other);
    assert key <= other <==> other[0] == key[0];
    if !node.children[key[0]].Nil? {
      CollapseLookup(db, node.cached, node.children[key[0] := Nil], other);
      ReplaceChildLookup(node.cached, node.status, node.children, key[0], Nil, other);
    }
  }

  /** Delete removes exactly the hit keys; when it reports no match there was none to remove. */
  lemma {:induction false} DeleteLookup(db: Db, node: Node, key: Nibbles, descendant: bool, ended: bool, other: Nibbles)
    requires WF(LinkOf(node), ended) && DelKeyOk(key, descendant, ended) && Sound(node, db) && KeyOk(other, ended)
    ensures DeletedLookup(Delete(db, node, key, descendant, ended), LinkOf(node), key, descendant, other)
    decreases LinkOf(node), node.HashRef?
  {
    match node
    case Nil =>
    case HashRef(h) =>
      DecodeSound(h, db);
      DeleteLookup(db, LoadNode(db, h).value, key, descendant, ended, other);
    case Leaf(_, _, _, _) =>
      DeleteLeafLookup(db, node, key, descendant, ended, other);
    case Ext(_, _, k, next) =>
      if MatchLen(key, k) == |k| && (descendant ==> |k| < |key|) {
        DelThroughExt(k, key, descendant);
        DeleteKeeps(db, next, key[|k|..], descendant, false);
        if k <= other {
          ThroughExt(k, other);
          DeleteLookup(db, next, key[|k|..], descendant, false, other[|k|..]);
        }
        DeleteThroughExt(db, node, key, descendant, other);
      } else {
        DeleteExtLookup(db, node, key, descendant, other);
      }
    case Branch(cached, st, cs) =>
      CutKey(other, 0);
      if descendant && |key| == 1 {
        DeleteChild(db, node, key, other);
      } else {
        DelThroughBranch(key, descendant);
        BranchShape(cached, st, cs, db);
        DeleteKeeps(db, cs[key[0]], key[1..], descendant, key[0] == TERMINATOR);
        if other[0] == key[0] {
          DeleteLookup(db, cs[key[0]], key[1..], descendant, key[0] == TERMINATOR, other[1..]);
        }
        DeleteThroughBranch(db, node, key, descendant, other);
      }
  }
}
