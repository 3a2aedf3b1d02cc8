/** Deletions leave traces: what a put and its undoing deletion do to the trie. */
module TrieHistory {
  import opened Options
  import opened TrieNodes
  import opened TrieKeys
  import opened TrieInsert
  import opened TrieDelete
  import opened TrieShape
  import opened Trie

  // ---------- deleting from a fork ----------

  ghost function Single(i: nat, link: Link): (links: seq<Link>)
    ensures |links| == NUM_BRANCH_CHILDREN
    ensures forall x :: 0 <= x < |links| ==> links[x] == if x == i then link else NoLink
  {
    seq(NUM_BRANCH_CHILDREN, x => if x == i then link else NoLink)
  }

  /** What a branch becomes of which only child i is left: a leaf or an extension takes up the nibble, a branch
      stays. */
  ghost function Merged(i: nat, link: Link): Link {
    if link.NoLink? || link.hash.Raw? then link
    else match link.hash.body
      case LeafEnc(k, v) => To(Digest(LeafEnc([i] + k, v)))
      case ExtEnc(k, next) => To(Digest(ExtEnc([i] + k, next)))
      case BranchEnc(_) => To(Digest(BranchEnc(Single(i, link))))
  }

  /** An extension over a link, or the link itself. */
  ghost function Below(prefix: Nibbles, link: Link): Link {
    if prefix == [] then link else To(Digest(ExtEnc(prefix, link)))
  }

  lemma {:induction false} MatchSelf(k: Nibbles)
    ensures MatchLen(k, k) == |k|
  {
    if k != [] { MatchSelf(k[1..]); }
  }

  lemma {:induction false} MatchFront(k: Nibbles, m: nat)
    requires m <= |k|
    ensures MatchLen(k, k[..m]) == m
  {
    if m > 0 {
      MatchFront(k[1..], m - 1);
      assert k[..m][1..] == k[1..][..m - 1];
    }
  }

  /** The one child that is left, as the collapse sees it. */
  lemma LoneChild(db: Db, cs: seq<Node>, i: nat, left: Node)
    requires |cs| == NUM_BRANCH_CHILDREN && i < |cs| && !left.Nil?
    requires forall x :: 0 <= x < |cs| ==> cs[x] == if x == i then left else Nil
    ensures CountSet(cs) == 1 && LastSet(cs) == i && Links(cs) == Single(i, LinkOf(left))
  {
    OneSet(cs, i);
    assert cs[i] == left;
    assert LastSet(cs) != -1;
    assert CountSet(cs) == 1;
  }

  lemma LoneCollapse(db: Db, cs: seq<Node>, i: nat, left: Node, ended: bool)
    requires |cs| == NUM_BRANCH_CHILDREN && i < |cs| && !left.Nil? && WF(LinkOf(left), ended) && Sound(left, db)
    requires forall x :: 0 <= x < |cs| ==> cs[x] == if x == i then left else Nil
    ensures var r := Collapse(db, EMPTY_HASH, cs);
      r.Removed? && !r.node.Nil? && LinkOf(r.node) == Merged(i, LinkOf(left))
  {
    LoneChild(db, cs, i, left);
    assert cs[i] == left;
    if left.HashRef? { DecodeSound(left.ref, db); }
  }

  /** Deleting the leaf just put into a fresh branch. */
  lemma BranchDelete(db: Db, i: nat, left: Node, j: nat, rest: Nibbles, value: Bytes, node: Node, key: Nibbles)
    requires i < NUM_BRANCH_CHILDREN && j < NUM_BRANCH_CHILDREN && i != j && !left.Nil?
    requires WF(LinkOf(left), i == TERMINATOR) && Sound(left, db) && Terminated(key) && key == [j] + rest
    requires node == Branch(EMPTY_HASH, Dirty, TwoChildren(i, left, j, NewLeaf(rest, value)))
    requires WF(LinkOf(node), false) && Sound(node, db)
    ensures var r := Delete(db, node, key, false, false);
      r.Removed? && !r.node.Nil? && LinkOf(r.node) == Merged(i, LinkOf(left))
  {
    var cs := node.children;
    assert key[0] == j && key[1..] == rest && cs[j] == NewLeaf(rest, value);
    MatchSelf(rest);
    DelThroughBranch(key, false);
    BranchShape(EMPTY_HASH, Dirty, cs, db);
    assert Delete(db, cs[j], rest, false, j == TERMINATOR) == Removed(Nil);
    LoneCollapse(db, cs[j := Nil], i, left, i == TERMINATOR);
  }

  /** Deleting through an extension. */
  lemma ExtDelete(db: Db, node: Node, key: Nibbles, next: Node)
    requires node.Ext? && WF(LinkOf(node), false) && Sound(node, db) && Terminated(key)
    requires |node.key| < |key| && key[..|node.key|] == node.key && KeyOk(key[|node.key|..], false) && !next.Nil?
    requires Delete(db, node.next, key[|node.key|..], false, false) == Removed(next)
    ensures Delete(db, node, key, false, false) == Removed(Ext(node.cached, Dirty, node.key, next))
  {
    MatchFront(key, |node.key|);
  }

  lemma TailKey(key: Nibbles, m: nat)
    requires Terminated(key) && m < |key|
    ensures Terminated(key[m..])
  {
    var front := key[..|key| - 1];
    assert forall i :: m <= i < |key| - 1 ==> front[i] == key[i];
  }

  /** Deleting the leaf just put into a fork that parts at m. */
  lemma ForkDelete(db: Db, i: nat, left: Node, key: Nibbles, m: nat, value: Bytes, node: Node)
    requires Terminated(key) && m < |key| && i < NUM_BRANCH_CHILDREN && key[m] < NUM_BRANCH_CHILDREN && i != key[m]
    requires !left.Nil? && WF(LinkOf(left), i == TERMINATOR) && Sound(left, db)
    requires node == Fork(key[..m], i, left, key[m], NewLeaf(key[m + 1..], value)) && WF(LinkOf(node), false)
    requires Sound(node, db)
    ensures var r := Delete(db, node, key, false, false);
      r.Removed? && !r.node.Nil? && LinkOf(r.node) == Below(key[..m], Merged(i, LinkOf(left)))
  {
    TailKey(key, m);
    assert key[m..] == [key[m]] + key[m + 1..];
    if m == 0 {
      assert key[m..] == key && key[..m] == [];
      BranchDelete(db, i, left, key[m], key[m + 1..], value, node, key);
    } else {
      assert node.Ext? && node.key == key[..m];
      BranchDelete(db, i, left, key[m], key[m + 1..], value, node.next, key[m..]);
      ExtDelete(db, node, key, Delete(db, node.next, key[m..], false, false).node);
    }
  }

  // ---------- put and delete of a new key ----------

  /** Where the trie, entered with a new key, has room for it: putting the key and deleting it again leaves no trace. */
  ghost predicate Restores(link: Link, key: Nibbles)
    decreases link
  {
    link.NoLink? || link.hash.Raw? ||
    match link.hash.body
    case LeafEnc(k, _) => MatchLen(k, key) == 0
    case ExtEnc(k, next) =>
      if k <= key then Restores(next, key[|k|..]) else MatchLen(k, key) == 0 && |k| > 1
    case BranchEnc(cs) => key != [] && key[0] < |cs| && Restores(cs[key[0]], key[1..])
  }

  /** The result of a deletion: something is left if there was something, and it is what there was exactly if the
      trie had room for the key. */
  ghost predicate Undoes(r: DelResult, link: Link, key: Nibbles) {
    r.Removed? && (link.To? ==> !r.node.Nil?) && (LinkOf(r.node) == link <==> Restores(link, key))
  }

  /** A leaf that was split comes together again if the fork had no extension above it. */
  lemma LeafMerged(k: Nibbles, v: Bytes, key: Nibbles, m: nat)
    requires m < |k| && m <= |key|
    ensures Below(key[..m], Merged(k[m], To(Digest(LeafEnc(k[m + 1..], v))))) == To(Digest(LeafEnc(k, v))) <==> m == 0
  {
    assert [k[m]] + k[m + 1..] == k[m..] && (m == 0 ==> k[m..] == k && key[..m] == []);
  }

  lemma UndoLeaf(db: Db, node: Node, key: Nibbles, value: Bytes, ended: bool)
    requires WF(LinkOf(node), ended) && KeyOk(key, ended) && Sound(node, db) && node.Leaf? && node.key != key
    ensures Insert(db, node, key, value, ended).Some?
    ensures var n := Insert(db, node, key, value, ended).value;
      WF(LinkOf(n), ended) && Sound(n, db) && Undoes(Delete(db, n, key, false, ended), LinkOf(node), key)
  {
    var k := node.key;
    InsertKeeps(db, node, key, value, ended);
    LeafKeysPart(k, key, ended);
    var m := MatchLen(k, key);
    CutKey(k, m);
    CutKey(key, m);
    LeafMerged(k, node.value, key, m);
    ForkDelete(db, k[m], Leaf(node.cached, Dirty, k[m + 1..], node.value), key, m, value,
               Insert(db, node, key, value, ended).value);
  }

  /** What is left of an extension that was split. */
  lemma SplitRest(node: Node, m: nat) returns (rest: Node)
    requires node.Ext? && WF(LinkOf(node), false) && Shape(LinkOf(node), true) && m < |node.key|
    ensures rest == if m != |node.key| - 1 then Ext(node.cached, Dirty, node.key[m + 1..], node.next) else node.next
    ensures Merged(node.key[m], LinkOf(rest)) ==
      if m != |node.key| - 1 then To(Digest(ExtEnc(node.key[m..], LinkOf(node.next))))
      else To(Digest(BranchEnc(Single(node.key[m], LinkOf(node.next)))))
  {
    var k := node.key;
    rest := if m != |k| - 1 then Ext(node.cached, Dirty, k[m + 1..], node.next) else node.next;
    assert [k[m]] + k[m + 1..] == k[m..];
  }

  lemma UndoSplit(db: Db, node: Node, key: Nibbles, value: Bytes)
    requires WF(LinkOf(node), false) && Terminated(key) && Sound(node, db) && node.Ext? && Shape(LinkOf(node), true)
    requires MatchLen(node.key, key) < |node.key|
    ensures Insert(db, node, key, value, false).Some?
    ensures var n := Insert(db, node, key, value, false).value;
      WF(LinkOf(n), false) && Sound(n, db) && Undoes(Delete(db, n, key, false, false), LinkOf(node), key)
  {
    var k := node.key;
    InsertKeeps(db, node, key, value, false);
    ExtKeysPart(k, key);
    var m := MatchLen(k, key);
    CutKey(key, m);
    var rest := SplitRest(node, m);
    assert !(k <= key) by { if k <= key { assert false; } }
    assert m == 0 ==> k[m..] == k;
    ForkDelete(db, k[m], rest, key, m, value, Insert(db, node, key, value, false).value);
  }

  lemma UndoThroughExt(db: Db, node: Node, key: Nibbles, value: Bytes)
    requires WF(LinkOf(node), false) && Terminated(key) && Sound(node, db) && node.Ext?
    requires MatchLen(node.key, key) == |node.key| && Terminated(key[|node.key|..])
    requires Insert(db, node.next, key[|node.key|..], value, false).Some?
    requires var n := Insert(db, node.next, key[|node.key|..], value, false).value;
      && WF(LinkOf(n), false) && Sound(n, db)
      && Undoes(Delete(db, n, key[|node.key|..], false, false), LinkOf(node.next), key[|node.key|..])
    ensures Insert(db, node, key, value, false).Some?
    ensures var n := Insert(db, node, key, value, false).value;
      WF(LinkOf(n), false) && Sound(n, db) && Undoes(Delete(db, n, key, false, false), LinkOf(node), key)
  {
    var k := node.key;
    InsertKeeps(db, node, key, value, false);
    assert key[..|k|] == k;
    var n := Insert(db, node, key, value, false).value;
    ExtDelete(db, n, key, Delete(db, n.next, key[|k|..], false, false).node);
  }

  /** Two children of a branch are set. */
  lemma {:induction false} CountTwo(cs: seq<Node>, a: nat, b: nat)
    requires a < b < |cs| && !cs[a].Nil? && !cs[b].Nil?
    ensures CountSet(cs) >= 2
  {
    var front := cs[..|cs| - 1];
    if b < |cs| - 1 {
      CountTwo(front, a, b);
    } else {
      assert !front[a].Nil?;
      CountOne(front, a);
    }
  }

  lemma {:induction false} CountOne(cs: seq<Node>, a: nat)
    requires a < |cs| && !cs[a].Nil?
    ensures CountSet(cs) >= 1
  {
    if a < |cs| - 1 { CountOne(cs[..|cs| - 1], a); }
  }

  lemma BranchOthers(links: seq<Link>, i: nat)
    requires Shape(To(Digest(BranchEnc(links))), true) && i < |links|
    ensures HasOther(links, i)
  {
  }

  /** A canonical branch has two children besides any one that is not set. */
  lemma TwoLinks(links: seq<Link>, i: nat) returns (a: nat, b: nat)
    requires Shape(To(Digest(BranchEnc(links))), true) && i < |links|
    ensures a < |links| && b < |links| && a != i && a != b && links[a].To? && links[b].To?
  {
    BranchOthers(links, i);
    var x: nat :| x < |links| && x != i && links[x].To?;
    BranchOthers(links, x);
    var y: nat :| y < |links| && y != x && links[y].To?;
    a, b := x, y;
  }

  lemma TwoSet(cs: seq<Node>, i: nat) returns (a: nat, b: nat)
    requires i < |cs| && Shape(To(Digest(BranchEnc(Links(cs)))), true)
    ensures a < |cs| && b < |cs| && a != i && a != b && !cs[a].Nil? && !cs[b].Nil? && LinkOf(cs[b]).To?
  {
    a, b := TwoLinks(Links(cs), i);
  }

  /** A branch with two children set still has them when one was put back, or a new one taken out again. */
  lemma StillTwo(cs: seq<Node>, i: nat, n: Node, a: nat, b: nat)
    requires i < |cs| && a < |cs| && b < |cs| && a != i && a != b && !cs[a].Nil? && !cs[b].Nil? && (b == i ==> !n.Nil?)
    ensures CountSet(cs[i := n]) >= 2
  {
    CountBoth(cs[i := n], a, b);
  }

  lemma CountBoth(cs: seq<Node>, a: nat, b: nat)
    requires a < |cs| && b < |cs| && a != b && !cs[a].Nil? && !cs[b].Nil?
    ensures CountSet(cs) >= 2
  {
    if a < b { CountTwo(cs, a, b); } else { CountTwo(cs, b, a); }
  }

  /** Deleting below a branch that keeps two children. */
  lemma BranchKept(db: Db, node: Node, key: Nibbles, n: Node)
    requires WF(LinkOf(node), false) && Terminated(key) && Sound(node, db) && node.Branch?
    requires |node.children| == NUM_BRANCH_CHILDREN && key[0] <= TERMINATOR
    requires WF(LinkOf(node.children[key[0]]), key[0] == TERMINATOR) && KeyOk(key[1..], key[0] == TERMINATOR)
    requires Delete(db, node.children[key[0]], key[1..], false, key[0] == TERMINATOR) == Removed(n)
    requires CountSet(node.children[key[0] := n]) >= 2
    ensures Delete(db, node, key, false, false) == Removed(Branch(node.cached, Dirty, node.children[key[0] := n]))
  {
  }

  lemma UndoThroughBranch(db: Db, node: Node, key: Nibbles, value: Bytes)
    requires WF(LinkOf(node), false) && Terminated(key) && Sound(node, db) && node.Branch? && Shape(LinkOf(node), true)
    requires |node.children| == NUM_BRANCH_CHILDREN && key[0] <= TERMINATOR
    requires WF(LinkOf(node.children[key[0]]), key[0] == TERMINATOR) && KeyOk(key[1..], key[0] == TERMINATOR)
    requires Insert(db, node.children[key[0]], key[1..], value, key[0] == TERMINATOR).Some?
    requires var n := Insert(db, node.children[key[0]], key[1..], value, key[0] == TERMINATOR).value;
      && WF(LinkOf(n), key[0] == TERMINATOR) && Sound(n, db)
      && Undoes(Delete(db, n, key[1..], false, key[0] == TERMINATOR), LinkOf(node.children[key[0]]), key[1..])
    ensures Insert(db, node, key, value, false).Some?
    ensures var n := Insert(db, node, key, value, false).value;
      WF(LinkOf(n), false) && Sound(n, db) && Undoes(Delete(db, n, key, false, false), LinkOf(node), key)
  {
    InsertKeeps(db, node, key, value, false);
    var i, cs := key[0], node.children;
    var n := Insert(db, cs[i], key[1..], value, i == TERMINATOR).value;
    var r := Delete(db, n, key[1..], false, i == TERMINATOR);
    var branch := Branch(node.cached, Dirty, cs[i := n]);
    assert Insert(db, node, key, value, false) == Some(branch) && branch.children[i] == n;
    assert branch.children[i := r.node] == cs[i := r.node];
    var a, b := TwoSet(cs, i);
    BranchKept(db, branch, key, r.node) by { StillTwo(cs, i, r.node, a, b); }
    SameBranch(cs, i, r.node);
  }

  lemma SameBranch(cs: seq<Node>, i: nat, n: Node)
    requires i < |cs|
    ensures Links(cs[i := n]) == Links(cs) <==> LinkOf(n) == LinkOf(cs[i])
  {
    var a, b := Links(cs[i := n]), Links(cs);
    assert a[i] == LinkOf(n) && b[i] == LinkOf(cs[i]);
    if LinkOf(n) == LinkOf(cs[i]) { assert a == b; }
  }

  /** What is known of the child a new key leads to. */
  lemma BranchEntry(db: Db, node: Node, key: Nibbles)
    requires WF(LinkOf(node), false) && Terminated(key) && Sound(node, db) && node.Branch? && Shape(LinkOf(node), true)
    requires Lookup(LinkOf(node), key).None?
    ensures |node.children| == NUM_BRANCH_CHILDREN && key[0] <= TERMINATOR && KeyOk(key[1..], key[0] == TERMINATOR)
    ensures var n := node.children[key[0]];
      WF(LinkOf(n), key[0] == TERMINATOR) && Sound(n, db) && Shape(LinkOf(n), true) && Lookup(LinkOf(n), key[1..]).None?
  {
    CutKey(key, 0);
    BranchShape(node.cached, node.status, node.children, db);
    assert Shape(Links(node.children)[key[0]], true);
    BranchLookup(node.cached, node.status, node.children, key);
  }

  /** Insert followed by delete of a key that was not there, at any node of a canonical trie. */
  lemma {:induction false} UndoInsert(db: Db, node: Node, key: Nibbles, value: Bytes, ended: bool)
    requires WF(LinkOf(node), ended) && KeyOk(key, ended) && Sound(node, db) && Shape(LinkOf(node), true)
    requires Lookup(LinkOf(node), key).None?
    ensures Insert(db, node, key, value, ended).Some?
    ensures var n := Insert(db, node, key, value, ended).value;
      WF(LinkOf(n), ended) && Sound(n, db) && Undoes(Delete(db, n, key, false, ended), LinkOf(node), key)
    decreases LinkOf(node), node.HashRef?
  {
    match node
    case Nil => MatchSelf(key);
    case HashRef(h) =>
      DecodeSound(h, db);
      UndoInsert(db, LoadNode(db, h).value, key, value, ended);
    case Leaf(_, _, _, _) => UndoLeaf(db, node, key, value, ended);
    case Ext(_, _, k, next) =>
      ExtKeysPart(k, key);
      if MatchLen(k, key) == |k| {
        assert key[..|k|] == k;
        UndoInsert(db, next, key[|k|..], value, false);
        UndoThroughExt(db, node, key, value);
      } else {
        UndoSplit(db, node, key, value);
      }
    case Branch(_, _, cs) =>
      BranchEntry(db, node, key);
      UndoInsert(db, cs[key[0]], key[1..], value, key[0] == TERMINATOR);
      UndoThroughBranch(db, node, key, value);
  }

  lemma UndoneView(s: State, b: Bytes, v: Bytes)
    requires Valid(s) && b !in View(s)
    ensures Valid(PutStep(s, b, v)) && View(DeleteStep(PutStep(s, b, v), b, false).0) == View(s)
  {
    PutRefines(s, b, v);
    DeleteRefines(PutStep(s, b, v), b, false);
    WithoutNew(View(s), b, v);
  }

  lemma WithoutNew(m: imap<Bytes, Bytes>, b: Bytes, v: Bytes)
    requires b !in m
    ensures MapStep(m[b := v], OpDelete(b)) == m
  {
  }

  lemma UndoneSteps(s: State, b: Bytes, v: Bytes, n: Node, r: DelResult)
    requires Valid(s) && Valid(PutStep(s, b, v)) && Terminated(Hex(b))
    requires Insert(s.db, s.root, Hex(b), v, false) == Some(n) && WF(LinkOf(n), false) && Sound(n, s.db)
    requires Delete(s.db, n, Hex(b), false, false) == r && r.Removed?
    ensures DeleteStep(PutStep(s, b, v), b, false).0 == State(r.node, s.db)
  {
    assert PutStep(s, b, v) == State(n, s.db);
  }

  /** In a canonical trie a new key, put and deleted again, leaves the map as it was, and leaves the trie as it was
      exactly if the trie had room for the key. */
  lemma DeleteUndoesPut(s: State, b: Bytes, v: Bytes)
    requires Valid(s) && Shape(LinkOf(s.root), true) && b !in View(s)
    ensures Valid(PutStep(s, b, v)) && View(DeleteStep(PutStep(s, b, v), b, false).0) == View(s)
    ensures LinkOf(DeleteStep(PutStep(s, b, v), b, false).0.root) == LinkOf(s.root) <==>
      Restores(LinkOf(s.root), Hex(b))
  {
    UndoneView(s, b, v);
    HexTerminated(b);
    UndoInsert(s.db, s.root, Hex(b), v, false);
    var n := Insert(s.db, s.root, Hex(b), v, false).value;
    UndoneSteps(s, b, v, n, Delete(s.db, n, Hex(b), false, false));
  }

  lemma LastStep(ops: seq<Op>, op: Op)
    ensures Run(ops + [op]) == Step(Run(ops), op) && MapRun(ops + [op]) == MapStep(MapRun(ops), op)
  {
    assert (ops + [op])[..|ops|] == ops;
  }

  /** The same for the root hash over every history without deletions. */
  lemma UndoneRun(ops: seq<Op>, b: Bytes, v: Bytes)
    requires PutOnly(ops) && b !in MapRun(ops)
    ensures MapRun(ops + [OpPut(b, v)] + [OpDelete(b)]) == MapRun(ops)
    ensures HashStep(Run(ops + [OpPut(b, v)] + [OpDelete(b)]), false).1 == HashStep(Run(ops), false).1 <==>
      Restores(LinkOf(Run(ops).root), Hex(b))
  {
    var s, put := Run(ops), ops + [OpPut(b, v)];
    RunRefines(ops);
    RunShape(ops, true);
    LastStep(ops, OpPut(b, v));
    LastStep(put, OpDelete(b));
    DeleteUndoesPut(s, b, v);
    RunRefines(put + [OpDelete(b)]);
    RootHashes(s, Run(put + [OpDelete(b)]));
  }

  /** Root hashes tell tries apart. */
  lemma RootHashes(s: State, t: State)
    requires Valid(s) && Valid(t)
    ensures HashStep(s, false).1 == HashStep(t, false).1 <==> LinkOf(s.root) == LinkOf(t.root)
  {
    HashRefines(s, false);
    HashRefines(t, false);
  }

  /** Two keys: nothing is left of the second one exactly if the two differ in their first nibble. */
  lemma SecondKeyUndone(a: Bytes, va: Bytes, b: Bytes, vb: Bytes)
    requires a != b
    ensures HashStep(Run([OpPut(a, va)] + [OpPut(b, vb)] + [OpDelete(b)]), false).1 ==
      HashStep(Run([OpPut(a, va)]), false).1
      <==> MatchLen(Hex(a), Hex(b)) == 0
  {
    var once := [OpPut(a, va)];
    assert once[..0] == [] && Run(once) == State(NewLeaf(Hex(a), va), map[]);
    assert MapRun(once) == imap[a := va];
    UndoneRun(once, b, vb);
  }

  /** Two keys that begin with the same nibble: the root hash tells that the second one was there. */
  lemma TraceLeft(v: Bytes)
    ensures HashStep(Run([OpPut([0], v)] + [OpPut([1], v)] + [OpDelete([1])]), false).1 !=
      HashStep(Run([OpPut([0], v)]), false).1
  {
    HexAt([0], 0);
    HexAt([1], 0);
    assert MatchLen(Hex([0]), Hex([1])) > 0;
    SecondKeyUndone([0], v, [1], v);
  }
}
