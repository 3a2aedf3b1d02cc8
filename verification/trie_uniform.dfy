/** Tries whose keys all have one length: proofs then never stop short of a stored key. */
module TrieUniform {
  import opened TrieNodes
  import opened TrieKeys
  import opened TrieInsert
  import opened TrieDelete
  import opened TrieProof
  import opened TrieProofLaws
  import opened Trie

  /** Every leaf ends `n` nibbles below `link`, and no branch has a child for the terminator. */
  ghost predicate Uniform(link: Link, n: nat)
    decreases link
  {
    link.NoLink? || link.hash.Raw? ||
    match link.hash.body
    case LeafEnc(k, _) => |k| == n
    case ExtEnc(k, next) => |k| < n && Uniform(next, n - |k|)
    case BranchEnc(cs) =>
      n >= 2 && |cs| == NUM_BRANCH_CHILDREN && cs[TERMINATOR].NoLink? &&
      forall i :: 0 <= i < |cs| ==> Uniform(cs[i], n - 1)
  }

  lemma {:induction false} UniformHasNoEnd(link: Link, n: nat, key: Nibbles)
    requires Uniform(link, n) && n > 0 && Terminated(key) && WF(link, false)
    ensures !AtTerminator(link, key)
    decreases link
  {
    if link.To? {
      match link.hash.body
      case LeafEnc(_, _) =>
      case ExtEnc(k, next) =>
        if k <= key {
          ThroughExt(k, key);
          UniformHasNoEnd(next, n - |k|, key[|k|..]);
        }
      case BranchEnc(cs) =>
        CutKey(key, 0);
        assert WF(cs[key[0]], key[0] == TERMINATOR);
        if key[0] != TERMINATOR {
          UniformHasNoEnd(cs[key[0]], n - 1, key[1..]);
        }
    }
  }

  lemma BranchUniform(cached: Hash, st: Status, cs: seq<Node>, n: nat)
    ensures Uniform(LinkOf(Branch(cached, st, cs)), n) <==>
      n >= 2 && |cs| == NUM_BRANCH_CHILDREN && LinkOf(cs[TERMINATOR]).NoLink? &&
      forall i :: 0 <= i < |cs| ==> Uniform(LinkOf(cs[i]), n - 1)
  {
    var links := Links(cs);
    if Uniform(LinkOf(Branch(cached, st, cs)), n) {
      forall i | 0 <= i < |cs| ensures Uniform(LinkOf(cs[i]), n - 1) { assert Uniform(links[i], n - 1); }
    }
  }

  lemma ForkUniform(prefix: Nibbles, i: nat, left: Node, j: nat, right: Node, n: nat)
    requires i < TERMINATOR && j < TERMINATOR && i != j && n >= |prefix| + 2
    requires Uniform(LinkOf(left), n - |prefix| - 1) && Uniform(LinkOf(right), n - |prefix| - 1)
    ensures Uniform(LinkOf(Fork(prefix, i, left, j, right)), n)
  {
    BranchUniform(EMPTY_HASH, Dirty, TwoChildren(i, left, j, right), n - |prefix|);
  }

  lemma KeyInside(key: Nibbles, m: nat)
    requires Terminated(key) && m < |key| - 1
    ensures key[m] < TERMINATOR
  {
    assert key[m] == key[..|key| - 1][m];
  }

  lemma InsertLeafUniform(db: Db, node: Node, key: Nibbles, value: Bytes)
    requires WF(LinkOf(node), false) && Terminated(key) && Sound(node, db) && node.Leaf? && |node.key| == |key|
    ensures Insert(db, node, key, value, false).Some?
    ensures Uniform(LinkOf(Insert(db, node, key, value, false).value), |key|)
  {
    var k := node.key;
    LeafKeysPart(k, key, false);
    var m := MatchLen(k, key);
    if m < |k| {
      CutKey(k, m);
      CutKey(key, m);
      KeyInside(k, m);
      KeyInside(key, m);
      ForkUniform(key[..m], k[m], Leaf(node.cached, Dirty, k[m + 1..], node.value),
                  key[m], NewLeaf(key[m + 1..], value), |key|);
    }
  }

  lemma InsertSplitsExtUniform(db: Db, node: Node, key: Nibbles, value: Bytes)
    requires WF(LinkOf(node), false) && Terminated(key) && Sound(node, db) && node.Ext? && Uniform(LinkOf(node), |key|)
    requires MatchLen(node.key, key) < |node.key|
    ensures Insert(db, node, key, value, false).Some?
    ensures Uniform(LinkOf(Insert(db, node, key, value, false).value), |key|)
  {
    var k := node.key;
    ExtKeysPart(k, key);
    var m := MatchLen(k, key);
    CutKey(key, m);
    KeyInside(key, m);
    var rest := if m != |k| - 1 then Ext(node.cached, Dirty, k[m + 1..], node.next) else node.next;
    ForkUniform(key[..m], k[m], rest, key[m], NewLeaf(key[m + 1..], value), |key|);
  }

  lemma InsertExtUniform(db: Db, node: Node, key: Nibbles, value: Bytes)
    requires WF(LinkOf(node), false) && Terminated(key) && Sound(node, db) && node.Ext? && Uniform(LinkOf(node), |key|)
    requires MatchLen(node.key, key) == |node.key| && Terminated(key[|node.key|..])
    requires var r := Insert(db, node.next, key[|node.key|..], value, false);
      r.Some? && Uniform(LinkOf(r.value), |key| - |node.key|)
    ensures Insert(db, node, key, value, false).Some?
    ensures Uniform(LinkOf(Insert(db, node, key, value, false).value), |key|)
  {
  }

  lemma InsertBranchUniform(db: Db, node: Node, key: Nibbles, value: Bytes)
    requires WF(LinkOf(node), false) && Terminated(key) && Sound(node, db)
    requires node.Branch? && Uniform(LinkOf(node), |key|)
    requires |node.children| == NUM_BRANCH_CHILDREN && key[0] < TERMINATOR
    requires WF(LinkOf(node.children[key[0]]), false) && Terminated(key[1..])
    requires var r := Insert(db, node.children[key[0]], key[1..], value, false);
      r.Some? && Uniform(LinkOf(r.value), |key| - 1)
    ensures Insert(db, node, key, value, false).Some?
    ensures Uniform(LinkOf(Insert(db, node, key, value, false).value), |key|)
  {
    BranchUniform(node.cached, node.status, node.children, |key|);
    var n := Insert(db, node.children[key[0]], key[1..], value, false).value;
    BranchUniform(node.cached, Dirty, node.children[key[0] := n], |key|);
  }

  lemma {:induction false} InsertUniform(db: Db, node: Node, key: Nibbles, value: Bytes)
    requires WF(LinkOf(node), false) && Terminated(key) && Sound(node, db) && Uniform(LinkOf(node), |key|)
    ensures Insert(db, node, key, value, false).Some?
    ensures Uniform(LinkOf(Insert(db, node, key, value, false).value), |key|)
    decreases LinkOf(node), node.HashRef?, 1
  {
    InsertKeeps(db, node, key, value, false);
    match node
    case Nil =>
    case HashRef(h) =>
      DecodeSound(h, db);
      InsertUniform(db, LoadNode(db, h).value, key, value);
    case Leaf(_, _, _, _) => InsertLeafUniform(db, node, key, value);
    case Ext(_, _, k, next) =>
      ExtKeysPart(k, key);
      if MatchLen(k, key) == |k| {
        InsertUniform(db, next, key[|k|..], value);
        InsertExtUniform(db, node, key, value);
      } else {
        InsertSplitsExtUniform(db, node, key, value);
      }
    case Branch(_, _, _) => InsertInChildUniform(db, node, key, value);
  }

  lemma {:induction false} InsertInChildUniform(db: Db, node: Node, key: Nibbles, value: Bytes)
    requires WF(LinkOf(node), false) && Terminated(key) && Sound(node, db) && Uniform(LinkOf(node), |key|)
    requires node.Branch?
    ensures Insert(db, node, key, value, false).Some?
    ensures Uniform(LinkOf(Insert(db, node, key, value, false).value), |key|)
    decreases LinkOf(node), node.HashRef?, 0
  {
    var cs := node.children;
    CutKey(key, 0);
    BranchShape(node.cached, node.status, cs, db);
    BranchUniform(node.cached, node.status, cs, |key|);
    KeyInside(key, 0);
    InsertUniform(db, cs[key[0]], key[1..], value);
    InsertBranchUniform(db, node, key, value);
  }

  lemma CollapseUniform(db: Db, cached: Hash, cs: seq<Node>, n: nat)
    requires Uniform(LinkOf(Branch(cached, Dirty, cs)), n)
    requires forall i :: 0 <= i < |cs| ==> Sound(cs[i], db)
    requires Collapse(db, cached, cs).Removed?
    ensures Uniform(LinkOf(Collapse(db, cached, cs).node), n)
  {
    BranchUniform(cached, Dirty, cs, n);
    if CountSet(cs) == 1 {
      var pos := LastSet(cs);
      if cs[pos].HashRef? { DecodeSound(cs[pos].ref, db); }
      var child := if cs[pos].HashRef? then LoadNode(db, cs[pos].ref).value else cs[pos];
      assert LinkOf(child) == LinkOf(cs[pos]);
    }
  }

  ghost predicate UniformResult(r: DelResult, n: nat) {
    r.Removed? ==> Uniform(LinkOf(r.node), n)
  }

  lemma ReplaceChildUniform(db: Db, node: Node, i: nat, child: Node, n: nat)
    requires node.Branch? && Uniform(LinkOf(node), n) && i < TERMINATOR && Uniform(LinkOf(child), n - 1)
    requires |node.children| == NUM_BRANCH_CHILDREN && Sound(node, db) && Sound(child, db)
    ensures UniformResult(Collapse(db, node.cached, node.children[i := child]), n)
  {
    var cs := node.children[i := child];
    BranchUniform(node.cached, node.status, node.children, n);
    BranchUniform(node.cached, Dirty, cs, n);
    if Collapse(db, node.cached, cs).Removed? { CollapseUniform(db, node.cached, cs, n); }
  }

  lemma DeleteBranchUniform(db: Db, node: Node, key: Nibbles, descendant: bool, n: nat)
    requires WF(LinkOf(node), false) && DelKeyOk(key, descendant, false) && Sound(node, db) && node.Branch?
    requires Uniform(LinkOf(node), n) && |node.children| == NUM_BRANCH_CHILDREN && key[0] <= TERMINATOR
    requires WF(LinkOf(node.children[key[0]]), key[0] == TERMINATOR) && n >= 2
    requires (descendant && |key| == 1) ||
      (DelKeyOk(key[1..], descendant, key[0] == TERMINATOR) &&
       var r := Delete(db, node.children[key[0]], key[1..], descendant, key[0] == TERMINATOR);
       GoodResult(r, db, key[0] == TERMINATOR) && UniformResult(r, n - 1) && (key[0] == TERMINATOR ==> !r.Removed?))
    ensures UniformResult(Delete(db, node, key, descendant, false), n)
  {
    if descendant && |key| == 1 {
      ReplaceChildUniform(db, node, key[0], Nil, n);
    } else {
      var r := Delete(db, node.children[key[0]], key[1..], descendant, key[0] == TERMINATOR);
      if r.Removed? { ReplaceChildUniform(db, node, key[0], r.node, n); }
    }
  }

  lemma DeleteExtUniform(db: Db, node: Node, key: Nibbles, descendant: bool, n: nat)
    requires WF(LinkOf(node), false) && DelKeyOk(key, descendant, false) && Sound(node, db) && node.Ext?
    requires Uniform(LinkOf(node), n)
    requires MatchLen(key, node.key) == |node.key| && (descendant ==> |node.key| < |key|) ==>
      DelKeyOk(key[|node.key|..], descendant, false) &&
      UniformResult(Delete(db, node.next, key[|node.key|..], descendant, false), n - |node.key|)
    ensures UniformResult(Delete(db, node, key, descendant, false), n)
  {
  }

  /** Deletions of any kind keep a trie of one-length keys so. */
  lemma {:induction false} DeleteUniform(db: Db, node: Node, key: Nibbles, descendant: bool, n: nat)
    requires WF(LinkOf(node), false) && DelKeyOk(key, descendant, false) && Sound(node, db) && Uniform(LinkOf(node), n)
    ensures UniformResult(Delete(db, node, key, descendant, false), n)
    decreases LinkOf(node), node.HashRef?, 1
  {
    match node
    case Nil =>
    case HashRef(h) =>
      DecodeSound(h, db);
      DeleteUniform(db, LoadNode(db, h).value, key, descendant, n);
    case Leaf(_, _, _, _) =>
    case Ext(_, _, k, next) =>
      DeleteExtUniform(db, node, key, descendant, n) by {
        if MatchLen(key, k) == |k| && (descendant ==> |k| < |key|) {
          DelThroughExt(k, key, descendant);
          DeleteUniform(db, next, key[|k|..], descendant, n - |k|);
        }
      }
    case Branch(_, _, _) => DeleteInChildUniform(db, node, key, descendant, n);
  }

  lemma {:induction false} DeleteInChildUniform(db: Db, node: Node, key: Nibbles, descendant: bool, n: nat)
    requires WF(LinkOf(node), false) && DelKeyOk(key, descendant, false) && Sound(node, db) && Uniform(LinkOf(node), n)
    requires node.Branch?
    ensures UniformResult(Delete(db, node, key, descendant, false), n)
    decreases LinkOf(node), node.HashRef?, 0
  {
    var cs := node.children;
    BranchShape(node.cached, node.status, cs, db);
    BranchUniform(node.cached, node.status, cs, n);
    if !descendant || |key| != 1 {
      DelThroughBranch(key, descendant);
      DeleteKeeps(db, cs[key[0]], key[1..], descendant, key[0] == TERMINATOR);
      if key[0] < TERMINATOR {
        DeleteUniform(db, cs[key[0]], key[1..], descendant, n - 1);
      } else {
        NoLinkKept(db, cs[key[0]], key[1..], descendant);
      }
    }
    DeleteBranchUniform(db, node, key, descendant, n);
  }

  lemma NoLinkKept(db: Db, node: Node, key: Nibbles, descendant: bool)
    requires LinkOf(node).NoLink? && DelKeyOk(key, descendant, true) && Sound(node, db)
    ensures Delete(db, node, key, descendant, true) == Kept
  {
  }

  // ---------- runs over keys of one length ----------

  ghost predicate PutsOfLength(ops: seq<Op>, len: nat) {
    forall op :: op in ops && op.OpPut? ==> |op.key| == len
  }

  lemma PutUniform(s: State, key: Bytes, value: Bytes)
    requires Valid(s) && Uniform(LinkOf(s.root), 2 * |key| + 1)
    ensures Uniform(LinkOf(PutStep(s, key, value).root), 2 * |key| + 1)
  {
    HexTerminated(key);
    InsertUniform(s.db, s.root, Hex(key), value);
  }

  lemma DeleteStepUniform(s: State, key: Bytes, descendant: bool, n: nat)
    requires Valid(s) && Uniform(LinkOf(s.root), n)
    ensures Uniform(LinkOf(DeleteStep(s, key, descendant).0.root), n)
  {
    HexTerminated(key);
    if !(descendant && key == []) { DeleteUniform(s.db, s.root, DelHex(key, descendant), descendant, n); }
  }

  lemma StepUniform(s: State, op: Op, len: nat)
    requires Valid(s) && Uniform(LinkOf(s.root), 2 * len + 1) && (op.OpPut? ==> |op.key| == len)
    ensures Uniform(LinkOf(Step(s, op).root), 2 * len + 1)
  {
    if op.OpPut? {
      PutUniform(s, op.key, op.value);
    } else if op.OpDelete? || op.OpDeletePrefix? {
      RemovalUniform(s, op, 2 * len + 1);
    } else {
      ReadUniform(s, op, 2 * len + 1);
    }
  }

  lemma ReadUniform(s: State, op: Op, n: nat)
    requires Valid(s) && Uniform(LinkOf(s.root), n) && !op.OpPut? && !op.OpDelete? && !op.OpDeletePrefix?
    ensures Uniform(LinkOf(Step(s, op).root), n)
  {
    StepRefines(s, op);
  }

  lemma RemovalUniform(s: State, op: Op, n: nat)
    requires Valid(s) && Uniform(LinkOf(s.root), n) && (op.OpDelete? || op.OpDeletePrefix?)
    ensures Uniform(LinkOf(Step(s, op).root), n)
  {
    match op
    case OpDelete(k) => DeleteStepUniform(s, k, false, n);
    case OpDeletePrefix(p) => DeleteStepUniform(s, p, true, n);
  }

  lemma {:induction false} RunUniform(ops: seq<Op>, len: nat)
    requires PutsOfLength(ops, len)
    ensures Uniform(LinkOf(Run(ops).root), 2 * len + 1)
  {
    if ops != [] {
      RunUniform(ops[..|ops| - 1], len);
      StepUniform(Run(ops[..|ops| - 1]), ops[|ops| - 1], len);
    }
  }

  lemma UniformNeverEnds(s: State, len: nat, key: Bytes)
    requires Valid(s) && Uniform(LinkOf(s.root), 2 * len + 1)
    ensures !AtTerminator(LinkOf(s.root), Hex(key))
  {
    HexTerminated(key);
    UniformHasNoEnd(LinkOf(s.root), 2 * len + 1, Hex(key));
  }

  /** An error-free verification, of whatever proof map, returns the stored value or reports absence
      of an absent key. */
  lemma UniformSound(s: State, len: nat, key: Bytes, proof: Db)
    requires Valid(s) && Uniform(LinkOf(s.root), 2 * len + 1)
    ensures match Verify(HashStep(s, false).1, Hex(key), proof)
      case BadProof => true
      case Found(v) => key in View(s) && View(s)[key] == v
      case Absent => key !in View(s)
  {
    HexTerminated(key);
    HashRefines(s, false);
    UniformHasNoEnd(LinkOf(s.root), 2 * len + 1, Hex(key));
    if !s.root.Nil? { VerifySound(LinkOf(s.root).hash, Hex(key), proof); }
  }

  /** Proofs over any run whose stored keys have one length, whatever was deleted, committed or reloaded. */
  lemma OneLengthProofs(ops: seq<Op>, len: nat, key: Bytes, proof: Db)
    requires PutsOfLength(ops, len)
    ensures key in MapRun(ops) ==>
      Verify(HashStep(Run(ops), false).1, Hex(key), ProofMap(LinkOf(Run(ops).root), Hex(key))) ==
        Found(MapRun(ops)[key])
    ensures match Verify(HashStep(Run(ops), false).1, Hex(key), proof)
      case BadProof => true
      case Found(v) => key in MapRun(ops) && MapRun(ops)[key] == v
      case Absent => key !in MapRun(ops)
  {
    RunRefines(ops);
    RunUniform(ops, len);
    UniformSound(Run(ops), len, key, proof);
    if key in MapRun(ops) {
      UniformNeverEnds(Run(ops), len, key);
      StoredProof(Run(ops), key);
    }
  }
}
