/** Proofs of absent keys, read off the stored keys: which of them come nearest. */
module TrieNearest {
  import opened TrieNodes
  import opened TrieKeys
  import opened TrieInsert
  import opened TrieDelete
  import opened TrieShape
  import opened TrieUnique
  import opened TrieProof
  import opened TrieProofLaws
  import opened Trie

  // ---------- common prefixes ----------

  lemma {:induction false} MatchPrepend(p: Nibbles, a: Nibbles, b: Nibbles)
    ensures MatchLen(p + a, p + b) == |p| + MatchLen(a, b)
  {
    if p == [] {
      assert p + a == a && p + b == b;
    } else {
      assert (p + a)[1..] == p[1..] + a && (p + b)[1..] == p[1..] + b;
      MatchPrepend(p[1..], a, b);
    }
  }

  lemma {:induction false} MatchStops(p: Nibbles, x: Nibbles, key: Nibbles)
    requires MatchLen(p, key) < |p|
    ensures MatchLen(p + x, key) == MatchLen(p, key)
  {
    if key != [] && p[0] == key[0] {
      assert (p + x)[1..] == p[1..] + x;
      MatchStops(p[1..], x, key[1..]);
    }
  }

  ghost predicate Stored(link: Link, k: Nibbles) {
    Terminated(k) && Lookup(link, k).Some?
  }

  /** Of the stored keys, k has a longer prefix in common with the key than any other. */
  ghost predicate Alone(link: Link, key: Nibbles, k: Nibbles) {
    Stored(link, k) && forall o {:trigger Stored(link, o)} ::
      Stored(link, o) && o != k ==> MatchLen(o, key) < MatchLen(k, key)
  }

  // ---------- keys below an extension and below a branch ----------

  lemma BelowExt(k: Nibbles, next: Link, o: Nibbles)
    requires AllNibbles(k) && Stored(To(Digest(ExtEnc(k, next))), o)
    ensures k <= o && Stored(next, o[|k|..]) && o == k + o[|k|..]
  {
    ThroughExt(k, o);
  }

  lemma AboveExt(k: Nibbles, next: Link, o: Nibbles)
    requires AllNibbles(k) && Stored(next, o)
    ensures Stored(To(Digest(ExtEnc(k, next))), k + o)
  {
    ExtPrepend(k, o);
  }

  lemma BelowBranch(cs: seq<Link>, o: Nibbles)
    requires |cs| == NUM_BRANCH_CHILDREN && Stored(To(Digest(BranchEnc(cs))), o)
    ensures o[0] <= TERMINATOR && o == [o[0]] + o[1..] && Lookup(cs[o[0]], o[1..]).Some?
    ensures o[0] < TERMINATOR ==> Stored(cs[o[0]], o[1..])
  {
    CutKey(o, 0);
  }

  lemma AboveBranch(cs: seq<Link>, i: nat, o: Nibbles)
    requires |cs| == NUM_BRANCH_CHILDREN && i < TERMINATOR && Stored(cs[i], o)
    ensures Stored(To(Digest(BranchEnc(cs))), [i] + o)
  {
    PrependTerminated(i, o);
    assert ([i] + o)[1..] == o;
  }

  // ---------- the nearest key is at the leaf the search ends at ----------

  lemma AloneBelowExt(k: Nibbles, next: Link, key: Nibbles, near: Nibbles)
    requires AllNibbles(k) && k <= key && Alone(To(Digest(ExtEnc(k, next))), key, near)
    ensures |k| <= |near| && Alone(next, key[|k|..], near[|k|..])
  {
    BelowExt(k, next, near);
    assert key == k + key[|k|..];
    MatchPrepend(k, near[|k|..], key[|k|..]);
    forall o | Stored(next, o) && o != near[|k|..] ensures MatchLen(o, key[|k|..]) < MatchLen(near[|k|..], key[|k|..]) {
      AboveExt(k, next, o);
      assert (k + o)[|k|..] == o;
      MatchPrepend(k, o, key[|k|..]);
    }
  }

  lemma AloneAboveExt(k: Nibbles, next: Link, key: Nibbles, near: Nibbles)
    requires AllNibbles(k) && k <= key && Alone(next, key[|k|..], near)
    ensures Alone(To(Digest(ExtEnc(k, next))), key, k + near)
  {
    AboveExt(k, next, near);
    assert key == k + key[|k|..];
    MatchPrepend(k, near, key[|k|..]);
    var link := To(Digest(ExtEnc(k, next)));
    forall o | Stored(link, o) && o != k + near ensures MatchLen(o, key) < MatchLen(k + near, key) {
      BelowExt(k, next, o);
      MatchPrepend(k, o[|k|..], key[|k|..]);
    }
  }

  lemma AloneBelowBranch(cs: seq<Link>, key: Nibbles, near: Nibbles)
    requires |cs| == NUM_BRANCH_CHILDREN && key != [] && key[0] < TERMINATOR && near != [] && near[0] == key[0]
    requires Alone(To(Digest(BranchEnc(cs))), key, near)
    ensures Alone(cs[key[0]], key[1..], near[1..])
  {
    var i := key[0];
    BelowBranch(cs, near);
    assert key == [i] + key[1..];
    MatchPrepend([i], near[1..], key[1..]);
    forall o | Stored(cs[i], o) && o != near[1..] ensures MatchLen(o, key[1..]) < MatchLen(near[1..], key[1..]) {
      AboveBranch(cs, i, o);
      assert ([i] + o)[1..] == o;
      MatchPrepend([i], o, key[1..]);
    }
  }

  lemma AloneAboveBranch(cs: seq<Link>, key: Nibbles, near: Nibbles)
    requires |cs| == NUM_BRANCH_CHILDREN && key != [] && key[0] < TERMINATOR && Alone(cs[key[0]], key[1..], near)
    ensures Alone(To(Digest(BranchEnc(cs))), key, [key[0]] + near)
  {
    var i, link := key[0], To(Digest(BranchEnc(cs)));
    AboveBranch(cs, i, near);
    assert key == [i] + key[1..];
    MatchPrepend([i], near, key[1..]);
    forall o | Stored(link, o) && o != [i] + near ensures MatchLen(o, key) < MatchLen([i] + near, key) {
      BelowBranch(cs, o);
      if o[0] == i { MatchPrepend([i], o[1..], key[1..]); }
    }
  }

  /** Two stored keys with the same common prefix cannot both be behind a third. */
  lemma NotAlone(link: Link, key: Nibbles, near: Nibbles, a: Nibbles, b: Nibbles)
    requires Stored(link, a) && Stored(link, b) && a != b
    requires forall o :: Stored(link, o) ==> MatchLen(o, key) == MatchLen(a, key)
    ensures !Alone(link, key, near)
  {
    if Alone(link, key, near) {
      assert false;
    }
  }

  /** The search ends inside an extension: at least two keys lie behind it, equally near. */
  lemma ExtNotAlone(k: Nibbles, next: Link, key: Nibbles, near: Nibbles)
    requires Canonical(To(Digest(ExtEnc(k, next))), false) && MatchLen(k, key) < |k|
    ensures !Alone(To(Digest(ExtEnc(k, next))), key, near)
  {
    var link := To(Digest(ExtEnc(k, next)));
    var a, b := TwoKeys(next.hash.body.children);
    AboveExt(k, next, a);
    AboveExt(k, next, b);
    assert (k + a)[|k|..] == a && (k + b)[|k|..] == b;
    forall o | Stored(link, o) ensures MatchLen(o, key) == MatchLen(k, key) {
      BelowExt(k, next, o);
      MatchStops(k, o[|k|..], key);
    }
    MatchStops(k, a, key);
    NotAlone(link, key, near, k + a, k + b);
  }

  /** The search ends at a free place of a branch: at least two keys lie beside it, equally near. */
  lemma FreeNotAlone(cs: seq<Link>, key: Nibbles, near: Nibbles)
    requires Canonical(To(Digest(BranchEnc(cs))), false) && key != [] && key[0] < |cs| && cs[key[0]].NoLink?
    ensures !Alone(To(Digest(BranchEnc(cs))), key, near)
  {
    var link := To(Digest(BranchEnc(cs)));
    var a, b := TwoKeys(cs);
    forall o | Stored(link, o) ensures MatchLen(o, key) == 0 {
      BelowBranch(cs, o);
    }
    NotAlone(link, key, near, a, b);
  }

  /** With a child on the way, the nearest key is below it. */
  lemma NearestBelow(cs: seq<Link>, key: Nibbles, near: Nibbles)
    requires Canonical(To(Digest(BranchEnc(cs))), false) && key != [] && key[0] < |cs| && cs[key[0]].To?
    requires Alone(To(Digest(BranchEnc(cs))), key, near)
    ensures near != [] && near[0] == key[0]
  {
    var link := To(Digest(BranchEnc(cs)));
    StrictIsShape(link);
    var x := ChildKey(cs, key[0]);
    assert Stored(link, x) && MatchLen(x, key) >= 1;
    if near[0] != key[0] {
      assert false;
    }
  }

  lemma {:induction false} AloneIsLeaf(link: Link, key: Nibbles, near: Nibbles)
    requires Canonical(link, false) && Terminated(key) && Lookup(link, key).None? && Alone(link, key, near)
    ensures EndsAtOtherLeaf(link, key)
    decreases link
  {
    match link.hash.body
    case LeafEnc(_, _) =>
    case ExtEnc(k, next) =>
      ExtOnPath(k, next, key, near);
      AloneIsLeaf(next, key[|k|..], near[|k|..]);
    case BranchEnc(cs) =>
      BranchAlone(cs, key, near);
      AloneIsLeaf(cs[key[0]], key[1..], near[1..]);
  }

  lemma ExtOnPath(k: Nibbles, next: Link, key: Nibbles, near: Nibbles)
    requires Canonical(To(Digest(ExtEnc(k, next))), false) && Terminated(key)
    requires Alone(To(Digest(ExtEnc(k, next))), key, near)
    ensures k <= key && |k| < |key| && |k| <= |near| && Terminated(key[|k|..])
    ensures Canonical(next, false) && Alone(next, key[|k|..], near[|k|..])
  {
    if !(k <= key) {
      ExtKeysPart(k, key);
      assert MatchLen(k, key) < |k| by { if MatchLen(k, key) == |k| { assert false; } }
      ExtNotAlone(k, next, key, near);
    }
    ThroughExt(k, key);
    AloneBelowExt(k, next, key, near);
  }

  lemma BranchAlone(cs: seq<Link>, key: Nibbles, near: Nibbles)
    requires Canonical(To(Digest(BranchEnc(cs))), false) && Terminated(key)
    requires Alone(To(Digest(BranchEnc(cs))), key, near) && Lookup(To(Digest(BranchEnc(cs))), key).None?
    ensures |key| > 1 && key[0] < |cs| && near != [] && Terminated(key[1..])
    ensures Canonical(cs[key[0]], false) && Alone(cs[key[0]], key[1..], near[1..])
  {
    CutKey(key, 0);
    assert WF(cs[key[0]], key[0] == TERMINATOR) && Shape(cs[key[0]], true);
    if cs[key[0]].NoLink? { FreeNotAlone(cs, key, near); }
    NearestBelow(cs, key, near);
    assert key[0] != TERMINATOR;
    AloneBelowBranch(cs, key, near);
  }

  lemma {:induction false} LeafIsAlone(link: Link, key: Nibbles) returns (near: Nibbles)
    requires WF(link, false) && Terminated(key) && EndsAtOtherLeaf(link, key)
    ensures Alone(link, key, near)
    decreases link
  {
    match link.hash.body
    case LeafEnc(k, _) => near := k;
    case ExtEnc(k, next) =>
      ThroughExt(k, key);
      var n := LeafIsAlone(next, key[|k|..]);
      AloneAboveExt(k, next, key, n);
      near := k + n;
    case BranchEnc(cs) =>
      CutKey(key, 0);
      assert WF(cs[key[0]], key[0] == TERMINATOR);
      assert key[0] != TERMINATOR;
      var n := LeafIsAlone(cs[key[0]], key[1..]);
      AloneAboveBranch(cs, key, n);
      near := [key[0]] + n;
  }

  // ---------- the same for maps ----------

  /** How many nibbles two keys have in common. */
  function Common(a: Bytes, b: Bytes): nat {
    MatchLen(Hex(a), Hex(b))
  }

  /** k is the only key of the map that has so much in common with the key. */
  ghost predicate Nearest(m: imap<Bytes, Bytes>, key: Bytes, k: Bytes) {
    k in m && forall o :: o in m && o != k ==> Common(o, key) < Common(k, key)
  }

  lemma NearestIsAlone(s: State, key: Bytes, k: Bytes)
    requires Valid(s) && Nearest(View(s), key, k)
    ensures Alone(LinkOf(s.root), Hex(key), Hex(k))
  {
    var link := LinkOf(s.root);
    HexTerminated(k);
    forall o | Stored(link, o) && o != Hex(k) ensures MatchLen(o, Hex(key)) < MatchLen(Hex(k), Hex(key)) {
      var x := Unhex(o);
      assert x in View(s) && x != k;
      assert Common(x, key) < Common(k, key);
    }
  }

  lemma AloneIsNearest(s: State, key: Bytes, near: Nibbles) returns (k: Bytes)
    requires Valid(s) && Alone(LinkOf(s.root), Hex(key), near)
    ensures Nearest(View(s), key, k)
  {
    var link := LinkOf(s.root);
    k := Unhex(near);
    forall o | o in View(s) && o != k ensures Common(o, key) < Common(k, key) {
      HexTerminated(o);
      if Hex(o) == Hex(k) { HexInjective(o, k); }
      assert Stored(link, Hex(o));
    }
  }

  lemma OtherLeafMeans(s: State, key: Bytes)
    requires Valid(s) && Shape(LinkOf(s.root), true) && key !in View(s)
    ensures EndsAtOtherLeaf(LinkOf(s.root), Hex(key)) <==> exists k :: Nearest(View(s), key, k)
  {
    HexTerminated(key);
    var link, hex := LinkOf(s.root), Hex(key);
    if EndsAtOtherLeaf(link, hex) {
      var near := LeafIsAlone(link, hex);
      var k := AloneIsNearest(s, key, near);
    }
    forall k | Nearest(View(s), key, k) ensures EndsAtOtherLeaf(link, hex) {
      NearestIsAlone(s, key, k);
      AloneIsLeaf(link, hex, Hex(k));
    }
  }

  lemma EmptyMeans(s: State)
    requires Valid(s) && Shape(LinkOf(s.root), true)
    ensures s.root.Nil? <==> View(s) == imap[]
  {
    if !s.root.Nil? {
      StrictIsShape(LinkOf(s.root));
      var w := Witness(LinkOf(s.root), false);
      var k := Unhex(w);
      assert k in View(s);
    }
  }

  /** In a trie built without deletions, the proof of an absent key is refused exactly when no key is stored, or one
      stored key alone has the longest prefix in common with it. */
  lemma AbsentKeyRefused(s: State, key: Bytes)
    requires Valid(s) && Shape(LinkOf(s.root), true) && key !in View(s)
    ensures Verify(HashStep(s, false).1, Hex(key), ProofMap(LinkOf(s.root), Hex(key))) == BadProof <==>
      View(s) == imap[] || exists k :: Nearest(View(s), key, k)
  {
    AbsentKeyProvable(s, key);
    OtherLeafMeans(s, key);
    EmptyMeans(s);
  }

  // ---------- at an input ----------

  /** The empty key stored beside another key: its own proof verifies as absent. */
  lemma StoredKeyReportedAbsent(v: Bytes, w: Bytes)
    ensures var s := Run([OpPut([], v)] + [OpPut([0], w)]);
      [] in View(s) && Verify(HashStep(s, false).1, Hex([]), ProofMap(LinkOf(s.root), Hex([]))) == Absent
  {
    var once, ops := [OpPut([], v)], [OpPut([], v)] + [OpPut([0], w)];
    assert ops[..1] == once && once[..0] == [];
    RunRefines(ops);
    RunShape(ops, true);
    assert MapRun(ops) == MapRun(once)[[0] := w] && [] in MapRun(once);
    assert [0] in MapRun(ops) && [] <= [0];
    StoredKeyProvable(Run(ops), []);
  }

  /** One stored key: the proof that another key is absent is refused. */
  lemma AbsentKeyIsRefused(v: Bytes)
    ensures var s := Run([OpPut([0], v)]);
      [1] !in View(s) && Verify(HashStep(s, false).1, Hex([1]), ProofMap(LinkOf(s.root), Hex([1]))) == BadProof
  {
    var ops := [OpPut([0], v)];
    RunRefines(ops);
    RunShape(ops, true);
    OneKeyMap(v);
    AbsentKeyRefused(Run(ops), [1]);
  }

  lemma OneKeyMap(v: Bytes)
    ensures [1] !in MapRun([OpPut([0], v)]) && Nearest(MapRun([OpPut([0], v)]), [1], [0])
  {
    var ops := [OpPut([0], v)];
    assert ops[..0] == [];
    assert MapRun(ops) == imap[[0] := v];
  }
}
