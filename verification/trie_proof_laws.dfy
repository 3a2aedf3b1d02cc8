/** What proofs establish: every proof is sound, and exactly which keys a generated proof works for. */
module TrieProofLaws {
  import opened Options
  import opened TrieNodes
  import opened TrieKeys
  import opened TrieInsert
  import opened TrieGet
  import opened TrieDelete
  import opened TrieShape
  import opened TrieUnique
  import opened TrieProof
  import opened Trie

  /** The search uses the key up before it reaches the node it leads to. */
  ghost predicate AtTerminator(link: Link, key: Nibbles)
    decreases link
  {
    link.To? && link.hash.Digest? && (key == [] ||
    match link.hash.body
    case LeafEnc(_, _) => false
    case ExtEnc(k, next) => k <= key && AtTerminator(next, key[|k|..])
    case BranchEnc(cs) => key[0] < |cs| && AtTerminator(cs[key[0]], key[1..]))
  }

  /** The search ends at a leaf that holds another key. */
  ghost predicate EndsAtOtherLeaf(link: Link, key: Nibbles)
    decreases link
  {
    link.To? && link.hash.Digest? && key != [] &&
    match link.hash.body
    case LeafEnc(k, _) => k != key
    case ExtEnc(k, next) => k <= key && EndsAtOtherLeaf(next, key[|k|..])
    case BranchEnc(cs) => key[0] < |cs| && EndsAtOtherLeaf(cs[key[0]], key[1..])
  }

  // ---------- any proof is sound ----------

  /** A verdict that is right: a value is the stored one, and absence is reported only of keys that are absent or
      whose terminator a branch has consumed. */
  ghost predicate Right(v: Verdict, link: Link, key: Nibbles) {
    match v
    case BadProof => true
    case Found(x) => Lookup(link, key) == Some(x)
    case Absent => Lookup(link, key) == None || AtTerminator(link, key)
  }

  lemma SoundLeaf(hash: Hash, key: Nibbles, proof: Db, k: Nibbles, v: Bytes)
    requires WF(To(hash), false) && Terminated(key) && Parses(proof, hash) && hash == Digest(proof[hash].enc)
    requires hash.body == LeafEnc(k, v)
    ensures Right(Verify(hash, key, proof), To(hash), key)
  {
    LeafKeysPart(k, key, false);
    if k <= key { PrefixMatches(k, key); }
  }

  lemma SoundExt(hash: Hash, key: Nibbles, proof: Db, k: Nibbles, next: Link)
    requires WF(To(hash), false) && Terminated(key) && Parses(proof, hash) && hash == Digest(proof[hash].enc)
    requires hash.body == ExtEnc(k, next)
    requires k <= key ==> next.To? && Right(Verify(next.hash, key[|k|..], proof), next, key[|k|..])
    ensures Right(Verify(hash, key, proof), To(hash), key)
  {
    if k <= key { ThroughExt(k, key); }
  }

  lemma SoundBranch(hash: Hash, key: Nibbles, proof: Db, cs: seq<Link>)
    requires WF(To(hash), false) && Terminated(key) && Parses(proof, hash) && hash == Digest(proof[hash].enc)
    requires hash.body == BranchEnc(cs) && key[0] < |cs| && WF(cs[key[0]], key[0] == TERMINATOR)
    requires var c := cs[key[0]]; |key| > 1 && c.To? ==> Right(Verify(c.hash, key[1..], proof), c, key[1..])
    ensures Right(Verify(hash, key, proof), To(hash), key)
  {
    if |key| == 1 { assert key[1..] == []; }
  }

  /** Whatever the proof map holds, a value that VerifyProof returns is the stored one, and absence is
      reported only of keys that are absent or whose terminator a branch has consumed. */
  lemma {:induction false} VerifySound(hash: Hash, key: Nibbles, proof: Db)
    requires WF(To(hash), false) && Terminated(key)
    ensures Right(Verify(hash, key, proof), To(hash), key)
    decreases hash
  {
    if Parses(proof, hash) && hash == Digest(proof[hash].enc) {
      match hash.body
      case LeafEnc(k, v) => SoundLeaf(hash, key, proof, k, v);
      case ExtEnc(k, next) =>
        if k <= key {
          ThroughExt(k, key);
          VerifySound(next.hash, key[|k|..], proof);
        }
        SoundExt(hash, key, proof, k, next);
      case BranchEnc(cs) =>
        CutKey(key, 0);
        assert WF(cs[key[0]], key[0] == TERMINATOR);
        if |key| > 1 && cs[key[0]].To? {
          assert key[0] != TERMINATOR;
          VerifySound(cs[key[0]].hash, key[1..], proof);
        }
        SoundBranch(hash, key, proof, cs);
    }
  }

  // ---------- generated proofs ----------

  /** The answer of VerifyProof on a generated proof, read off the trie. */
  ghost function Expected(link: Link, key: Nibbles): Verdict {
    if EndsAtOtherLeaf(link, key) then BadProof
    else if Lookup(link, key).None? || AtTerminator(link, key) then Absent
    else Found(Lookup(link, key).value)
  }

  /** `proof` holds the generated proof of `key` below `link`, and otherwise only nodes above `link`. */
  ghost predicate HoldsProof(proof: Db, link: Link, key: Nibbles) {
    && link.To? && Honest(proof)
    && (forall h :: h in ProofMap(link, key) ==> h in proof)
    && (forall h :: h in proof ==> h in ProofMap(link, key) || link.hash < h)
  }

  lemma HoldsBelow(proof: Db, link: Link, key: Nibbles, next: Link, rest: Nibbles)
    requires HoldsProof(proof, link, key) && next.To? && next.hash < link.hash
    requires forall h :: h in ProofMap(link, key) <==> h == link.hash || h in ProofMap(next, rest)
    ensures HoldsProof(proof, next, rest)
  {
  }

  lemma GeneratedLeaf(link: Link, key: Nibbles, proof: Db)
    requires WF(link, false) && Terminated(key) && HoldsProof(proof, link, key) && link.hash.body.LeafEnc?
    ensures Verify(link.hash, key, proof) == Expected(link, key)
  {
    var k := link.hash.body.key;
    LeafKeysPart(k, key, false);
    if k <= key {
      PrefixMatches(k, key);
      assert link.hash in ProofMap(link, key);
    }
  }

  /** The verdict below an extension is the verdict at it. */
  lemma GeneratedExt(link: Link, key: Nibbles, proof: Db, k: Nibbles, next: Link)
    requires WF(link, false) && Terminated(key) && HoldsProof(proof, link, key) && link.hash.body == ExtEnc(k, next)
    requires k <= key ==> next.To? && Verify(next.hash, key[|k|..], proof) == Expected(next, key[|k|..])
    ensures Verify(link.hash, key, proof) == Expected(link, key)
  {
    assert link.hash in ProofMap(link, key);
    if k <= key { ThroughExt(k, key); }
  }

  /** The same for a branch: the search ends with the key, in an empty slot, or goes on in the child. */
  lemma GeneratedBranch(link: Link, key: Nibbles, proof: Db, cs: seq<Link>)
    requires WF(link, false) && Terminated(key) && HoldsProof(proof, link, key) && link.hash.body == BranchEnc(cs)
    requires key[0] < |cs| && WF(cs[key[0]], key[0] == TERMINATOR)
    requires var c := cs[key[0]];
      |key| > 1 && c.To? ==> Verify(c.hash, key[1..], proof) == Expected(c, key[1..])
    ensures Verify(link.hash, key, proof) == Expected(link, key)
  {
    assert link.hash in ProofMap(link, key);
    var c := cs[key[0]];
    if |key| == 1 {
      assert key[1..] == [] && !EndsAtOtherLeaf(c, key[1..]);
      assert if c.To? then AtTerminator(c, key[1..]) else Lookup(c, key[1..]).None?;
      assert !EndsAtOtherLeaf(link, key) && (Lookup(link, key).None? || AtTerminator(link, key));
    } else if !c.To? {
      assert !EndsAtOtherLeaf(c, key[1..]) && Lookup(c, key[1..]).None?;
      assert !EndsAtOtherLeaf(link, key) && Lookup(link, key).None?;
    }
  }

  lemma {:induction false} VerifyGenerated(link: Link, key: Nibbles, proof: Db)
    requires WF(link, false) && Terminated(key) && HoldsProof(proof, link, key)
    ensures Verify(link.hash, key, proof) == Expected(link, key)
    decreases link
  {
    match link.hash.body
    case LeafEnc(_, _) => GeneratedLeaf(link, key, proof);
    case ExtEnc(k, next) =>
      if k <= key {
        ThroughExt(k, key);
        assert next.hash < link.hash;
        HoldsBelow(proof, link, key, next, key[|k|..]);
        VerifyGenerated(next, key[|k|..], proof);
      }
      GeneratedExt(link, key, proof, k, next);
    case BranchEnc(cs) =>
      CutKey(key, 0);
      var c := cs[key[0]];
      assert WF(c, key[0] == TERMINATOR);
      if |key| > 1 && c.To? {
        assert key[0] != TERMINATOR;
        assert c < link.hash.body;
        HoldsBelow(proof, link, key, c, key[1..]);
        VerifyGenerated(c, key[1..], proof);
      }
      GeneratedBranch(link, key, proof, cs);
  }

  lemma {:induction false} ProofMapHonest(link: Link, key: Nibbles)
    ensures Honest(ProofMap(link, key))
    decreases link
  {
    if |key| > 0 && link.To? && link.hash.Digest? {
      match link.hash.body
      case LeafEnc(_, _) =>
      case ExtEnc(k, next) => if k <= key { ProofMapHonest(next, key[|k|..]); }
      case BranchEnc(cs) => if key[0] < |cs| { ProofMapHonest(cs[key[0]], key[1..]); }
    }
  }

  /** Round trip: VerifyProof on the proof that GetProof made, for every valid trie and every key. */
  lemma ProofRoundTrip(s: State, key: Bytes)
    requires Valid(s)
    ensures var hash := HashStep(s, false).1;
      Verify(hash, Hex(key), ProofMap(LinkOf(s.root), Hex(key))) ==
      if s.root.Nil? then BadProof else Expected(LinkOf(s.root), Hex(key))
  {
    HexTerminated(key);
    HashRefines(s, false);
    if !s.root.Nil? {
      ProofMapHonest(LinkOf(s.root), Hex(key));
      VerifyGenerated(LinkOf(s.root), Hex(key), ProofMap(LinkOf(s.root), Hex(key)));
    }
  }

  // ---------- when a stored key cannot be proved ----------

  /** Another stored key that extends this one. */
  ghost predicate Extends(link: Link, key: Nibbles, other: Nibbles) {
    |key| > 0 && Terminated(other) && other != key && key[..|key| - 1] <= other && Lookup(link, other).Some?
  }

  lemma ExtendsAboveExt(k: Nibbles, next: Link, key: Nibbles, w: Nibbles)
    requires AllNibbles(k) && k <= key && |k| < |key| && Extends(next, key[|k|..], w)
    ensures Extends(To(Digest(ExtEnc(k, next))), key, k + w)
  {
    ExtPrepend(k, w);
    assert key == k + key[|k|..];
    assert key[..|key| - 1] == k + key[|k|..][..|key| - |k| - 1];
  }

  lemma ExtendsAboveBranch(cs: seq<Link>, key: Nibbles, w: Nibbles)
    requires |key| > 1 && key[0] < |cs| && key[0] < TERMINATOR && Extends(cs[key[0]], key[1..], w)
    ensures Extends(To(Digest(BranchEnc(cs))), key, [key[0]] + w)
  {
    PrependTerminated(key[0], w);
    assert ([key[0]] + w)[1..] == w;
    assert key[..|key| - 1] == [key[0]] + key[1..][..|key| - 2];
  }

  lemma {:induction false} ExtendingKey(link: Link, key: Nibbles) returns (other: Nibbles)
    requires Canonical(link, false) && Terminated(key) && AtTerminator(link, key)
    ensures Extends(link, key, other)
    decreases link
  {
    match link.hash.body
    case LeafEnc(_, _) => assert false;
    case ExtEnc(k, next) =>
      ThroughExt(k, key);
      var w := ExtendingKey(next, key[|k|..]);
      ExtendsAboveExt(k, next, key, w);
      other := k + w;
    case BranchEnc(cs) =>
      CutKey(key, 0);
      assert WF(cs[key[0]], key[0] == TERMINATOR) && Shape(cs[key[0]], true);
      if |key| == 1 {
        assert HasOther(cs, TERMINATOR);
        var j :| 0 <= j < |cs| && j != TERMINATOR && cs[j].To?;
        StrictIsShape(link);
        other := ChildKey(cs, j);
      } else {
        assert key[0] != TERMINATOR;
        var w := ExtendingKey(cs[key[0]], key[1..]);
        ExtendsAboveBranch(cs, key, w);
        other := [key[0]] + w;
      }
  }

  lemma CutExtension(key: Nibbles, other: Nibbles, m: nat)
    requires m < |key| && key[..|key| - 1] <= other && m <= |other|
    ensures key[m..][..|key| - m - 1] <= other[m..]
    ensures m > 0 && |key| > 1 ==> other[0] == key[0]
    ensures key[..m] == other[..m]
  {
    var front := key[..|key| - 1];
    assert other[..|front|] == front;
    assert key[m..][..|key| - m - 1] == front[m..] == other[m..][..|front| - m];
    assert key[..m] == front[..m] == other[..m];
  }

  /** A stored key that another stored key extends has its terminator consumed by a branch. */
  lemma {:induction false} ExtendedIsAtTerminator(link: Link, key: Nibbles, other: Nibbles)
    requires WF(link, false) && Terminated(key) && Terminated(other)
    requires Lookup(link, key).Some? && Lookup(link, other).Some? && other != key && key[..|key| - 1] <= other
    ensures AtTerminator(link, key)
    decreases link
  {
    match link.hash.body
    case LeafEnc(_, _) =>
    case ExtEnc(k, next) =>
      ThroughExt(k, key);
      ThroughExt(k, other);
      CutExtension(key, other, |k|);
      ExtendedIsAtTerminator(next, key[|k|..], other[|k|..]);
    case BranchEnc(cs) =>
      CutKey(key, 0);
      CutKey(other, 0);
      assert WF(cs[key[0]], key[0] == TERMINATOR);
      if |key| > 1 {
        assert key[0] != TERMINATOR;
        CutExtension(key, other, 1);
        SplitEq(key, 0, other);
        ExtendedIsAtTerminator(cs[key[0]], key[1..], other[1..]);
      }
  }

  /** In a trie built without deletions, the proof of a stored key fails exactly when another stored
      key extends it: then VerifyProof reports the key absent. */
  lemma StoredKeyProvable(s: State, key: Bytes)
    requires Valid(s) && Shape(LinkOf(s.root), true) && key in View(s)
    ensures var verdict := Verify(HashStep(s, false).1, Hex(key), ProofMap(LinkOf(s.root), Hex(key)));
      && (verdict == Found(View(s)[key]) <==> !exists k :: k in View(s) && k != key && key <= k)
      && (verdict == Found(View(s)[key]) || verdict == Absent)
  {
    HexTerminated(key);
    ProofRoundTrip(s, key);
    StoredEndsWell(LinkOf(s.root), Hex(key));
    AtTerminatorMeans(s, key);
  }

  lemma AtTerminatorMeans(s: State, key: Bytes)
    requires Valid(s) && Shape(LinkOf(s.root), true) && key in View(s)
    ensures AtTerminator(LinkOf(s.root), Hex(key)) <==> exists k :: k in View(s) && k != key && key <= k
  {
    HexTerminated(key);
    var link, hex := LinkOf(s.root), Hex(key);
    if AtTerminator(link, hex) {
      var other := ExtendingKey(link, hex);
      var k := Unhex(other);
      HexPrefix(key, k);
      assert k in View(s) && k != key && key <= k;
    }
    forall k | k in View(s) && k != key && key <= k ensures AtTerminator(link, hex) {
      HexTerminated(k);
      HexPrefix(key, k);
      if Hex(k) == hex { HexInjective(k, key); }
      ExtendedIsAtTerminator(link, hex, Hex(k));
    }
  }

  lemma {:induction false} StoredEndsWell(link: Link, key: Nibbles)
    requires Lookup(link, key).Some?
    ensures !EndsAtOtherLeaf(link, key)
    decreases link
  {
    match link.hash.body
    case LeafEnc(_, _) =>
    case ExtEnc(k, next) => StoredEndsWell(next, key[|k|..]);
    case BranchEnc(cs) => StoredEndsWell(cs[key[0]], key[1..]);
  }

  /** The generated proof of a stored key verifies to its value, unless a branch consumed its terminator. */
  lemma StoredProof(s: State, key: Bytes)
    requires Valid(s) && key in View(s) && !AtTerminator(LinkOf(s.root), Hex(key))
    ensures Verify(HashStep(s, false).1, Hex(key), ProofMap(LinkOf(s.root), Hex(key))) == Found(View(s)[key])
  {
    StoredEndsWell(LinkOf(s.root), Hex(key));
    ProofRoundTrip(s, key);
  }

  /** The proof of an absent key verifies exactly when the search does not end at another key's leaf
      and the trie is not empty. */
  lemma AbsentKeyProvable(s: State, key: Bytes)
    requires Valid(s) && key !in View(s)
    ensures var verdict := Verify(HashStep(s, false).1, Hex(key), ProofMap(LinkOf(s.root), Hex(key)));
      && (verdict == Absent <==> !s.root.Nil? && !EndsAtOtherLeaf(LinkOf(s.root), Hex(key)))
      && (verdict == Absent || verdict == BadProof)
  {
    ProofRoundTrip(s, key);
  }
}
