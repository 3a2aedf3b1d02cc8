/** Tries are determined by their contents when they are canonical; what a delete reports. */
module TrieUnique {
  import opened TrieNodes
  import opened TrieInsert
  import opened TrieDelete
  import opened TrieShape

  /** Every subtree of a trie without empty branches holds a key. */
  lemma {:induction false} Witness(link: Link, ended: bool) returns (key: Nibbles)
    requires WF(link, ended) && Shape(link, false) && link.To?
    ensures KeyOk(key, ended) && Lookup(link, key).Some?
    decreases link
  {
    match link.hash.body
    case LeafEnc(k, _) => key := k;
    case ExtEnc(k, next) =>
      var w := Witness(next, false);
      key := k + w;
      ExtPrepend(k, w);
    case BranchEnc(cs) =>
      var i := SetChild(cs);
      var w := Witness(cs[i], i == TERMINATOR);
      key := [i] + w;
      PrependTerminated(i, w);
      assert key[1..] == w;
  }

  lemma ExtPrepend(k: Nibbles, w: Nibbles)
    requires AllNibbles(k) && Terminated(w)
    ensures Terminated(k + w) && k <= k + w && (k + w)[|k|..] == w
  {
    var key := k + w;
    assert forall i :: |k| <= i < |key| - 1 ==> key[i] == w[..|w| - 1][i - |k|];
  }

  lemma SetChild(cs: seq<Link>) returns (i: nat)
    requires |cs| == NUM_BRANCH_CHILDREN && Shape(To(Digest(BranchEnc(cs))), false)
    ensures i < |cs| && cs[i].To?
  {
    assert HasOther(cs, 0) || IsBranch(cs[0]);
    if HasOther(cs, 0) {
      i :| 0 <= i < |cs| && i != 0 && cs[i].To?;
    } else {
      i := 0;
    }
  }

  /** A canonical branch holds two keys that part at their first nibble. */
  lemma TwoKeys(cs: seq<Link>) returns (a: Nibbles, b: Nibbles)
    requires WF(To(Digest(BranchEnc(cs))), false) && Shape(To(Digest(BranchEnc(cs))), true)
    ensures Terminated(a) && Terminated(b) && a[0] != b[0]
    ensures Lookup(To(Digest(BranchEnc(cs))), a).Some? && Lookup(To(Digest(BranchEnc(cs))), b).Some?
  {
    StrictIsShape(To(Digest(BranchEnc(cs))));
    var i := SetChild(cs);
    assert HasOther(cs, i);
    var j :| 0 <= j < |cs| && j != i && cs[j].To?;
    a := ChildKey(cs, i);
    b := ChildKey(cs, j);
  }

  lemma ChildKey(cs: seq<Link>, i: nat) returns (key: Nibbles)
    requires WF(To(Digest(BranchEnc(cs))), false) && Shape(To(Digest(BranchEnc(cs))), false)
    requires i < |cs| && cs[i].To?
    ensures Terminated(key) && key[0] == i && Lookup(To(Digest(BranchEnc(cs))), key).Some?
  {
    assert WF(cs[i], i == TERMINATOR) && Shape(cs[i], false);
    var w := Witness(cs[i], i == TERMINATOR);
    key := [i] + w;
    PrependTerminated(i, w);
    assert key[1..] == w;
  }

  ghost predicate Agree(a: Link, b: Link, ended: bool) {
    forall key :: KeyOk(key, ended) ==> Lookup(a, key) == Lookup(b, key)
  }

  ghost predicate Canonical(link: Link, ended: bool) {
    WF(link, ended) && Shape(link, true)
  }

  /** A trie with a branch at or just below its root holds two keys, so it is no leaf;
      when it starts with an extension, both keys go through it and part right after it. */
  lemma PartingKeys(link: Link) returns (a: Nibbles, b: Nibbles, at: nat)
    requires Canonical(link, false) && link.To? && !link.hash.body.LeafEnc?
    ensures Terminated(a) && Terminated(b) && Lookup(link, a).Some? && Lookup(link, b).Some?
    ensures at == if link.hash.body.ExtEnc? then |link.hash.body.key| else 0
    ensures at < |a| && at < |b| && a[at] != b[at]
    ensures link.hash.body.ExtEnc? ==> link.hash.body.key <= a && link.hash.body.key <= b
  {
    match link.hash.body
    case ExtEnc(k, next) =>
      var u, w := TwoKeys(next.hash.body.children);
      a, b, at := k + u, k + w, |k|;
      ExtPrepend(k, u);
      ExtPrepend(k, w);
    case BranchEnc(cs) =>
      a, b := TwoKeys(cs);
      at := 0;
  }

  /** In a trie that starts with extension `k`, every key starts with `k`. */
  lemma KeysStart(link: Link, key: Nibbles)
    requires link.To? && link.hash.Digest? && link.hash.body.ExtEnc? && Lookup(link, key).Some?
    ensures link.hash.body.key <= key
  {
  }

  /** Extensions of canonical tries with the same keys carry the same shared nibbles. */
  lemma SameExtension(a: Link, b: Link)
    requires Canonical(a, false) && Canonical(b, false) && Agree(a, b, false)
    requires a.To? && b.To? && a.hash.body.ExtEnc? && !b.hash.body.LeafEnc?
    ensures b.hash.body.ExtEnc? && |b.hash.body.key| >= |a.hash.body.key|
    ensures a.hash.body.key <= b.hash.body.key
  {
    var u, w, at := PartingKeys(b);
    assert Lookup(a, u).Some? && Lookup(a, w).Some?;
    KeysStart(a, u);
    KeysStart(a, w);
    var k := a.hash.body.key;
    if at < |k| {
      assert false;
    }
    var k' := b.hash.body.key;
    assert u[..|k'|] == k' && u[..|k|] == k;
    assert k'[..|k|] == k;
  }

  lemma AgreeBelowExt(k: Nibbles, a: Link, b: Link)
    requires AllNibbles(k) && Agree(To(Digest(ExtEnc(k, a))), To(Digest(ExtEnc(k, b))), false)
    ensures Agree(a, b, false)
  {
    forall key | KeyOk(key, false) ensures Lookup(a, key) == Lookup(b, key) {
      ExtPrepend(k, key);
      assert Lookup(To(Digest(ExtEnc(k, a))), k + key) == Lookup(a, key);
      assert Lookup(To(Digest(ExtEnc(k, b))), k + key) == Lookup(b, key);
    }
  }

  lemma AgreeBelowBranch(cs: seq<Link>, ds: seq<Link>, i: nat)
    requires |cs| == |ds| == NUM_BRANCH_CHILDREN && i <= TERMINATOR
    requires Agree(To(Digest(BranchEnc(cs))), To(Digest(BranchEnc(ds))), false)
    ensures Agree(cs[i], ds[i], i == TERMINATOR)
  {
    forall key | KeyOk(key, i == TERMINATOR) ensures Lookup(cs[i], key) == Lookup(ds[i], key) {
      PrependTerminated(i, key);
      var long := [i] + key;
      assert long[1..] == key;
      assert Lookup(To(Digest(BranchEnc(cs))), long) == Lookup(cs[i], key);
      assert Lookup(To(Digest(BranchEnc(ds))), long) == Lookup(ds[i], key);
    }
  }

  /** The leaf case: one key in `a`, so `b` is the same leaf. */
  lemma LeafUnique(a: Link, b: Link, ended: bool)
    requires Canonical(a, ended) && Canonical(b, ended) && Agree(a, b, ended) && a.To? && b.To?
    requires a.hash.body.LeafEnc?
    ensures a == b
  {
    var k := a.hash.body.key;
    if b.hash.body.LeafEnc? {
      assert Lookup(b, b.hash.body.key).Some?;
      assert Lookup(a, b.hash.body.key).Some?;
    } else {
      var u, w, at := PartingKeys(b);
      assert false;
    }
  }

  /** Two canonical tries with the same contents are the same trie, hence have the same root hash. */
  lemma {:induction false} CanonicalUnique(a: Link, b: Link, ended: bool)
    requires Canonical(a, ended) && Canonical(b, ended) && Agree(a, b, ended)
    ensures a == b
    decreases a
  {
    if a.NoLink? || b.NoLink? {
      if a.To? { StrictIsShape(a); var w := Witness(a, ended); }
      if b.To? { StrictIsShape(b); var w := Witness(b, ended); }
    } else if a.hash.body.LeafEnc? {
      LeafUnique(a, b, ended);
    } else if b.hash.body.LeafEnc? {
      LeafUnique(b, a, ended);
    } else if a.hash.body.ExtEnc? || b.hash.body.ExtEnc? {
      if a.hash.body.ExtEnc? { SameExtension(a, b); }
      SameExtension(b, a);
      assert a.hash.body.key == b.hash.body.key;
      AgreeBelowExt(a.hash.body.key, a.hash.body.next, b.hash.body.next);
      CanonicalUnique(a.hash.body.next, b.hash.body.next, false);
    } else {
      var cs, ds := a.hash.body.children, b.hash.body.children;
      forall i | 0 <= i < |cs| ensures cs[i] == ds[i] {
        AgreeBelowBranch(cs, ds, i);
        assert Canonical(cs[i], i == TERMINATOR) && Canonical(ds[i], i == TERMINATOR);
        CanonicalUnique(cs[i], ds[i], i == TERMINATOR);
      }
      assert cs == ds;
    }
  }

  // ---------- what a delete reports ----------

  /** Some node lies at or below the prefix. */
  ghost predicate Under(link: Link, prefix: Nibbles)
    decreases link
  {
    link.To? && link.hash.Digest? && (prefix == [] ||
    match link.hash.body
    case LeafEnc(k, _) => prefix <= k
    case ExtEnc(k, next) => prefix <= k || (k <= prefix && Under(next, prefix[|k|..]))
    case BranchEnc(cs) => prefix[0] < |cs| && Under(cs[prefix[0]], prefix[1..]))
  }

  ghost predicate Matches(link: Link, key: Nibbles, descendant: bool) {
    if descendant then Under(link, key) else Lookup(link, key).Some?
  }

  lemma LeafMatches(db: Db, node: Node, key: Nibbles, descendant: bool, ended: bool)
    requires WF(LinkOf(node), ended) && DelKeyOk(key, descendant, ended) && Sound(node, db) && node.Leaf?
    ensures Delete(db, node, key, descendant, ended).Removed? <==> Matches(LinkOf(node), key, descendant)
  {
    var k := node.key;
    var m := MatchLen(key, k);
    if descendant {
      if m == |k| { assert false; }
      if key <= k { assert m == |key| by { if m < |key| { assert false; } } }
      if m == |key| { assert k[..m] == key; }
    } else {
      LeafKeysPart(key, k, ended);
      LeafKeysPart(k, key, ended);
      MatchSym(k, key);
    }
  }

  lemma ExtMatches(k: Nibbles, key: Nibbles)
    ensures MatchLen(key, k) == |key| <==> key <= k
    ensures MatchLen(key, k) == |k| <==> k <= key
  {
    var m := MatchLen(key, k);
    if m == |key| { assert k[..m] == key; }
    if m == |k| { assert key[..m] == k; }
    if key <= k && m < |key| { assert false; }
    if k <= key && m < |k| { assert false; }
  }

  lemma MatchesInChild(cached: Hash, st: Status, cs: seq<Node>, key: Nibbles, descendant: bool)
    requires key != [] && key[0] < |cs|
    ensures Matches(LinkOf(Branch(cached, st, cs)), key, descendant) <==>
      Matches(LinkOf(cs[key[0]]), key[1..], descendant)
  {
    if descendant {
      assert Under(LinkOf(Branch(cached, st, cs)), key) == Under(Links(cs)[key[0]], key[1..]);
    } else {
      BranchLookup(cached, st, cs, key);
    }
  }

  lemma BranchMatches(db: Db, node: Node, key: Nibbles, descendant: bool)
    requires WF(LinkOf(node), false) && DelKeyOk(key, descendant, false) && Sound(node, db) && node.Branch?
    requires |node.children| == NUM_BRANCH_CHILDREN && key[0] <= TERMINATOR
    requires WF(LinkOf(node.children[key[0]]), key[0] == TERMINATOR)
    requires GoodResult(Delete(db, node, key, descendant, false), db, false)
    requires (descendant && |key| == 1) ||
      (DelKeyOk(key[1..], descendant, key[0] == TERMINATOR) &&
       GoodResult(Delete(db, node.children[key[0]], key[1..], descendant, key[0] == TERMINATOR),
                  db, key[0] == TERMINATOR) &&
       (Delete(db, node.children[key[0]], key[1..], descendant, key[0] == TERMINATOR).Removed? <==>
        Matches(LinkOf(node.children[key[0]]), key[1..], descendant)))
    ensures Delete(db, node, key, descendant, false).Removed? <==> Matches(LinkOf(node), key, descendant)
  {
    assert Matches(LinkOf(node), key, descendant) <==> Matches(LinkOf(node.children[key[0]]), key[1..], descendant) by {
      MatchesInChild(node.cached, node.status, node.children, key, descendant);
    }
    if |key| == 1 { assert key[1..] == []; }
  }

  /** Deleting a key reports whether it was stored; deleting a prefix reports whether the trie has a node
      at or below it. */
  lemma {:induction false} DeleteReports(db: Db, node: Node, key: Nibbles, descendant: bool, ended: bool)
    requires WF(LinkOf(node), ended) && DelKeyOk(key, descendant, ended) && Sound(node, db)
    ensures Delete(db, node, key, descendant, ended).Removed? <==> Matches(LinkOf(node), key, descendant)
    decreases LinkOf(node), node.HashRef?
  {
    match node
    case Nil =>
    case HashRef(h) =>
      DecodeSound(h, db);
      DeleteReports(db, LoadNode(db, h).value, key, descendant, ended);
    case Leaf(_, _, _, _) =>
      LeafMatches(db, node, key, descendant, ended);
    case Ext(_, _, k, next) =>
      ExtMatches(k, key);
      if k <= key && (descendant ==> |k| < |key|) {
        DelThroughExt(k, key, descendant);
        DeleteReports(db, next, key[|k|..], descendant, false);
        DeleteKeeps(db, next, key[|k|..], descendant, false);
      }
    case Branch(cached, st, cs) =>
      BranchShape(cached, st, cs, db);
      DeleteKeeps(db, node, key, descendant, ended);
      if !descendant || |key| != 1 {
        DelThroughBranch(key, descendant);
        DeleteKeeps(db, cs[key[0]], key[1..], descendant, key[0] == TERMINATOR);
        DeleteReports(db, cs[key[0]], key[1..], descendant, key[0] == TERMINATOR);
      }
      BranchMatches(db, node, key, descendant);
  }

  /** In a trie without empty branches a node below the prefix means a key with the prefix. */
  lemma {:induction false} UnderHasKey(link: Link, prefix: Nibbles) returns (key: Nibbles)
    requires WF(link, false) && Shape(link, false) && AllNibbles(prefix) && Under(link, prefix)
    ensures Terminated(key) && prefix <= key && Lookup(link, key).Some?
    decreases link
  {
    if prefix == [] {
      key := Witness(link, false);
    } else {
      match link.hash.body
      case LeafEnc(k, _) => key := k;
      case ExtEnc(k, next) =>
        var w: Nibbles;
        if prefix <= k {
          w := Witness(next, false);
        } else {
          w := UnderHasKey(next, prefix[|k|..]);
          assert prefix == k + prefix[|k|..];
        }
        key := k + w;
        ExtPrepend(k, w);
      case BranchEnc(cs) =>
        assert Shape(cs[prefix[0]], false) && WF(cs[prefix[0]], false);
        var w := UnderHasKey(cs[prefix[0]], prefix[1..]);
        key := [prefix[0]] + w;
        PrependTerminated(prefix[0], w);
    }
  }

  lemma {:induction false} KeyIsUnder(link: Link, prefix: Nibbles, key: Nibbles)
    requires Lookup(link, key).Some? && prefix <= key
    ensures Under(link, prefix)
    decreases link
  {
    if prefix != [] {
      match link.hash.body
      case LeafEnc(k, _) =>
      case ExtEnc(k, next) =>
        if |prefix| <= |k| {
          assert k == key[..|k|] && prefix == key[..|prefix|];
          assert prefix == k[..|prefix|];
        } else {
          assert k == prefix[..|k|];
          KeyIsUnder(next, prefix[|k|..], key[|k|..]);
        }
      case BranchEnc(cs) =>
        KeyIsUnder(cs[prefix[0]], prefix[1..], key[1..]);
    }
  }
}
