/** A second crash: recovery does not write down how far it got. */
module SecondCrash {
  import opened CanonicalChain
  import opened ChainWrites
  import opened ChainRecovery
  import opened ChainLog

  // ---------- how far the rewriting got ----------

  /** Of the heights to delete, i up to top are left. */
  ghost predicate Gap(canon: Heights, larger: nat, i: nat, top: nat) {
    larger <= i && forall k: nat :: k >= larger ==> (k in canon <==> i <= k < top)
  }

  /** Above g the chain of `a` is in the map, up to g another one. */
  ghost predicate Laid(headers: Headers, canon: Heights, a: Hash, tip: Hash, g: int) {
    && Tree(headers) && Known(headers, canon) && a in headers && tip in headers && g <= headers[a].height
    && Follows(headers, canon, g, tip)
    && forall k: nat :: g < k <= headers[a].height ==>
         k in canon && k in ChainOf(headers, a) && canon[k] == ChainOf(headers, a)[k]
  }

  /** The record asks to delete from `larger` on and to overwrite from `a` on, and both may have been begun. */
  ghost predicate Partway(headers: Headers, canon: Heights, larger: nat, i: nat, top: nat, a: Hash, tip: Hash, g: int) {
    && Laid(headers, canon, a, tip, g)
    && (larger > 0 ==> headers[a].height < larger && Gap(canon, larger, i, top))
  }

  ghost function Lower(canon: Heights, larger: nat): Heights {
    if larger > 0 then Below(canon, larger) else canon
  }

  /** What the rewriting is to end in. */
  ghost function Target(headers: Headers, canon: Heights, larger: nat, a: Hash): Heights
    requires Tree(headers) && a in headers
  {
    Lower(canon, larger) + ChainOf(headers, a)
  }

  predicate InPlace(headers: Headers, canon: Heights, h: Hash) {
    h in headers && headers[h].height in canon && canon[headers[h].height] == h
  }

  /** Nothing is left to delete, or the second height to delete is still there. */
  ghost predicate DeletionFound(canon: Heights, larger: nat) {
    larger > 0 ==> larger + 1 in canon || forall k :: k in canon ==> k <= larger
  }

  /** The second block to overwrite is not yet in place, or all of them are. */
  ghost predicate OverwritingFound(headers: Headers, canon: Heights, a: Hash)
    requires Tree(headers) && a in headers
  {
    assert TreeAt(headers, a);
    var p := headers[a].parent;
    p == EMPTY_HASH || !InPlace(headers, canon, p) || Covers(headers, canon, p)
  }

  ghost predicate Covers(headers: Headers, canon: Heights, p: Hash)
    requires Tree(headers) && p in headers
  {
    forall k :: k in ChainOf(headers, p) ==> k in canon && canon[k] == ChainOf(headers, p)[k]
  }

  // ---------- what the next restart makes of it ----------

  lemma DeletesRest(headers: Headers, canon: Heights, larger: nat, i: nat, top: nat)
    requires Known(headers, canon) && larger > 0 && Gap(canon, larger, i, top)
    ensures DeletionFound(canon, larger) ==> DeleteLarger(headers, canon, larger) == Rewrite(Below(canon, larger), true)
    ensures !DeletionFound(canon, larger) ==> DeleteLarger(headers, canon, larger) == Rewrite(canon, true)
    ensures !DeletionFound(canon, larger) ==> exists k :: k in canon && k > larger
  {
    if larger in canon {
      assert i == larger;
      DeleteLargerAll(headers, canon, larger, top);
      if i + 1 < top { assert larger + 1 in canon; }
    } else if larger + 1 in canon {
      DeleteLargerAll(headers, canon, larger, top);
    } else if DeletionFound(canon, larger) {
      DeleteLargerAll(headers, canon, larger, larger + 1);
    }
  }

  lemma {:induction false} AboveStays(headers: Headers, canon: Heights, stale: Hash, k: nat)
    requires Linked(headers) && k > HeightOf(headers, stale) && k in canon
    ensures k in OverwriteFrom(headers, canon, stale).canon
    decreases HeightOf(headers, stale) + 1
  {
    if stale != EMPTY_HASH && stale in headers {
      assert LinkedAt(headers, stale);
      var r := OverwriteSingle(headers, canon, stale);
      if r.Overwritten? { AboveStays(headers, r.canon, r.previous, k); }
    }
  }

  lemma ParentInChain(headers: Headers, a: Hash)
    requires Tree(headers) && a in headers && headers[a].parent != EMPTY_HASH
    ensures TreeAt(headers, a)
    ensures var p := headers[a].parent; var k := headers[p].height;
      k + 1 == headers[a].height && k in ChainOf(headers, a) && ChainOf(headers, a)[k] == p
  {
    assert TreeAt(headers, a);
    ChainDomain(headers, headers[a].parent);
  }

  lemma OverwritesRest(headers: Headers, canon: Heights, a: Hash, tip: Hash, g: int)
    requires Laid(headers, canon, a, tip, g)
    ensures Linked(headers)
    ensures Overwrite(headers, canon, a).canon == canon + ChainOf(headers, a) <==> OverwritingFound(headers, canon, a)
  {
    TreeLinked(headers);
    assert TreeAt(headers, a);
    var hd := headers[a];
    var canon' := canon[hd.height := a];
    if hd.parent == EMPTY_HASH {
      assert canon + ChainOf(headers, a) == canon';
    } else if InPlace(headers, canon, hd.parent) {
      StopsAtParent(headers, canon, a);
    } else {
      ParentInChain(headers, a);
      OverwriteAll(headers, canon, a, tip);
    }
  }

  lemma StopsAtParent(headers: Headers, canon: Heights, a: Hash)
    requires Tree(headers) && Known(headers, canon) && a in headers && headers[a].parent != EMPTY_HASH
    requires InPlace(headers, canon, headers[a].parent)
    ensures Linked(headers)
    ensures Overwrite(headers, canon, a).canon == canon + ChainOf(headers, a) <==>
      Covers(headers, canon, headers[a].parent)
  {
    TreeLinked(headers);
    assert TreeAt(headers, a);
    var hd := headers[a];
    var p, canon' := hd.parent, canon[hd.height := a];
    ChainDomain(headers, p);
    assert Overwrite(headers, canon, a).canon == canon';
    if Covers(headers, canon, p) {
      assert canon' == canon + ChainOf(headers, a);
    } else {
      var k :| k in ChainOf(headers, p) && !(k in canon && canon[k] == ChainOf(headers, p)[k]);
      assert k != hd.height && k in ChainOf(headers, a);
    }
  }

  lemma LaidBelow(headers: Headers, canon: Heights, larger: nat, a: Hash, tip: Hash, g: int)
    requires Laid(headers, canon, a, tip, g) && (larger > 0 ==> headers[a].height < larger)
    ensures Laid(headers, Lower(canon, larger), a, tip, g)
    ensures OverwritingFound(headers, Lower(canon, larger), a) <==> OverwritingFound(headers, canon, a)
  {
    assert TreeAt(headers, a);
    if headers[a].parent != EMPTY_HASH { ChainDomain(headers, headers[a].parent); }
  }

  /** However far the rewriting got, a restart completes it exactly if it finds both the deletion and the overwriting
      where it looks for them. */
  lemma ResumesExactly(s: Store, larger: nat, i: nat, top: nat, a: Hash, tip: Hash, g: int)
    requires Partway(s.headers, s.canon, larger, i, top, a, tip, g)
    ensures Linked(s.headers)
    ensures Resume(s, larger, a) == s.(canon := Target(s.headers, s.canon, larger, a)) <==>
      DeletionFound(s.canon, larger) && OverwritingFound(s.headers, s.canon, a)
  {
    TreeLinked(s.headers);
    LaidBelow(s.headers, s.canon, larger, a, tip, g);
    OverwritesRest(s.headers, Lower(s.canon, larger), a, tip, g);
    if larger > 0 { DeletesRest(s.headers, s.canon, larger, i, top); }
    if !DeletionFound(s.canon, larger) {
      var k :| k in s.canon && k > larger;
      HeightLeft(s.headers, s.canon, larger, a, k);
    }
  }

  lemma HeightLeft(headers: Headers, canon: Heights, larger: nat, a: Hash, k: nat)
    requires Tree(headers) && a in headers && headers[a].height < larger < k && k in canon
    ensures Linked(headers) && k in Overwrite(headers, canon, a).canon && k !in Target(headers, canon, larger, a)
  {
    TreeLinked(headers);
    assert TreeAt(headers, a);
    ChainDomain(headers, a);
    var r := OverwriteSingle(headers, canon, a);
    if !r.Failed? { AboveStays(headers, if r.Overwritten? then r.canon else canon, r.previous, k); }
  }

  // ---------- the states on the way ----------

  lemma {:induction false} DeletionsGap(s: Store, f: RecoveryPoint, larger: nat, i: nat, top: nat, j: nat)
    returns (i': nat)
    requires Known(s.headers, s.canon) && Gap(s.canon, larger, i, top) && j < |DeleteWrites(s, f, i, false)|
    ensures var e := DeleteWrites(s, f, i, false)[j]; var c := e.store.canon;
      && e == Disk(s.(canon := c), f) && Gap(c, larger, i', top) && Known(s.headers, c)
      && Below(c, larger) == Below(s.canon, larger)
    decreases j
  {
    if j == 0 {
      i' := i + 1;
    } else {
      i' := DeletionsGap(s.(canon := s.canon - {i}), f, larger, i + 1, top, j - 1);
      assert Below(s.canon - {i}, larger) == Below(s.canon, larger);
    }
  }

  lemma LargerGap(s: Store, f: RecoveryPoint, larger: nat, i: nat, top: nat, j: nat) returns (i': nat)
    requires Known(s.headers, s.canon) && Gap(s.canon, larger, i, top) && j < |LargerWrites(s, f, larger, false)|
    ensures var e := LargerWrites(s, f, larger, false)[j]; var c := e.store.canon;
      && e == Disk(s.(canon := c), f) && Gap(c, larger, i', top) && Known(s.headers, c)
      && Below(c, larger) == Below(s.canon, larger)
  {
    if larger !in s.canon {
      i' := DeletionsGap(s, f, larger, larger + 1, top, j);
    } else if j == 0 {
      i' := larger + 1;
    } else {
      i' := DeletionsGap(s.(canon := s.canon - {larger}), f, larger, larger + 1, top, j - 1);
      assert Below(s.canon - {larger}, larger) == Below(s.canon, larger);
    }
  }

  /** The next block to overwrite is one of the chain of `a`, and everything above it is done. */
  ghost predicate Next(headers: Headers, canon: Heights, a: Hash, tip: Hash, x: Hash) {
    && Laid(headers, canon, a, tip, HeightOf(headers, x))
    && (x != EMPTY_HASH ==> InPlace(headers, ChainOf(headers, a), x))
  }

  lemma NextStep(headers: Headers, canon: Heights, a: Hash, tip: Hash, x: Hash)
    requires Next(headers, canon, a, tip, x) && x != EMPTY_HASH
    ensures TreeAt(headers, x)
    ensures var c := canon[headers[x].height := x];
      Next(headers, c, a, tip, headers[x].parent) && c + ChainOf(headers, a) == canon + ChainOf(headers, a)
  {
    var k := headers[x].height;
    assert TreeAt(headers, x);
    ChainPrefix(headers, a, k);
    ChainDomain(headers, a);
    if headers[x].parent != EMPTY_HASH { ParentInChain(headers, x); }
  }

  lemma {:induction false} OverwritesLaid(s: Store, f: RecoveryPoint, a: Hash, tip: Hash, x: Hash, j: nat)
    returns (g: int)
    requires Next(s.headers, s.canon, a, tip, x)
    requires Linked(s.headers) && j < |OverwriteWrites(s, f, x, false)|
    ensures LaidDisk(s, f, a, tip, OverwriteWrites(s, f, x, false)[j], g)
    decreases j
  {
    NextStep(s.headers, s.canon, a, tip, x);
    var s' := s.(canon := s.canon[s.headers[x].height := x]);
    if j == 0 {
      g := HeightOf(s.headers, s.headers[x].parent);
    } else {
      g := OverwritesLaid(s', f, a, tip, s.headers[x].parent, j - 1);
    }
  }

  /** A state of the overwriting: only the map differs, and the chain of `a` is laid down to g. */
  ghost predicate LaidDisk(s: Store, f: RecoveryPoint, a: Hash, tip: Hash, e: Disk, g: int) {
    && e == Disk(s.(canon := e.store.canon), f) && Laid(s.headers, e.store.canon, a, tip, g)
    && e.store.canon + ChainOf(s.headers, a) == s.canon + ChainOf(s.headers, a)
  }

  lemma StaleLaid(s: Store, f: RecoveryPoint, a: Hash, tip: Hash, g0: int, j: nat) returns (g: int)
    requires Laid(s.headers, s.canon, a, tip, g0) && g0 >= s.headers[a].height - 1
    requires Linked(s.headers) && j < |StaleWrites(s, f, a, false)|
    ensures LaidDisk(s, f, a, tip, StaleWrites(s, f, a, false)[j], g)
  {
    var p, c := s.headers[a].parent, s.canon[s.headers[a].height := a];
    FirstLaid(s.headers, s.canon, a, tip, g0);
    if InPlace(s.headers, s.canon, a) {
      assert c == s.canon;
      g := OverwritesLaid(s, f, a, tip, p, j);
    } else if j == 0 {
      g := HeightOf(s.headers, p);
    } else {
      g := StaleLaidRest(s, f, a, tip, p, s.(canon := c), j);
    }
  }

  lemma StaleLaidRest(s: Store, f: RecoveryPoint, a: Hash, tip: Hash, p: Hash, s': Store, j: nat) returns (g: int)
    requires Linked(s.headers) && OverwriteSingle(s.headers, s.canon, a) == Overwritten(s'.canon, p)
    requires s' == s.(canon := s'.canon) && Next(s.headers, s'.canon, a, tip, p)
    requires s'.canon + ChainOf(s.headers, a) == s.canon + ChainOf(s.headers, a)
    requires 0 < j < |StaleWrites(s, f, a, false)|
    ensures LaidDisk(s, f, a, tip, StaleWrites(s, f, a, false)[j], g)
  {
    assert StaleWrites(s, f, a, false) == [Disk(s', f)] + OverwriteWrites(s', f, p, false);
    g := OverwritesLaid(s', f, a, tip, p, j - 1);
  }

  /** The first block of the overwriting. */
  lemma FirstLaid(headers: Headers, canon: Heights, a: Hash, tip: Hash, g0: int)
    requires Laid(headers, canon, a, tip, g0) && g0 >= headers[a].height - 1
    ensures var c := canon[headers[a].height := a];
      Next(headers, c, a, tip, headers[a].parent) && c + ChainOf(headers, a) == canon + ChainOf(headers, a)
  {
    assert TreeAt(headers, a);
    ChainDomain(headers, a);
    if headers[a].parent != EMPTY_HASH { ParentInChain(headers, a); }
  }

  // ---------- a second crash ----------

  /** A write interrupted by a crash: the deletion has just begun or is done, and the overwriting has just begun. */
  ghost predicate Interrupted(d: Disk, i: nat, top: nat, tip: Hash, g: int) {
    && Settled(d.rp) && d.rp.staleHash != EMPTY_HASH
    && Partway(d.store.headers, d.store.canon, d.rp.largerHeight, i, top, d.rp.staleHash, tip, g)
    && DeletionFound(d.store.canon, d.rp.largerHeight) && g >= d.store.headers[d.rp.staleHash].height - 1
  }

  lemma InterruptedCompletes(d: Disk, i: nat, top: nat, tip: Hash, g: int)
    requires Interrupted(d, i, top, tip, g)
    ensures var s, larger, a := d.store, d.rp.largerHeight, d.rp.staleHash;
      Linked(s.headers) && Recover(d) == s.(canon := Target(s.headers, s.canon, larger, a))
  {
    var headers, canon, a := d.store.headers, d.store.canon, d.rp.staleHash;
    assert TreeAt(headers, a);
    var p := headers[a].parent;
    if p != EMPTY_HASH && InPlace(headers, canon, p) {
      ChainDomain(headers, p);
      ChainPrefix(headers, tip, headers[p].height);
      assert Covers(headers, canon, p);
    }
    ResumesExactly(d.store, d.rp.largerHeight, i, top, a, tip, g);
  }

  /** Between two restarts: the store differs from the one before in the map only, which is one of the rewriting, with
      the same end to reach. */
  ghost predicate OnTheWay(d: Disk, e: Disk, i: nat, top: nat, tip: Hash, g: int)
    requires Tree(d.store.headers) && d.rp.staleHash in d.store.headers
  {
    && e == Disk(d.store.(canon := e.store.canon), d.rp)
    && Partway(d.store.headers, e.store.canon, d.rp.largerHeight, i, top, d.rp.staleHash, tip, g)
    && Target(d.store.headers, e.store.canon, d.rp.largerHeight, d.rp.staleHash) ==
       Target(d.store.headers, d.store.canon, d.rp.largerHeight, d.rp.staleHash)
  }

  lemma DeletionOnTheWay(d: Disk, i: nat, top: nat, tip: Hash, g: int, j: nat) returns (i': nat)
    requires Interrupted(d, i, top, tip, g) && d.rp.largerHeight > 0
    requires j < |LargerWrites(d.store, d.rp, d.rp.largerHeight, false)|
    ensures OnTheWay(d, LargerWrites(d.store, d.rp, d.rp.largerHeight, false)[j], i', top, tip, g)
  {
    i' := LargerGap(d.store, d.rp, d.rp.largerHeight, i, top, j);
    var e := LargerWrites(d.store, d.rp, d.rp.largerHeight, false)[j];
    SameBelow(d.store.headers, d.store.canon, e.store.canon, d.rp.largerHeight, d.rp.staleHash, tip, g);
  }

  lemma OverwritingOnTheWay(d: Disk, i: nat, top: nat, tip: Hash, g: int, low: Store, j: nat)
    returns (i': nat, g': int)
    requires Interrupted(d, i, top, tip, g) && Linked(d.store.headers)
    requires low == d.store.(canon := Lower(d.store.canon, d.rp.largerHeight))
    requires j < |StaleWrites(low, d.rp, d.rp.staleHash, false)|
    ensures OnTheWay(d, StaleWrites(low, d.rp, d.rp.staleHash, false)[j], i', i', tip, g')
  {
    var larger, a := d.rp.largerHeight, d.rp.staleHash;
    LaidBelow(d.store.headers, d.store.canon, larger, a, tip, g);
    g' := StaleLaid(low, d.rp, a, tip, g, j);
    i' := larger;
    NothingAbove(low.headers, low.canon, StaleWrites(low, d.rp, a, false)[j].store.canon, larger, a);
  }

  /** The writes of a restart after such a crash. */
  lemma RestartWrites(d: Disk, i: nat, top: nat, tip: Hash, g: int) returns (first: seq<Disk>, low: Store)
    requires Interrupted(d, i, top, tip, g) && Linked(d.store.headers)
    ensures low == d.store.(canon := Lower(d.store.canon, d.rp.largerHeight))
    ensures first == if d.rp.largerHeight > 0 then LargerWrites(d.store, d.rp, d.rp.largerHeight, false) else []
    ensures RecoverWrites(d) == first + StaleWrites(low, d.rp, d.rp.staleHash, false)
  {
    var larger := d.rp.largerHeight;
    first := if larger > 0 then LargerWrites(d.store, d.rp, larger, false) else [];
    low := d.store.(canon := Lower(d.store.canon, larger));
    if larger > 0 { DeletesRest(d.store.headers, d.store.canon, larger, i, top); }
    assert UndoWrites(d) == [];
  }

  lemma RestartOnTheWay(d: Disk, i: nat, top: nat, tip: Hash, g: int, j: nat) returns (i': nat, top': nat, g': int)
    requires Interrupted(d, i, top, tip, g) && Linked(d.store.headers) && j < |RecoverWrites(d)|
    ensures OnTheWay(d, RecoverWrites(d)[j], i', top', tip, g')
  {
    var first, low := RestartWrites(d, i, top, tip, g);
    if j < |first| {
      i' := DeletionOnTheWay(d, i, top, tip, g, j);
      top', g' := top, g;
    } else {
      i', g' := OverwritingOnTheWay(d, i, top, tip, g, low, j - |first|);
      top' := i';
    }
  }

  lemma SameBelow(headers: Headers, canon: Heights, c: Heights, larger: nat, a: Hash, tip: Hash, g: int)
    requires Laid(headers, canon, a, tip, g) && headers[a].height < larger
    requires Known(headers, c) && Below(c, larger) == Below(canon, larger)
    ensures Laid(headers, c, a, tip, g)
  {
    assert forall k: nat :: k < larger ==>
      (k in c <==> k in Below(c, larger)) && (k in canon <==> k in Below(canon, larger));
    assert forall k: nat :: k < larger && k in c ==> c[k] == Below(c, larger)[k] && canon[k] == Below(canon, larger)[k];
  }

  lemma NothingAbove(headers: Headers, low: Heights, c: Heights, larger: nat, a: Hash)
    requires Tree(headers) && a in headers && c + ChainOf(headers, a) == low + ChainOf(headers, a)
    requires larger > 0 ==> headers[a].height < larger && forall k :: k in low ==> k < larger
    ensures larger > 0 ==> Gap(c, larger, larger, larger)
    ensures Lower(c, larger) + ChainOf(headers, a) == low + ChainOf(headers, a)
  {
    ChainDomain(headers, a);
    if larger > 0 {
      forall k | k in c ensures k < larger { assert k in low + ChainOf(headers, a); }
      assert Below(c, larger) == c;
    }
  }

  /** What the next restart must find on disk: the second height to delete is still there or none is left above, and
      the second block to overwrite is not yet in place or all of them are. */
  ghost predicate Found(e: Disk) {
    && DeletionFound(e.store.canon, e.rp.largerHeight) && Tree(e.store.headers)
    && e.rp.staleHash in e.store.headers && OverwritingFound(e.store.headers, e.store.canon, e.rp.staleHash)
  }

  /** A second crash, after any write of a restart that would have completed the write of a block: the next restart
      completes it exactly if it finds what is left to do where it looks for it. */
  lemma CrashTwice(d: Disk, i: nat, top: nat, tip: Hash, g: int, j: nat)
    requires Interrupted(d, i, top, tip, g) && Linked(d.store.headers) && j < |RecoverWrites(d)|
    ensures var e := RecoverWrites(d)[j];
      Linked(e.store.headers) && (Recover(e) == Recover(d) <==> Found(e))
  {
    InterruptedCompletes(d, i, top, tip, g);
    var i', top', g' := RestartOnTheWay(d, i, top, tip, g, j);
    var e := RecoverWrites(d)[j];
    ResumesExactly(e.store, e.rp.largerHeight, i', top', e.rp.staleHash, tip, g');
  }

  // ---------- from the crash states of a write ----------

  /** What a write leaves on disk while it deletes from height h on: the heights up to the recorded one are deleted,
      that one perhaps too. */
  ghost predicate Deleting(s: Store, h: nat, d: Disk) {
    && h <= d.rp.largerHeight && d.store == s.(canon := d.store.canon)
    && (d.store.canon == Cut(s.canon, h, d.rp.largerHeight) || d.store.canon == Cut(s.canon, h, d.rp.largerHeight + 1))
  }

  lemma DeletionInterrupted(s: Store, h: nat, top: nat, a: Hash, tip: Hash, cut: Heights, target: Heights, d: Disk)
    returns (i: nat, g: int)
    requires Deletable(s, h, top) && cut == Below(s.canon, h) && Laying(s.headers, cut, a, tip, target)
    requires a != EMPTY_HASH && s.headers[a].height < h
    requires Settled(d.rp) && d.rp.staleHash == a && Deleting(s, h, d)
    ensures Interrupted(d, i, top, tip, g) && Linked(s.headers) && Recover(d) == s.(canon := target)
  {
    var larger, canon := d.rp.largerHeight, d.store.canon;
    i := if canon == Cut(s.canon, h, larger) then larger else larger + 1;
    g := s.headers[a].height;
    CutGap(s, h, top, larger, i, canon, cut);
    assert Below(cut, larger) == cut;
    SameBelow(s.headers, cut, canon, larger, a, tip, g);
    InterruptedCompletes(d, i, top, tip, g);
  }

  lemma CutGap(s: Store, h: nat, top: nat, larger: nat, i: nat, canon: Heights, cut: Heights)
    requires Deletable(s, h, top) && h <= larger <= i <= larger + 1
    requires canon == Cut(s.canon, h, i) && cut == Below(s.canon, h)
    ensures Gap(canon, larger, i, top) && DeletionFound(canon, larger) && Known(s.headers, canon)
    ensures Below(canon, larger) == cut
  {
    if larger + 1 < top { assert larger + 1 in canon; }
  }

  /** A crash while stale blocks are overwritten. */
  lemma OverwritingInterrupted(d: Disk, canon: Heights, tip: Hash, target: Heights) returns (g: int)
    requires Settled(d.rp) && d.rp.largerHeight == 0 && d.rp.staleHash != EMPTY_HASH
    requires Laying(d.store.headers, canon, d.rp.staleHash, tip, target)
    requires d.store.canon == canon || d.store.canon == canon[d.store.headers[d.rp.staleHash].height := d.rp.staleHash]
    ensures Interrupted(d, 0, 0, tip, g)
  {
    var headers, a := d.store.headers, d.rp.staleHash;
    assert TreeAt(headers, a);
    ChainDomain(headers, a);
    g := if d.store.canon == canon then headers[a].height else headers[a].height - 1;
  }

  ghost predicate InterruptedSomehow(d: Disk) {
    exists i: nat, top: nat, tip, g :: Interrupted(d, i, top, tip, g)
  }

  /** The states a rewriting of the map leaves on disk: it is interrupted there, or done. */
  lemma RewriteInterrupted(s1: Store, h: nat, a: Hash, cut: Heights, target: Heights, tip: Hash, top: nat,
                           f: RecoveryPoint, j: nat)
    requires Linked(s1.headers) && Deletable(s1, h, top) && cut == Below(s1.canon, h)
    requires DeleteLarger(s1.headers, s1.canon, h) == Rewrite(cut, true)
    requires a != EMPTY_HASH && Laying(s1.headers, cut, a, tip, target) && s1.headers[a].height < h
    requires Settled(f) && f.largerHeight == h && f.staleHash == a && j < |RewriteWrites(s1, f, h, a)|
    ensures var d := RewriteWrites(s1, f, h, a)[j]; Idle(d.rp) || InterruptedSomehow(d)
  {
    var first := LargerWrites(s1, f, h, true);
    var s2, f2 := s1.(canon := cut), f.(largerHeight := 0);
    if j < |first| {
      LargerWritesMid(s1, f, h, top, j);
      MidDeleteInterrupted(s1, h, top, a, tip, cut, target, f, first[j]);
    } else {
      StaleWritesMid(s2, f2, a, tip, target, j - |first|);
      MidLayingInterrupted(s2, f2, tip, target, StaleWrites(s2, f2, a, true)[j - |first|]);
    }
  }

  lemma MidDeleteInterrupted(s1: Store, h: nat, top: nat, a: Hash, tip: Hash, cut: Heights, target: Heights,
                             f: RecoveryPoint, d: Disk)
    requires Deletable(s1, h, top) && cut == Below(s1.canon, h) && Laying(s1.headers, cut, a, tip, target)
    requires a != EMPTY_HASH && s1.headers[a].height < h
    requires Settled(f) && f.staleHash == a && MidDelete(d, s1, f, h, top)
    ensures InterruptedSomehow(d)
  {
    if d.rp.largerHeight > 0 {
      var i, g := DeletionInterrupted(s1, h, top, a, tip, cut, target, d);
    } else {
      var g := OverwritingInterrupted(d, cut, tip, target);
    }
  }

  lemma MidLayingInterrupted(s: Store, f: RecoveryPoint, tip: Hash, target: Heights, d: Disk)
    requires Settled(f) && f.largerHeight == 0 && MidLaying(d, s, f, tip, target)
    ensures Idle(d.rp) || InterruptedSomehow(d)
  {
    if d.rp.staleHash != EMPTY_HASH {
      var canon :| LaidTo(s.headers, canon, d.rp.staleHash, tip, target, d.store.canon);
      var g := OverwritingInterrupted(d, canon, tip, target);
    }
  }

  lemma EndInterrupted(s1: Store, h: nat, top: nat, a: Hash, tip: Hash, cut: Heights, target: Heights,
                       f: RecoveryPoint)
    requires Deletable(s1, h, top) && cut == Below(s1.canon, h) && Laying(s1.headers, cut, a, tip, target)
    requires a != EMPTY_HASH && s1.headers[a].height < h
    requires Settled(f) && f.staleHash == a && f.largerHeight == h
    ensures InterruptedSomehow(Disk(s1, f))
  {
    assert Cut(s1.canon, h, h) == s1.canon;
    var i, g := DeletionInterrupted(s1, h, top, a, tip, cut, target, Disk(s1, f));
  }

  /** Every state that the write of a block leaves on disk from the third one on is interrupted or final. */
  lemma BlockInterrupted(s: Store, b: Block, j: nat)
    requires Valid(s) && Fits(s, b) && 2 <= j < |BlockWrites(s, b)|
    ensures var d := BlockWrites(s, b)[j]; Idle(d.rp) || InterruptedSomehow(d)
  {
    var s1, cut, target, tip, top := WritePlan(s, b);
    BlockWritesParts(s, b, s1);
    var f, h, a := Ending(Starting(s, b)), b.header.height + 1, b.header.parent;
    assert s1.headers[a].height < h by { assert TreeAt(s1.headers, b.hash); }
    if j == 2 {
      EndInterrupted(s1, h, top, a, tip, cut, target, f);
    } else {
      RewriteInterrupted(s1, h, a, cut, target, tip, top, f, j - 3);
    }
  }

  /** A write that is interrupted twice: by a crash after its write j to the disk, past the second, and by another
      crash after write k of the restart. */
  lemma WriteTwice(s: Store, b: Block, j: nat, k: nat)
    requires Valid(s) && Fits(s, b) && 2 <= j < |BlockWrites(s, b)|
    ensures Linked(BlockWrites(s, b)[j].store.headers)
    ensures var d := BlockWrites(s, b)[j];
      k < |RecoverWrites(d)| ==>
        var e := RecoverWrites(d)[k];
        Linked(e.store.headers) && (Recover(e) == Write(s, b).store <==> Found(e))
  {
    var d := BlockWrites(s, b)[j];
    BlockWritesComplete(s, b, j);
    BlockInterrupted(s, b, j);
    if k < |RecoverWrites(d)| {
      var i: nat, top: nat, tip, g :| Interrupted(d, i, top, tip, g);
      CrashTwice(d, i, top, tip, g, k);
    }
  }

  // ---------- a second crash in a rollback ----------

  lemma LinkedWithout(headers: Headers, n: Hash)
    requires Linked(headers)
    ensures Linked(headers - {n})
  {
    forall h | h in headers - {n} ensures LinkedAt(headers - {n}, h) { assert LinkedAt(headers, h); }
  }

  /** A second crash while a block is taken back does no harm. */
  lemma UndoTwice(d: Disk, k: nat)
    requires Linked(d.store.headers) && d.rp.writingHash != EMPTY_HASH && k < |RecoverWrites(d)|
    ensures var e := RecoverWrites(d)[k];
      Linked(e.store.headers) && e.rp == d.rp && Recover(e) == Recover(d)
  {
    LinkedWithout(d.store.headers, d.rp.writingHash);
    var e := RecoverWrites(d)[k];
    assert e.rp == d.rp && (e.store == UndoHead(d) || e.store == UndoMap(d) || e.store == Undo(d));
    UndoneAgain(d, e.store);
  }

  lemma UndoneAgain(d: Disk, s: Store)
    requires s == UndoHead(d) || s == UndoMap(d) || s == Undo(d)
    ensures Undo(Disk(s, d.rp)) == Undo(d)
  {
    assert UndoHead(Disk(s, d.rp)) == s;
    MapAgain(d, s);
  }

  lemma MapAgain(d: Disk, s: Store)
    requires s == UndoHead(d) || s == UndoMap(d) || s == Undo(d)
    requires UndoHead(Disk(s, d.rp)) == s
    ensures Undo(Disk(s, d.rp)) == Undo(d)
  {
    var t, u := Undo(Disk(s, d.rp)), Undo(d);
    assert t.canon == u.canon;
    assert t.headers == u.headers;
    assert t.tds == u.tds;
  }

  // ---------- at an input ----------

  ghost function FiveBlocks(): Headers {
    map[1 := Header(0, EMPTY_HASH, 1), 2 := Header(1, 1, 1), 3 := Header(2, 2, 1), 4 := Header(3, 3, 1),
        5 := Header(4, 4, 1)]
  }

  /** The chain 1, 2, 3, 4, 5, and a block to write on block 1. */
  ghost function Five(): Store {
    Store(FiveBlocks(), map[1 := 1, 2 := 2, 3 := 3, 4 := 4, 5 := 5], map[0 := 1, 1 := 2, 2 := 3, 3 := 4, 4 := 5], 5)
  }

  ghost function Sixth(): Block {
    Block(6, Header(1, 1, 9))
  }

  lemma FiveValid()
    ensures Valid(Five()) && Fits(Five(), Sixth())
  {
    var headers := FiveBlocks();
    forall h | h in headers ensures TreeAt(headers, h) && TdAt(headers, Five().tds, h) { }
    assert ChainOf(headers, 1) == map[0 := 1];
    assert ChainOf(headers, 2) == map[0 := 1, 1 := 2];
    assert ChainOf(headers, 3) == map[0 := 1, 1 := 2, 2 := 3];
    assert ChainOf(headers, 4) == map[0 := 1, 1 := 2, 2 := 3, 3 := 4];
  }

  /** Block 6 is put, heights 2, 3 and 4 are to be deleted. */
  ghost function Halted(canon: Heights): Disk {
    Disk(Store(FiveBlocks()[6 := Header(1, 1, 9)], map[1 := 1, 2 := 2, 3 := 3, 4 := 4, 5 := 5, 6 := 10], canon, 6),
         RecoveryPoint(EMPTY_HASH, 0, EMPTY_HASH, EMPTY_HASH, 2, 1))
  }

  lemma SixthHalted()
    ensures Valid(Five()) && Fits(Five(), Sixth())
    ensures 2 < |BlockWrites(Five(), Sixth())|
    ensures BlockWrites(Five(), Sixth())[2] == Halted(map[0 := 1, 1 := 6, 2 := 3, 3 := 4, 4 := 5])
  {
    FiveValid();
    var s, b := Five(), Sixth();
    assert TdOf(s, b) == 10;
    var s1 := Put(s, b, 10, true).store;
    assert s1.canon == map[0 := 1, 1 := 6, 2 := 3, 3 := 4, 4 := 5];
    assert s1.tds == map[1 := 1, 2 := 2, 3 := 3, 4 := 4, 5 := 5, 6 := 10];
  }

  lemma TwoDeleted(d: Disk, e: Disk)
    requires d == Halted(map[0 := 1, 1 := 6, 2 := 3, 3 := 4, 4 := 5]) && e == Halted(map[0 := 1, 1 := 6, 4 := 5])
    requires Linked(d.store.headers)
    ensures |RecoverWrites(d)| > 1 && RecoverWrites(d)[1] == e && !Found(e) && Recover(e) == e.store
  {
    TwoWrites(d, e);
    assert RecoverWrites(d)[1] == LargerWrites(d.store, d.rp, 2, false)[1];
    assert 4 in e.store.canon && 3 !in e.store.canon;
  }

  lemma TwoWrites(d: Disk, e: Disk)
    requires d == Halted(map[0 := 1, 1 := 6, 2 := 3, 3 := 4, 4 := 5]) && e == Halted(map[0 := 1, 1 := 6, 4 := 5])
    ensures var first := LargerWrites(d.store, d.rp, 2, false); |first| > 1 && first[1] == e
  {
    var c1: Heights := map[0 := 1, 1 := 6, 3 := 4, 4 := 5];
    assert d.store.canon - {2} == c1 && c1 - {3} == e.store.canon;
    var s1 := d.store.(canon := c1);
    assert DeleteWrites(s1, d.rp, 3, false) == [e] + DeleteWrites(e.store, d.rp, 4, false);
  }

  /** The write of block 6 crashes after its third write to the disk, the restart deletes heights 2 and 3 and crashes:
      height 4 of the old chain stays in the map for good. */
  lemma StaleHeightStays()
    ensures Valid(Five()) && Fits(Five(), Sixth()) && 2 < |BlockWrites(Five(), Sixth())|
    ensures var d := BlockWrites(Five(), Sixth())[2];
      Linked(d.store.headers) && 1 < |RecoverWrites(d)| &&
      var e := RecoverWrites(d)[1];
      && Linked(e.store.headers) && Recover(e) == e.store && 4 in e.store.canon && e.store.canon[4] == 5
      && Recover(e) != Write(Five(), Sixth()).store && Recover(d) == Write(Five(), Sixth()).store
  {
    SixthHalted();
    var d := BlockWrites(Five(), Sixth())[2];
    BlockWritesComplete(Five(), Sixth(), 2);
    TwoDeleted(d, Halted(map[0 := 1, 1 := 6, 4 := 5]));
    WriteTwice(Five(), Sixth(), 2, 1);
  }
}
