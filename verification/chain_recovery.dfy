/** The recovery record, what a restart does with it, and why a restart may pick up where a crash left off. */
module ChainRecovery {
  import opened CanonicalChain
  import opened ChainWrites

  datatype RecoveryPoint = RecoveryPoint(
    writingHash: Hash,
    writingHeight: nat,
    previousCanonical: Hash,
    previousHead: Hash,
    largerHeight: nat,
    staleHash: Hash)

  /** What survives a crash: the store and the record file. */
  datatype Disk = Disk(store: Store, rp: RecoveryPoint)

  /** No block is being put into the store. */
  predicate Settled(rp: RecoveryPoint) {
    && rp.writingHash == EMPTY_HASH && rp.previousHead == EMPTY_HASH
    && (rp.writingHeight == 0 || rp.previousCanonical == EMPTY_HASH)
  }

  predicate Idle(rp: RecoveryPoint) {
    Settled(rp) && rp.largerHeight == 0 && rp.staleHash == EMPTY_HASH
  }

  /** The record while a block is being put into the store, and after that. */
  function Starting(s: Store, b: Block): RecoveryPoint {
    RecoveryPoint(b.hash, b.header.height, if b.header.height in s.canon then s.canon[b.header.height] else EMPTY_HASH,
                  s.head, b.header.height + 1, b.header.parent)
  }

  function Ending(rp: RecoveryPoint): RecoveryPoint {
    RecoveryPoint(EMPTY_HASH, 0, EMPTY_HASH, EMPTY_HASH, rp.largerHeight, rp.staleHash)
  }

  /** The first part of recover: undo the put. */
  function Undo(d: Disk): Store {
    var s := if d.rp.previousHead != EMPTY_HASH then d.store.(head := d.rp.previousHead) else d.store;
    var s' := if d.rp.writingHeight > 0 && d.rp.previousCanonical != EMPTY_HASH
              then s.(canon := s.canon[d.rp.writingHeight := d.rp.previousCanonical]) else s;
    if d.rp.writingHash == EMPTY_HASH then s'
    else s'.(headers := s'.headers - {d.rp.writingHash}, tds := s'.tds - {d.rp.writingHash})
  }

  /** The second part: go on with the two loops. */
  function Resume(s: Store, larger: nat, stale: Hash): Store
    requires Linked(s.headers)
  {
    var canon := if larger > 0 then DeleteLarger(s.headers, s.canon, larger).canon else s.canon;
    s.(canon := if stale != EMPTY_HASH then Overwrite(s.headers, canon, stale).canon else canon)
  }

  /** recover */
  function Recover(d: Disk): Store
    requires Linked(d.store.headers)
  {
    if d.rp.writingHash != EMPTY_HASH then Undo(d) else Resume(Undo(d), d.rp.largerHeight, d.rp.staleHash)
  }

  // ---------- a crash while the block is being put ----------

  /** A crash before the block is put: map, head and the other blocks are as before. */
  lemma RecoverBeforePut(s: Store, b: Block)
    requires Valid(s) && Fits(s, b)
    ensures Linked(s.headers)
    ensures var r := Recover(Disk(s, Starting(s, b)));
      r.canon == s.canon && r.head == s.head && r.headers == s.headers - {b.hash}
  {
    TreeLinked(s.headers);
    ChainDomain(s.headers, s.head);
  }

  /** A crash after the block is put and before onPutBlockEnd: the head is restored, the block is gone, and the map is
      restored exactly when its height was occupied. */
  lemma RecoverAfterPut(s: Store, b: Block, s1: Store)
    requires Valid(s) && Fits(s, b) && Put(s, b, TdOf(s, b), true) == Ok(s1)
    ensures Linked(s1.headers)
    ensures var r := Recover(Disk(s1, Starting(s, b)));
      && r.head == s.head && r.headers == s.headers - {b.hash}
      && (r.canon == s.canon <==> b.header.height in s.canon)
      && (b.header.height !in s.canon ==> r.canon == s.canon[b.header.height := b.hash])
  {
    PutLinked(s, b, true);
    ChainDomain(s.headers, s.head);
    var r := Recover(Disk(s1, Starting(s, b)));
    if b.header.height in s.canon {
      assert r.canon == s.canon;
    } else {
      assert b.header.height in r.canon;
    }
  }

  // ---------- a crash while larger heights are deleted ----------

  /** The map without the heights from h up to i. */
  function Cut(canon: Heights, h: nat, i: nat): Heights {
    map k | k in canon && !(h <= k < i) :: canon[k]
  }

  /** However far the deletion got, with the height in progress deleted or not, going on from the recorded height gives
      the same map. */
  lemma DeleteResumes(headers: Headers, canon: Heights, h: nat, top: nat, i: nat)
    requires UpTo(canon, h, top) && Known(headers, canon) && h <= i <= top + 1
    ensures DeleteLarger(headers, Cut(canon, h, i), i) == Rewrite(Below(canon, h), true)
    ensures DeleteLarger(headers, Cut(canon, h, i + 1), i) == Rewrite(Below(canon, h), true)
  {
    var c, c' := Cut(canon, h, i), Cut(canon, h, i + 1);
    DeleteLargerAll(headers, c, i, if top > i then top else i);
    DeleteLargerAll(headers, c', i, if top > i then top else i + 1);
    assert Below(c, i) == Below(canon, h) && Below(c', i) == Below(canon, h);
  }

  // ---------- a crash while stale blocks are overwritten ----------

  /** Part of a chain is in the map: its blocks above a, and below those the map follows another chain. */
  ghost predicate Laying(headers: Headers, canon: Heights, a: Hash, tip: Hash, target: Heights) {
    && Tree(headers) && Known(headers, canon) && tip in headers && (a != EMPTY_HASH ==> a in headers)
    && Follows(headers, canon, HeightOf(headers, a), tip) && Overlay(headers, canon, a) == target
  }

  /** Going on from the recorded block gives the whole chain, with that block overwritten already or not. */
  lemma OverwriteResumes(headers: Headers, canon: Heights, a: Hash, tip: Hash, target: Heights)
    requires Laying(headers, canon, a, tip, target) && a != EMPTY_HASH
    ensures Linked(headers) && TreeAt(headers, a)
    ensures Overwrite(headers, canon, a) == Rewrite(target, true)
    ensures Overwrite(headers, canon[headers[a].height := a], a) == Rewrite(target, true)
  {
    TreeLinked(headers);
    assert TreeAt(headers, a);
    var canon' := canon[headers[a].height := a];
    OverwriteAll(headers, canon, a, tip);
    OverwriteAll(headers, canon', a, tip);
    assert canon' + ChainOf(headers, a) == canon + ChainOf(headers, a) by { ChainDomain(headers, a); }
  }

  /** Overwriting one block leads to the same situation one block further down. */
  lemma LayingStep(headers: Headers, canon: Heights, a: Hash, tip: Hash, target: Heights)
    requires Laying(headers, canon, a, tip, target) && a != EMPTY_HASH
    ensures TreeAt(headers, a) && Laying(headers, canon[headers[a].height := a], headers[a].parent, tip, target)
  {
    OverlayStep(headers, canon, a);
  }

  /** A block that is in the map already ends the overwriting: the map is complete. */
  lemma LaidAlready(headers: Headers, canon: Heights, a: Hash, tip: Hash, target: Heights)
    requires Laying(headers, canon, a, tip, target) && a != EMPTY_HASH
    requires headers[a].height in canon && canon[headers[a].height] == a
    ensures canon == target
  {
    ChainDomain(headers, a);
    ChainPrefix(headers, tip, headers[a].height);
    assert canon + ChainOf(headers, a) == canon;
  }

  /** All that the overwriting of one block needs. */
  lemma LayOne(headers: Headers, canon: Heights, a: Hash, tip: Hash, target: Heights)
    requires Laying(headers, canon, a, tip, target) && a != EMPTY_HASH
    ensures Linked(headers) && TreeAt(headers, a)
    ensures Overwrite(headers, canon, a) == Rewrite(target, true)
    ensures var canon' := canon[headers[a].height := a];
      Overwrite(headers, canon', a) == Rewrite(target, true) && Laying(headers, canon', headers[a].parent, tip, target)
    ensures headers[a].height in canon && canon[headers[a].height] == a ==> canon == target
  {
    OverwriteResumes(headers, canon, a, tip, target);
    LayingStep(headers, canon, a, tip, target);
    if headers[a].height in canon && canon[headers[a].height] == a { LaidAlready(headers, canon, a, tip, target); }
  }

  // ---------- the order of writes ----------

  /** Two stores that differ in one height, in one block and in the head at most: the reach of one batch. */
  ghost predicate Touches(s: Store, t: Store, k: nat, h: Hash) {
    t.canon - {k} == s.canon - {k} && t.headers - {h} == s.headers - {h} && t.tds - {h} == s.tds - {h}
  }

  /** One write lies between two states of the disk: of the record file, or one batch of the store. */
  ghost predicate OneWrite(d: Disk, e: Disk) {
    d.store == e.store || (d.rp == e.rp && exists k, h :: Touches(d.store, e.store, k, h))
  }

  /** The states of the disk in order, none left out. */
  ghost predicate Chronicle(trace: seq<Disk>) {
    trace != [] && forall j {:trigger OneWrite(trace[j - 1], trace[j])} ::
      0 < j < |trace| ==> OneWrite(trace[j - 1], trace[j])
  }

  lemma ChronicleGrows(trace: seq<Disk>, d: Disk)
    requires Chronicle(trace) && OneWrite(trace[|trace| - 1], d)
    ensures Chronicle(trace + [d])
  {
    var t := trace + [d];
    forall j | 0 < j < |t| ensures OneWrite(t[j - 1], t[j]) {
      if j < |trace| { assert OneWrite(trace[j - 1], trace[j]); }
    }
  }

  lemma ChroniclePrefix(trace: seq<Disk>, at: nat)
    requires Chronicle(trace) && at < |trace|
    ensures Chronicle(trace[..at + 1])
  {
    var t := trace[..at + 1];
    forall j | 0 < j < |t| ensures OneWrite(t[j - 1], t[j]) {
      assert OneWrite(trace[j - 1], trace[j]);
    }
  }

  // ---------- the crash states of a write ----------

  /** A crash state of the deletion: heights h up to the recorded one are gone, that one perhaps too. */
  ghost predicate MidDelete(d: Disk, s: Store, rp0: RecoveryPoint, h: nat, top: nat) {
    && d.store == s.(canon := d.store.canon) && d.rp == rp0.(largerHeight := d.rp.largerHeight)
    && (d.rp.largerHeight == 0 ==> d.store.canon == Below(s.canon, h))
    && (d.rp.largerHeight > 0 ==> h <= d.rp.largerHeight <= top + 1)
    && (d.rp.largerHeight > 0 ==>
          || d.store.canon == Cut(s.canon, h, d.rp.largerHeight)
          || d.store.canon == Cut(s.canon, h, d.rp.largerHeight + 1))
  }

  /** What the map must be for the deletion to go through: heights h up to top, all of stored blocks. */
  ghost predicate Deletable(s: Store, h: nat, top: nat) {
    h > 0 && UpTo(s.canon, h, top) && Known(s.headers, s.canon)
  }

  lemma CutStep(s: Store, h: nat, top: nat, i: nat)
    requires Deletable(s, h, top) && h <= i
    ensures Cut(s.canon, h, i) - {i} == Cut(s.canon, h, i + 1) && Cut(s.canon, h, h) == s.canon
    ensures i in Cut(s.canon, h, i) <==> i < top
    ensures i < top ==> Cut(s.canon, h, i)[i] in s.headers
    ensures i >= top ==> Cut(s.canon, h, i) == Below(s.canon, h)
  {
    assert Cut(s.canon, h, i) - {i} == Cut(s.canon, h, i + 1);
    assert Cut(s.canon, h, h) == s.canon;
    if i >= top { assert Cut(s.canon, h, i) == Below(s.canon, h); }
  }

  /** A restart ends in the given store. */
  ghost predicate Completes(d: Disk, final: Store) {
    Settled(d.rp) && Linked(d.store.headers) && Recover(d) == final
  }

  /** Head and other blocks are restored; the map is, exactly if the height was occupied or the block had not been
      put. */
  ghost predicate RolledBack(r: Store, s: Store, b: Block, unput: bool) {
    && r.head == s.head && r.headers == s.headers - {b.hash}
    && (r.canon == s.canon <==> b.header.height in s.canon || unput)
  }

  lemma PutCrashes(s: Store, b: Block, s1: Store)
    requires Valid(s) && Fits(s, b) && Put(s, b, TdOf(s, b), true) == Ok(s1)
    ensures Linked(s.headers) && Linked(s1.headers) && !Settled(Starting(s, b))
    ensures RolledBack(Recover(Disk(s, Starting(s, b))), s, b, true)
    ensures RolledBack(Recover(Disk(s1, Starting(s, b))), s, b, false)
  {
    RecoverBeforePut(s, b);
    RecoverAfterPut(s, b, s1);
  }

  /** With the height occupied, or the block not yet put, the restart gives back exactly the old store: if and only if
      the block was new. */
  lemma RollbackExact(s: Store, b: Block, d: Disk)
    requires Valid(s) && Fits(s, b) && d.rp == Starting(s, b)
    requires d.store == s || (Put(s, b, TdOf(s, b), true) == Ok(d.store) && b.header.height in s.canon)
    ensures Linked(d.store.headers) && (Recover(d) == s <==> b.hash !in s.headers)
  {
    PutSucceeds(s, b);
    PutCrashes(s, b, Put(s, b, TdOf(s, b), true).store);
    var r := Recover(d);
    if b.hash !in s.headers {
      assert r.headers == s.headers && r.tds == s.tds;
    } else {
      assert b.hash !in r.headers;
    }
  }

  /** A block on a free height that was put but not completed leaves its height pointing at a deleted block. From
      then on no block at that height can be put any more, the same block included. */
  lemma RollbackDangles(s: Store, b: Block, s1: Store, b2: Block)
    requires Valid(s) && Fits(s, b) && Put(s, b, TdOf(s, b), true) == Ok(s1) && b.header.height !in s.canon
    ensures Linked(s1.headers)
    ensures var r := Recover(Disk(s1, Starting(s, b)));
      && b.header.height in r.canon && r.canon[b.header.height] !in r.headers && !Valid(r)
      && (Fits(r, b2) && b2.header.height == b.header.height ==> Put(r, b2, TdOf(r, b2), true) == Error(r))
  {
    RecoverAfterPut(s, b, s1);
    var r := Recover(Disk(s1, Starting(s, b)));
    if Valid(r) {
      ChainDomain(r.headers, r.head);
      assert false;
    }
  }

  /** The intermediate states of a write. */
  lemma WritePlan(s: Store, b: Block) returns (s1: Store, cut: Heights, target: Heights, tip: Hash, top: nat)
    requires Valid(s) && Fits(s, b)
    ensures Put(s, b, TdOf(s, b), true) == Ok(s1) && Linked(s1.headers)
    ensures Deletable(s1, b.header.height + 1, top) && cut == Below(s1.canon, b.header.height + 1)
    ensures DeleteLarger(s1.headers, s1.canon, b.header.height + 1) == Rewrite(cut, true)
    ensures b.header.parent != EMPTY_HASH && Laying(s1.headers, cut, b.header.parent, tip, target)
    ensures Overwrite(s1.headers, cut, b.header.parent) == Rewrite(target, true)
    ensures Write(s, b) == Ok(s1.(canon := target))
  {
    PutSucceeds(s, b);
    s1 := Put(s, b, TdOf(s, b), true).store;
    tip, top, cut := s.head, TopOf(s, b), Below(s1.canon, b.header.height + 1);
    AfterPut(s, b, s1);
    DeletePhase(s, b, s1);
    OverwritePhase(s, b, s1, cut);
    target := ChainOf(s1.headers, b.hash);
    LaidOver(s1.headers, cut, b.hash, b.header);
  }

  /** The record right after onPutBlockEnd. */
  lemma EndCrash(b: Block, s1: Store, cut: Heights, target: Heights, top: nat, d: Disk)
    requires Linked(s1.headers) && Deletable(s1, b.header.height + 1, top)
    requires cut == Below(s1.canon, b.header.height + 1)
    requires Overwrite(s1.headers, cut, b.header.parent) == Rewrite(target, true) && b.header.parent != EMPTY_HASH
    requires d.store == s1 && Settled(d.rp) && d.rp.staleHash == b.header.parent
    requires d.rp.largerHeight == b.header.height + 1
    ensures Completes(d, s1.(canon := target))
  {
    assert Cut(s1.canon, b.header.height + 1, b.header.height + 1) == s1.canon;
    DeleteCrash(b, s1, cut, target, top, d.rp, d);
  }

  lemma DeleteCrash(b: Block, s1: Store, cut: Heights, target: Heights, top: nat, rp: RecoveryPoint, d: Disk)
    requires Linked(s1.headers) && Deletable(s1, b.header.height + 1, top)
    requires cut == Below(s1.canon, b.header.height + 1)
    requires Overwrite(s1.headers, cut, b.header.parent) == Rewrite(target, true) && b.header.parent != EMPTY_HASH
    requires Settled(rp) && rp.staleHash == b.header.parent && MidDelete(d, s1, rp, b.header.height + 1, top)
    ensures Completes(d, s1.(canon := target))
  {
    if d.rp.largerHeight > 0 {
      DeleteResumes(s1.headers, s1.canon, b.header.height + 1, top, d.rp.largerHeight);
    }
  }
}
