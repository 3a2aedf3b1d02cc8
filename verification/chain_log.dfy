/** What the functions that rewrite the chain leave on disk, write by write. */
module ChainLog {
  import opened CanonicalChain
  import opened ChainWrites
  import opened ChainRecovery

  // ---------- the writes ----------

  ghost function Noted(record: bool, s: Store, f: RecoveryPoint): seq<Disk> {
    if record then [Disk(s, f)] else []
  }

  /** The loop of DeleteLargerHeightBlocks from height i on, with the record file `f`: if there is a record, each height
      is noted in it before it is deleted, and 0 in the end. */
  ghost function DeleteWrites(s: Store, f: RecoveryPoint, i: nat, record: bool): seq<Disk>
    decreases s.canon.Keys
  {
    var f' := if record then f.(largerHeight := i) else f;
    Noted(record, s, f') +
    if i !in s.canon then Noted(record, s, f'.(largerHeight := 0))
    else if s.canon[i] !in s.headers then []
    else
      var s' := s.(canon := s.canon - {i});
      [Disk(s', f')] + DeleteWrites(s', f', i + 1, record)
  }

  /** DeleteLargerHeightBlocks */
  ghost function LargerWrites(s: Store, f: RecoveryPoint, h: nat, record: bool): seq<Disk> {
    if h !in s.canon then DeleteWrites(s, f, h + 1, record)
    else if s.canon[h] !in s.headers then []
    else
      var s' := s.(canon := s.canon - {h});
      [Disk(s', f)] + DeleteWrites(s', f, h + 1, record)
  }

  /** The loop of OverwriteStaleBlocks. */
  ghost function OverwriteWrites(s: Store, f: RecoveryPoint, stale: Hash, record: bool): seq<Disk>
    requires Linked(s.headers)
    decreases HeightOf(s.headers, stale) + 1
  {
    if stale == EMPTY_HASH then Noted(record, s, f.(staleHash := EMPTY_HASH))
    else
      assert stale in s.headers ==> LinkedAt(s.headers, stale);
      var f' := if record then f.(staleHash := stale) else f;
      Noted(record, s, f') +
      match OverwriteSingle(s.headers, s.canon, stale)
      case Failed => []
      case Unchanged(_) => Noted(record, s, f'.(staleHash := EMPTY_HASH))
      case Overwritten(canon', previous) =>
        var s' := s.(canon := canon');
        [Disk(s', f')] + OverwriteWrites(s', f', previous, record)
  }

  /** OverwriteStaleBlocks */
  ghost function StaleWrites(s: Store, f: RecoveryPoint, hash: Hash, record: bool): seq<Disk>
    requires Linked(s.headers)
  {
    match OverwriteSingle(s.headers, s.canon, hash)
    case Failed => []
    case Unchanged(previous) => OverwriteWrites(s, f, previous, record)
    case Overwritten(canon', previous) =>
      var s' := s.(canon := canon');
      [Disk(s', f)] + OverwriteWrites(s', f, previous, record)
  }

  /** The writes of doWriteBlock: the record of what to undo, the batch with the block, the record without that, and
      the rewriting of the map. */
  ghost function BlockWrites(s: Store, b: Block): seq<Disk>
    requires Tree(s.headers) && Fits(s, b)
  {
    PutLinked(s, b, true);
    var s1, f, h := Put(s, b, TdOf(s, b), true).store, Starting(s, b), b.header.height + 1;
    [Disk(s, f), Disk(s1, f), Disk(s1, Ending(f))] + RewriteWrites(s1, Ending(f), h, b.header.parent)
  }

  ghost function RewriteWrites(s: Store, f: RecoveryPoint, h: nat, a: Hash): seq<Disk>
    requires Linked(s.headers)
  {
    var cut := s.(canon := DeleteLarger(s.headers, s.canon, h).canon);
    LargerWrites(s, f, h, true) + StaleWrites(cut, f.(largerHeight := 0), a, true)
  }

  /** The stores on the way of taking back a block that was being put. */
  ghost function UndoHead(d: Disk): Store {
    if d.rp.previousHead != EMPTY_HASH then d.store.(head := d.rp.previousHead) else d.store
  }

  ghost function UndoMap(d: Disk): Store {
    if d.rp.writingHeight > 0 && d.rp.previousCanonical != EMPTY_HASH
    then UndoHead(d).(canon := UndoHead(d).canon[d.rp.writingHeight := d.rp.previousCanonical]) else UndoHead(d)
  }

  ghost function UndoWrites(d: Disk): seq<Disk> {
    Noted(d.rp.previousHead != EMPTY_HASH, UndoHead(d), d.rp) +
    Noted(d.rp.writingHeight > 0 && d.rp.previousCanonical != EMPTY_HASH, UndoMap(d), d.rp) +
    Noted(d.rp.writingHash != EMPTY_HASH, Undo(d), d.rp)
  }

  /** The writes of recover before it clears the record: the record file stays as it is all the while. */
  ghost function RecoverWrites(d: Disk): seq<Disk>
    requires Linked(d.store.headers)
  {
    UndoWrites(d) + if d.rp.writingHash != EMPTY_HASH then [] else ResumeWrites(Undo(d), d.rp)
  }

  ghost function ResumeWrites(s: Store, f: RecoveryPoint): seq<Disk>
    requires Linked(s.headers)
  {
    var cut := if f.largerHeight > 0 then s.(canon := DeleteLarger(s.headers, s.canon, f.largerHeight).canon) else s;
    (if f.largerHeight > 0 then LargerWrites(s, f, f.largerHeight, false) else []) +
    if f.staleHash != EMPTY_HASH then StaleWrites(cut, f, f.staleHash, false) else []
  }

  // ---------- the log grows by what is left to write ----------

  lemma Joined(a: seq<Disk>, b: seq<Disk>, c: seq<Disk>)
    ensures (a + b) + c == a + (b + c)
  {
  }

  lemma DeleteTurn(s: Store, f: RecoveryPoint, i: nat, record: bool, log: seq<Disk>)
    ensures var f' := if record then f.(largerHeight := i) else f;
      var noted := log + Noted(record, s, f');
      var s' := s.(canon := s.canon - {i});
      log + DeleteWrites(s, f, i, record) ==
        if i !in s.canon then noted + Noted(record, s, f'.(largerHeight := 0))
        else if s.canon[i] !in s.headers then noted
        else (noted + [Disk(s', f')]) + DeleteWrites(s', f', i + 1, record)
  {
  }

  lemma OverwriteTurn(s: Store, f: RecoveryPoint, stale: Hash, record: bool, log: seq<Disk>)
    requires Linked(s.headers) && stale != EMPTY_HASH
    ensures var f' := if record then f.(staleHash := stale) else f;
      var noted, all := log + Noted(record, s, f'), log + OverwriteWrites(s, f, stale, record);
      var r := OverwriteSingle(s.headers, s.canon, stale);
      && (r.Failed? ==> all == noted)
      && (r.Unchanged? ==> all == noted + Noted(record, s, f'.(staleHash := EMPTY_HASH)))
      && (r.Overwritten? ==>
            var s' := s.(canon := r.canon);
            all == (noted + [Disk(s', f')]) + OverwriteWrites(s', f', r.previous, record))
  {
  }

  lemma StaleTurn(s: Store, f: RecoveryPoint, hash: Hash, record: bool, log: seq<Disk>)
    requires Linked(s.headers)
    ensures var all := log + StaleWrites(s, f, hash, record);
      var r := OverwriteSingle(s.headers, s.canon, hash);
      && (r.Failed? ==> all == log)
      && (r.Unchanged? ==> all == log + OverwriteWrites(s, f, r.previous, record))
      && (r.Overwritten? ==>
            var s' := s.(canon := r.canon);
            all == (log + [Disk(s', f)]) + OverwriteWrites(s', f, r.previous, record))
  {
  }

  lemma ResumeWritesJoined(s: Store, f: RecoveryPoint, before: seq<Disk>, mid: seq<Disk>, after: seq<Disk>, cut: Store)
    requires Linked(s.headers)
    requires f.largerHeight == 0 ==> mid == before && cut == s
    requires f.largerHeight > 0 ==>
      && mid == before + LargerWrites(s, f, f.largerHeight, false)
      && cut == s.(canon := DeleteLarger(s.headers, s.canon, f.largerHeight).canon)
    requires f.staleHash == EMPTY_HASH ==> after == mid
    requires f.staleHash != EMPTY_HASH ==> after == mid + StaleWrites(cut, f, f.staleHash, false)
    ensures after == before + ResumeWrites(s, f)
  {
    var first := if f.largerHeight > 0 then LargerWrites(s, f, f.largerHeight, false) else [];
    var rest := if f.staleHash != EMPTY_HASH then StaleWrites(cut, f, f.staleHash, false) else [];
    assert ResumeWrites(s, f) == first + rest;
    assert mid == before + first && after == mid + rest;
    Joined(before, first, rest);
  }

  lemma RecoverWritesJoined(d: Disk, before: seq<Disk>, undone: Store, after: seq<Disk>)
    requires Linked(d.store.headers) && undone == Undo(d)
    requires d.rp.writingHash != EMPTY_HASH ==> after == before + UndoWrites(d)
    requires d.rp.writingHash == EMPTY_HASH ==> after == (before + UndoWrites(d)) + ResumeWrites(undone, d.rp)
    ensures after == before + RecoverWrites(d)
  {
  }

  // ---------- the writes of a deletion ----------

  /** Every crash state of a recorded deletion: the heights up to the recorded one are gone, that one perhaps too. */
  lemma {:induction false} DeleteWritesMid(s0: Store, f0: RecoveryPoint, h: nat, top: nat, s: Store, f: RecoveryPoint,
                                           i: nat, j: nat)
    requires Deletable(s0, h, top) && h < i <= top + 1 && s == s0.(canon := Cut(s0.canon, h, i))
    requires f == f0.(largerHeight := f.largerHeight) && j < |DeleteWrites(s, f, i, true)|
    ensures MidDelete(DeleteWrites(s, f, i, true)[j], s0, f0, h, top)
    decreases j
  {
    CutStep(s0, h, top, i);
    if i in s.canon && j >= 2 {
      var s', f' := s.(canon := s.canon - {i}), f.(largerHeight := i);
      assert DeleteWrites(s, f, i, true)[j] == DeleteWrites(s', f', i + 1, true)[j - 2];
      DeleteWritesMid(s0, f0, h, top, s', f', i + 1, j - 2);
    }
  }

  lemma LargerWritesMid(s: Store, f: RecoveryPoint, h: nat, top: nat, j: nat)
    requires Deletable(s, h, top) && f.largerHeight == h && j < |LargerWrites(s, f, h, true)|
    ensures MidDelete(LargerWrites(s, f, h, true)[j], s, f, h, top)
  {
    CutStep(s, h, top, h);
    var s' := s.(canon := Cut(s.canon, h, h + 1));
    if h !in s.canon {
      assert s'.canon == s.canon;
      DeleteWritesMid(s, f, h, top, s', f, h + 1, j);
    } else if j > 0 {
      DeleteWritesMid(s, f, h, top, s', f, h + 1, j - 1);
    }
  }

  // ---------- the writes of an overwriting ----------

  /** A crash state of a recorded overwriting: the blocks down to the recorded one are in place, it perhaps too. */
  ghost predicate MidLaying(d: Disk, s: Store, f0: RecoveryPoint, tip: Hash, target: Heights) {
    && d.store == s.(canon := d.store.canon) && d.rp == f0.(staleHash := d.rp.staleHash)
    && if d.rp.staleHash == EMPTY_HASH then d.store.canon == target
       else exists canon :: LaidTo(s.headers, canon, d.rp.staleHash, tip, target, d.store.canon)
  }

  ghost predicate LaidTo(headers: Headers, canon: Heights, a: Hash, tip: Hash, target: Heights, c: Heights) {
    Laying(headers, canon, a, tip, target) && a in headers && (c == canon || c == canon[headers[a].height := a])
  }

  lemma {:induction false} OverwriteWritesMid(s0: Store, f0: RecoveryPoint, tip: Hash, target: Heights, s: Store,
                                              f: RecoveryPoint, x: Hash, j: nat)
    requires Laying(s0.headers, s.canon, x, tip, target) && s == s0.(canon := s.canon)
    requires f == f0.(staleHash := f.staleHash) && Linked(s.headers) && j < |OverwriteWrites(s, f, x, true)|
    ensures MidLaying(OverwriteWrites(s, f, x, true)[j], s0, f0, tip, target)
    decreases j
  {
    if x != EMPTY_HASH {
      LayOne(s0.headers, s.canon, x, tip, target);
      var f', w := f.(staleHash := x), OverwriteWrites(s, f, x, true);
      assert LaidTo(s0.headers, s.canon, x, tip, target, s.canon);
      assert LaidTo(s0.headers, s.canon, x, tip, target, s.canon[s0.headers[x].height := x]);
      var r := OverwriteSingle(s.headers, s.canon, x);
      if r.Overwritten? && j >= 2 {
        var s' := s.(canon := r.canon);
        assert w[j] == OverwriteWrites(s', f', r.previous, true)[j - 2];
        OverwriteWritesMid(s0, f0, tip, target, s', f', r.previous, j - 2);
      }
    }
  }

  lemma StaleWritesMid(s: Store, f: RecoveryPoint, a: Hash, tip: Hash, target: Heights, j: nat)
    requires a != EMPTY_HASH && Laying(s.headers, s.canon, a, tip, target) && f.staleHash == a
    requires Linked(s.headers) && j < |StaleWrites(s, f, a, true)|
    ensures MidLaying(StaleWrites(s, f, a, true)[j], s, f, tip, target)
  {
    LayOne(s.headers, s.canon, a, tip, target);
    var c := s.canon[s.headers[a].height := a];
    assert LaidTo(s.headers, s.canon, a, tip, target, c);
    match OverwriteSingle(s.headers, s.canon, a)
    case Unchanged(p) =>
      assert c == s.canon;
      OverwriteWritesMid(s, f, tip, target, s, f, p, j);
    case Overwritten(_, p) =>
      if j > 0 { OverwriteWritesMid(s, f, tip, target, s.(canon := c), f, p, j - 1); }
  }

  lemma LayingCrash(s: Store, f: RecoveryPoint, tip: Hash, target: Heights, d: Disk)
    requires Linked(s.headers) && Settled(f) && f.largerHeight == 0 && MidLaying(d, s, f, tip, target)
    ensures Completes(d, s.(canon := target))
  {
    if d.rp.staleHash != EMPTY_HASH {
      var canon :| LaidTo(s.headers, canon, d.rp.staleHash, tip, target, d.store.canon);
      LayOne(s.headers, canon, d.rp.staleHash, tip, target);
    }
  }

  // ---------- the writes of a block ----------

  /** After the third write of a block every restart completes the whole. */
  lemma RewriteWritesComplete(b: Block, s1: Store, cut: Heights, target: Heights, tip: Hash, top: nat, f: RecoveryPoint,
                              j: nat)
    requires Linked(s1.headers) && Deletable(s1, b.header.height + 1, top)
    requires cut == Below(s1.canon, b.header.height + 1)
    requires DeleteLarger(s1.headers, s1.canon, b.header.height + 1) == Rewrite(cut, true)
    requires b.header.parent != EMPTY_HASH && Laying(s1.headers, cut, b.header.parent, tip, target)
    requires Overwrite(s1.headers, cut, b.header.parent) == Rewrite(target, true)
    requires Settled(f) && f.largerHeight == b.header.height + 1 && f.staleHash == b.header.parent
    requires j < |RewriteWrites(s1, f, b.header.height + 1, b.header.parent)|
    ensures Completes(RewriteWrites(s1, f, b.header.height + 1, b.header.parent)[j], s1.(canon := target))
  {
    var h, a := b.header.height + 1, b.header.parent;
    var first := LargerWrites(s1, f, h, true);
    var s2, f2 := s1.(canon := cut), f.(largerHeight := 0);
    var rest := StaleWrites(s2, f2, a, true);
    assert RewriteWrites(s1, f, h, a) == first + rest;
    if j < |first| {
      LargerWritesMid(s1, f, h, top, j);
      DeleteCrash(b, s1, cut, target, top, f, first[j]);
    } else {
      StaleWritesMid(s2, f2, a, tip, target, j - |first|);
      LayingCrash(s2, f2, tip, target, rest[j - |first|]);
    }
  }

  lemma BlockWritesParts(s: Store, b: Block, s1: Store)
    requires Tree(s.headers) && Fits(s, b) && Put(s, b, TdOf(s, b), true) == Ok(s1) && Linked(s1.headers)
    ensures var f, h := Starting(s, b), b.header.height + 1;
      BlockWrites(s, b) ==
      [Disk(s, f), Disk(s1, f), Disk(s1, Ending(f))] + RewriteWrites(s1, Ending(f), h, b.header.parent)
  {
  }

  lemma BlockLog(s: Store, b: Block, s1: Store, log: seq<Disk>)
    requires Tree(s.headers) && Fits(s, b) && Put(s, b, TdOf(s, b), true) == Ok(s1) && Linked(s1.headers)
    ensures var f, h := Starting(s, b), b.header.height + 1;
      log + BlockWrites(s, b) == (log + [Disk(s, f), Disk(s1, f), Disk(s1, Ending(f))]) +
        RewriteWrites(s1, Ending(f), h, b.header.parent)
  {
    BlockWritesParts(s, b, s1);
  }

  /** The first two writes of a block are the record of what to undo and the batch; a restart after any later one
      completes the whole. */
  lemma BlockWritesComplete(s: Store, b: Block, j: nat)
    requires Valid(s) && Fits(s, b) && 2 <= j < |BlockWrites(s, b)|
    ensures Completes(BlockWrites(s, b)[j], Write(s, b).store)
  {
    var s1, cut, target, tip, top := WritePlan(s, b);
    BlockWritesParts(s, b, s1);
    var f := Ending(Starting(s, b));
    if j == 2 {
      EndCrash(b, s1, cut, target, top, Disk(s1, f));
    } else {
      RewriteWritesComplete(b, s1, cut, target, tip, top, f, j - 3);
    }
  }
}
