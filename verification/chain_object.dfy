/** The store with its recovery record, the functions that rewrite it, and the two chains that write through them. */
module ChainObject {
  import opened CanonicalChain
  import opened ChainWrites
  import opened ChainRecovery
  import opened ChainLog
  import opened SecondCrash

  /** The store, the record in memory and in its file. `trace` holds what was on disk after each write to the store
      or the record file: the states a crash can leave. */
  class ChainDatabase {
    var store: Store
    var rp: RecoveryPoint
    var file: RecoveryPoint
    var trace: seq<Disk>

    /** The trace ends with what is on disk now, and between two of its states there is one write. */
    ghost predicate Logged()
      reads this
    {
      Chronicle(trace) && trace[|trace| - 1] == Disk(store, file)
    }

    constructor (s: Store)
      ensures store == s && Idle(rp) && file == rp && trace == [Disk(s, file)] && Logged()
    {
      store := s;
      rp := RecoveryPoint(EMPTY_HASH, 0, EMPTY_HASH, EMPTY_HASH, 0, EMPTY_HASH);
      file := RecoveryPoint(EMPTY_HASH, 0, EMPTY_HASH, EMPTY_HASH, 0, EMPTY_HASH);
      trace := [Disk(s, RecoveryPoint(EMPTY_HASH, 0, EMPTY_HASH, EMPTY_HASH, 0, EMPTY_HASH))];
    }

    method Serialize()
      requires Logged()
      modifies this
      ensures Logged() && store == old(store) && rp == old(rp) && file == rp && trace == old(trace) + [Disk(store, rp)]
    {
      ChronicleGrows(trace, Disk(store, rp));
      file := rp;
      trace := trace + [Disk(store, file)];
    }

    /** A write to the store is one atomic batch: one height and one block at most, and the head. */
    method Commit(s: Store, ghost k: nat, ghost h: Hash)
      requires Logged() && Touches(store, s, k, h)
      modifies this
      ensures Logged() && store == s && rp == old(rp) && file == old(file) && trace == old(trace) + [Disk(s, file)]
    {
      ChronicleGrows(trace, Disk(s, file));
      store := s;
      trace := trace + [Disk(store, file)];
    }

    /** The process dies: what an earlier write left on disk is all there is, and the record is read back from it. */
    method CrashAt(at: nat)
      requires Logged() && at < |trace|
      modifies this
      ensures Logged() && store == old(trace)[at].store && file == old(trace)[at].rp && rp == file
      ensures trace == old(trace)[..at + 1]
    {
      ChroniclePrefix(trace, at);
      store, file, rp := trace[at].store, trace[at].rp, trace[at].rp;
      trace := trace[..at + 1];
    }

    method OnPutBlockStart(b: Block)
      requires Logged()
      modifies this
      ensures Logged() && store == old(store) && rp == Starting(store, b) && file == rp
      ensures trace == old(trace) + [Disk(store, rp)]
    {
      var h := b.header.height;
      var previous := if h in store.canon then store.canon[h] else EMPTY_HASH;
      rp := RecoveryPoint(b.hash, h, previous, store.head, h + 1, b.header.parent);
      Serialize();
    }

    method OnPutBlockEnd()
      requires Logged()
      modifies this
      ensures Logged() && store == old(store) && rp == Ending(old(rp)) && file == rp
      ensures trace == old(trace) + [Disk(store, rp)]
    {
      rp := rp.(previousHead := EMPTY_HASH, writingHeight := 0, previousCanonical := EMPTY_HASH,
                writingHash := EMPTY_HASH);
      Serialize();
    }

    method OnDeleteLargerHeightBlocks(height: nat)
      requires Logged()
      modifies this
      ensures Logged() && store == old(store) && rp == old(rp).(largerHeight := height) && file == rp
      ensures trace == old(trace) + [Disk(store, rp)]
    {
      rp := rp.(largerHeight := height);
      Serialize();
    }

    method OnOverwriteStaleBlocks(hash: Hash)
      requires Logged()
      modifies this
      ensures Logged() && store == old(store) && rp == old(rp).(staleHash := hash) && file == rp
      ensures trace == old(trace) + [Disk(store, rp)]
    {
      rp := rp.(staleHash := hash);
      Serialize();
    }

    /** deleteCanonicalBlock */
    method DeleteCanonicalBlock(height: nat) returns (deleted: bool, ok: bool)
      requires Logged()
      modifies this
      ensures Logged() && rp == old(rp) && file == old(file)
      ensures ok <==> height in old(store.canon) ==> old(store.canon[height] in store.headers)
      ensures deleted <==> ok && height in old(store.canon)
      ensures deleted ==>
        store == old(store).(canon := old(store.canon) - {height}) && trace == old(trace) + [Disk(store, file)]
      ensures !deleted ==> store == old(store) && trace == old(trace)
    {
      if height !in store.canon {
        return false, true;
      }
      if store.canon[height] !in store.headers {
        return false, false;
      }
      Commit(store.(canon := store.canon - {height}), height, EMPTY_HASH);
      return true, true;
    }

    /** One turn of the loop: note the height, then delete it. `goal` is the log at the end of the loop. */
    method DeleteNext(i: nat, record: bool, ghost goal: seq<Disk>) returns (deleted: bool, ok: bool)
      requires Logged() && (record ==> rp == file) && trace + DeleteWrites(store, file, i, record) == goal
      modifies this
      ensures Logged()
      ensures ok <==> i in old(store.canon) ==> old(store.canon[i] in store.headers)
      ensures deleted <==> ok && i in old(store.canon)
      ensures store == old(store).(canon := if deleted then old(store.canon) - {i} else old(store.canon))
      ensures if record then rp == file && rp == old(rp).(largerHeight := i) else rp == old(rp) && file == old(file)
      ensures !ok ==> trace == goal
      ensures deleted ==> trace + DeleteWrites(store, file, i + 1, record) == goal
      ensures ok && !deleted ==> trace + Noted(record, store, file.(largerHeight := 0)) == goal
    {
      DeleteTurn(store, file, i, record, trace);
      if record {
        OnDeleteLargerHeightBlocks(i);
      }
      assert trace == old(trace) + Noted(record, store, file);
      deleted, ok := DeleteCanonicalBlock(i);
    }

    /** DeleteLargerHeightBlocks; the record is kept up to date unless there is none (`record` is false). */
    method DeleteLargerHeightBlocks(h: nat, record: bool) returns (ok: bool)
      requires Logged() && (record ==> file == rp)
      modifies this
      ensures Logged() && trace == old(trace) + LargerWrites(old(store), old(file), h, record)
      ensures var r := DeleteLarger(old(store.headers), old(store.canon), h);
        store == old(store).(canon := r.canon) && ok == r.ok
      ensures if record then file == rp && rp == old(rp).(largerHeight := if ok then 0 else rp.largerHeight)
              else rp == old(rp) && file == old(file)
    {
      ghost var s, goal := store, trace + LargerWrites(store, file, h, record);
      var deleted;
      deleted, ok := DeleteCanonicalBlock(h);
      if !ok {
        return;
      }
      ghost var spec := DeleteLarger(s.headers, s.canon, h);
      var i: nat := h + 1;
      deleted := true;
      while deleted
        invariant Logged() && ok && store == s.(canon := store.canon)
        invariant spec == if deleted then DeleteFrom(s.headers, store.canon, i) else Rewrite(store.canon, true)
        invariant if record then rp == file && rp == old(rp).(largerHeight := rp.largerHeight)
                  else rp == old(rp) && file == old(file)
        invariant deleted ==> trace + DeleteWrites(store, file, i, record) == goal
        invariant !deleted ==> trace + Noted(record, store, file.(largerHeight := 0)) == goal
        decreases store.canon.Keys, deleted
      {
        deleted, ok := DeleteNext(i, record, goal);
        if !ok {
          return;
        }
        i := i + 1;
      }
      if record {
        OnDeleteLargerHeightBlocks(0);
      }
    }

    /** overwriteSingleStaleBlock */
    method OverwriteSingleStaleBlock(hash: Hash) returns (overwritten: bool, previous: Hash, ok: bool)
      requires Logged()
      modifies this
      ensures Logged() && rp == old(rp) && file == old(file)
      ensures match OverwriteSingle(old(store.headers), old(store.canon), hash)
        case Failed => !ok && !overwritten
        case Unchanged(p) => ok && !overwritten && previous == p
        case Overwritten(canon, p) => ok && overwritten && previous == p && store == old(store).(canon := canon)
      ensures overwritten ==> trace == old(trace) + [Disk(store, file)]
      ensures !overwritten ==> store == old(store) && trace == old(trace)
    {
      if hash !in store.headers {
        return false, EMPTY_HASH, false;
      }
      var header := store.headers[hash];
      if header.height in store.canon {
        if store.canon[header.height] == hash {
          return false, header.parent, true;
        }
        if store.canon[header.height] !in store.headers {
          return false, EMPTY_HASH, false;
        }
      }
      Commit(store.(canon := store.canon[header.height := hash]), header.height, EMPTY_HASH);
      return true, header.parent, true;
    }

    /** One turn of the loop: note the block, then overwrite its height. `goal` is the log at the end of the loop. */
    method OverwriteNext(stale: Hash, record: bool, ghost goal: seq<Disk>)
      returns (overwritten: bool, previous: Hash, ok: bool)
      requires Logged() && (record ==> rp == file) && stale != EMPTY_HASH && Linked(store.headers)
      requires trace + OverwriteWrites(store, file, stale, record) == goal
      modifies this
      ensures Logged()
      ensures match OverwriteSingle(old(store.headers), old(store.canon), stale)
        case Failed => !ok && !overwritten
        case Unchanged(p) => ok && !overwritten && previous == p
        case Overwritten(canon, p) => ok && overwritten && previous == p && store == old(store).(canon := canon)
      ensures !overwritten ==> store == old(store)
      ensures if record then rp == file && rp == old(rp).(staleHash := stale) else rp == old(rp) && file == old(file)
      ensures !ok ==> trace == goal
      ensures overwritten ==>
        Linked(store.headers) && trace + OverwriteWrites(store, file, previous, record) == goal
      ensures ok && !overwritten ==> trace + Noted(record, store, file.(staleHash := EMPTY_HASH)) == goal
    {
      OverwriteTurn(store, file, stale, record, trace);
      if record {
        OnOverwriteStaleBlocks(stale);
      }
      assert trace == old(trace) + Noted(record, store, file);
      overwritten, previous, ok := OverwriteSingleStaleBlock(stale);
    }

    /** The loop of OverwriteStaleBlocks, from the parent of the first block on. */
    method OverwriteRest(stale0: Hash, record: bool) returns (ok: bool)
      requires Logged() && Linked(store.headers) && (record ==> rp == file)
      modifies this
      ensures Logged() && trace == old(trace) + OverwriteWrites(old(store), old(file), stale0, record)
      ensures var r := OverwriteFrom(old(store.headers), old(store.canon), stale0);
        store == old(store).(canon := r.canon) && ok == r.ok
      ensures if record then file == rp && rp == old(rp).(staleHash := if ok then EMPTY_HASH else rp.staleHash)
              else rp == old(rp) && file == old(file)
    {
      ghost var s, goal := store, trace + OverwriteWrites(store, file, stale0, record);
      ghost var spec := OverwriteFrom(s.headers, s.canon, stale0);
      var overwritten, stale := true, stale0;
      ok := true;
      while overwritten && stale != EMPTY_HASH
        invariant Logged() && ok && store == s.(canon := store.canon)
        invariant spec
                  == if overwritten then OverwriteFrom(s.headers, store.canon, stale) else Rewrite(store.canon, true)
        invariant if record then rp == file && rp == old(rp).(staleHash := rp.staleHash)
                  else rp == old(rp) && file == old(file)
        invariant overwritten ==> trace + OverwriteWrites(store, file, stale, record) == goal
        invariant !overwritten ==> trace + Noted(record, store, file.(staleHash := EMPTY_HASH)) == goal
        decreases HeightOf(s.headers, stale) + 1, overwritten
      {
        assert stale in s.headers ==> LinkedAt(s.headers, stale);
        overwritten, stale, ok := OverwriteNext(stale, record, goal);
        if !ok {
          return;
        }
      }
      if record {
        OnOverwriteStaleBlocks(EMPTY_HASH);
      }
    }

    /** OverwriteStaleBlocks; the record is kept up to date unless there is none (`record` is false). */
    method OverwriteStaleBlocks(hash: Hash, record: bool) returns (ok: bool)
      requires Logged() && Linked(store.headers) && (record ==> file == rp)
      modifies this
      ensures Logged() && trace == old(trace) + StaleWrites(old(store), old(file), hash, record)
      ensures var r := Overwrite(old(store.headers), old(store.canon), hash);
        store == old(store).(canon := r.canon) && ok == r.ok
      ensures if record then file == rp && rp == old(rp).(staleHash := if ok then EMPTY_HASH else rp.staleHash)
              else rp == old(rp) && file == old(file)
    {
      StaleTurn(store, file, hash, record, trace);
      var overwritten, stale;
      overwritten, stale, ok := OverwriteSingleStaleBlock(hash);
      if !ok {
        return;
      }
      ok := OverwriteRest(stale, record);
    }

    /** The block enters the store between two writes of the record. */
    method PutPhase(b: Block)
      requires Logged() && Fits(store, b) && Put(store, b, TdOf(store, b), true).Ok?
      modifies this
      ensures Logged()
      ensures var s, s1, rp0 := old(store), Put(old(store), b, TdOf(old(store), b), true).store,
        Starting(old(store), b);
        && store == s1 && rp == Ending(rp0) && file == rp
        && trace == old(trace) + [Disk(s, rp0), Disk(s1, rp0), Disk(s1, rp)]
    {
      var td := TdOf(store, b);
      OnPutBlockStart(b);
      Commit(Put(store, b, td, true).store, b.header.height, b.hash);
      OnPutBlockEnd();
    }

    /** The map is rewritten. */
    method RewritePhase(b: Block, ghost cut: Heights, ghost target: Heights) returns (ok: bool)
      requires Logged() && Linked(store.headers) && Settled(rp) && file == rp
      requires DeleteLarger(store.headers, store.canon, b.header.height + 1) == Rewrite(cut, true)
      requires Overwrite(store.headers, cut, b.header.parent) == Rewrite(target, true)
      modifies this
      ensures Logged() && ok && store == old(store).(canon := target) && Idle(rp) && file == rp
      ensures trace == old(trace) + RewriteWrites(old(store), old(file), b.header.height + 1, b.header.parent)
    {
      ok := DeleteLargerHeightBlocks(b.header.height + 1, true);
      ok := OverwriteStaleBlocks(b.header.parent, true);
    }

    /** doWriteBlock: record, put the block, clear the record, then rewrite the map. */
    method WriteBlock(b: Block) returns (ok: bool)
      requires Logged() && Valid(store) && Idle(rp) && file == rp
      modifies this
      ensures ok <==> Fits(old(store), b)
      ensures Logged() && store == Write(old(store), b).store && Valid(store) && Idle(rp) && file == rp
      ensures trace == if ok then old(trace) + BlockWrites(old(store), b) else old(trace)
    {
      ghost var s := store;
      WriteKeeps(s, b);
      if !Fits(store, b) {
        return false;
      }
      ghost var s1, cut, target, tip, top := WritePlan(s, b);
      BlockLog(s, b, s1, trace);
      PutPhase(b);
      ok := RewritePhase(b, cut, target);
    }

    /** The first part of recover: take back a block that was being put. */
    method UndoPut() returns (saved: bool)
      requires Logged() && rp == file
      modifies this
      ensures Logged() && file == old(file) && store == Undo(Disk(old(store), old(file)))
      ensures saved <==> file.writingHash == EMPTY_HASH
      ensures Settled(rp) && rp.largerHeight == file.largerHeight && rp.staleHash == file.staleHash
      ensures trace == old(trace) + UndoWrites(Disk(old(store), old(file)))
    {
      saved := true;
      if rp.previousHead != EMPTY_HASH {
        Commit(store.(head := rp.previousHead), 0, EMPTY_HASH);
        rp := rp.(previousHead := EMPTY_HASH);
      }
      if rp.writingHeight > 0 && rp.previousCanonical != EMPTY_HASH {
        Commit(store.(canon := store.canon[rp.writingHeight := rp.previousCanonical]), rp.writingHeight, EMPTY_HASH);
        rp := rp.(previousCanonical := EMPTY_HASH);
      }
      if rp.writingHash != EMPTY_HASH {
        Commit(store.(headers := store.headers - {rp.writingHash}, tds := store.tds - {rp.writingHash}), 0,
               rp.writingHash);
        rp := rp.(writingHash := EMPTY_HASH);
        saved := false;
      }
    }

    /** The second part of recover: go on with the two loops. */
    method ResumeLoops()
      requires Logged() && Linked(store.headers)
      requires rp.largerHeight == file.largerHeight && rp.staleHash == file.staleHash
      modifies this
      ensures Logged() && store == Resume(old(store), old(file).largerHeight, old(file).staleHash)
      ensures file == old(file) && rp == old(rp) && trace == old(trace) + ResumeWrites(old(store), old(file))
    {
      if rp.largerHeight > 0 {
        var _ := DeleteLargerHeightBlocks(rp.largerHeight, false);
      }
      ghost var mid, cut := trace, store;
      if rp.staleHash != EMPTY_HASH {
        var _ := OverwriteStaleBlocks(rp.staleHash, false);
      }
      ResumeWritesJoined(old(store), file, old(trace), mid, trace, cut);
    }

    /** recover, run on a restart with the record read back from its file. */
    method Restart()
      requires Logged() && Linked(store.headers)
      modifies this
      ensures Logged() && store == Recover(Disk(old(store), old(file))) && Idle(rp) && file == rp
      ensures trace == old(trace) + RecoverWrites(Disk(old(store), old(file))) + [Disk(store, file)]
    {
      rp := file;
      var saved := UndoPut();
      ghost var undone := store;
      if saved {
        ResumeLoops();
      }
      RecoverWritesJoined(Disk(old(store), old(file)), old(trace), undone, trace);
      rp := rp.(largerHeight := 0, staleHash := EMPTY_HASH);
      Serialize();
    }
  }

  /** Write a block and crash right after write number `n` of those to the disk. */
  method WriteAndCrash(db: ChainDatabase, b: Block, n: nat)
    requires db.Logged() && Valid(db.store) && Idle(db.rp) && db.file == db.rp && Fits(db.store, b)
    requires n < |BlockWrites(db.store, b)|
    modifies db
    ensures db.Logged() && db.rp == db.file && Disk(db.store, db.file) == BlockWrites(old(db.store), b)[n]
  {
    var at := |db.trace| + n;
    var _ := db.WriteBlock(b);
    db.CrashAt(at);
  }

  /** Restart and crash right after write number `k` of those to the disk, or after the last one if there are fewer. */
  method RestartAndCrash(db: ChainDatabase, k: nat)
    requires db.Logged() && Linked(db.store.headers)
    modifies db
    ensures db.Logged() && db.rp == db.file
    ensures var d := Disk(old(db.store), old(db.file));
      if k < |RecoverWrites(d)| then Disk(db.store, db.file) == RecoverWrites(d)[k]
      else db.store == Recover(d) && Idle(db.rp)
  {
    var m := |db.trace|;
    db.Restart();
    db.CrashAt(if m + k < |db.trace| then m + k else |db.trace| - 1);
  }

  /** Write a block, crash after write number `n` to the disk, and restart: from the third write on the block is
      written as without the crash, before that it is rolled back. */
  method CrashAndRestart(db: ChainDatabase, b: Block, n: nat)
    requires db.Logged() && Valid(db.store) && Idle(db.rp) && db.file == db.rp && Fits(db.store, b)
    requires n < |BlockWrites(db.store, b)|
    modifies db
    ensures db.Logged() && Idle(db.rp) && db.file == db.rp
    ensures n >= 2 ==> db.store == Write(old(db.store), b).store
    ensures n < 2 ==> RolledBack(db.store, old(db.store), b, n == 0)
  {
    BlockCrash(db.store, b, n);
    WriteAndCrash(db, b, n);
    db.Restart();
  }

  /** What one restart makes of a write that crashed. */
  lemma BlockCrash(s: Store, b: Block, n: nat)
    requires Valid(s) && Fits(s, b) && n < |BlockWrites(s, b)|
    ensures Linked(BlockWrites(s, b)[n].store.headers)
    ensures var r := Recover(BlockWrites(s, b)[n]);
      if n >= 2 then r == Write(s, b).store else RolledBack(r, s, b, n == 0)
  {
    if n >= 2 {
      BlockWritesComplete(s, b, n);
    } else {
      PutSucceeds(s, b);
      PutCrashes(s, b, Put(s, b, TdOf(s, b), true).store);
    }
  }

  /** What the next restart makes of it if the first one crashes too, after its write k. */
  lemma BlockCrashTwice(s: Store, b: Block, n: nat, k: nat, e: Disk)
    requires Valid(s) && Fits(s, b) && n < |BlockWrites(s, b)| && Linked(BlockWrites(s, b)[n].store.headers)
    requires var d := BlockWrites(s, b)[n];
      if k < |RecoverWrites(d)| then e == RecoverWrites(d)[k] else e.store == Recover(d) && Idle(e.rp)
    ensures Linked(e.store.headers)
    ensures n < 2 ==> RolledBack(Recover(e), s, b, n == 0)
    ensures n >= 2 ==>
      (Recover(e) == Write(s, b).store <==> k >= |RecoverWrites(BlockWrites(s, b)[n])| || Found(e))
  {
    var d := BlockWrites(s, b)[n];
    BlockCrash(s, b, n);
    LinkedWithout(d.store.headers, d.rp.writingHash);
    if k < |RecoverWrites(d)| {
      if n >= 2 {
        WriteTwice(s, b, n, k);
      } else {
        UndoTwice(d, k);
      }
    }
  }

  /** The same with two crashes, the second one after write number `k` of the restart: a rollback is as before, and a
      write is completed exactly if the restart was through or the next one finds what is left to do. */
  method CrashTwiceAndRestart(db: ChainDatabase, b: Block, n: nat, k: nat) returns (ghost e: Disk)
    requires db.Logged() && Valid(db.store) && Idle(db.rp) && db.file == db.rp && Fits(db.store, b)
    requires n < |BlockWrites(db.store, b)|
    modifies db
    ensures db.Logged() && Idle(db.rp) && db.file == db.rp
    ensures Linked(BlockWrites(old(db.store), b)[n].store.headers)
    ensures k < |RecoverWrites(BlockWrites(old(db.store), b)[n])| ==>
      e == RecoverWrites(BlockWrites(old(db.store), b)[n])[k]
    ensures n < 2 ==> RolledBack(db.store, old(db.store), b, n == 0)
    ensures n >= 2 ==>
      (db.store == Write(old(db.store), b).store <==>
       k >= |RecoverWrites(BlockWrites(old(db.store), b)[n])| || Found(e))
  {
    ghost var s := db.store;
    BlockCrash(s, b, n);
    WriteAndCrash(db, b, n);
    RestartAndCrash(db, k);
    e := Disk(db.store, db.file);
    BlockCrashTwice(s, b, n, k, e);
    db.Restart();
  }

  /** The light chain writes headers through the same functions, without a record. */
  class LightChain {
    const db: ChainDatabase
    var canonicalTd: int
    var currentHeader: Hash

    ghost function View(): Light
      reads this, db
    {
      Light(db.store, canonicalTd)
    }

    ghost predicate Inv()
      reads this, db
    {
      db.Logged() && LightValid(View()) && currentHeader == db.store.head
    }

    constructor (d: ChainDatabase)
      requires d.Logged() && Valid(d.store) && HeadBest(d.store)
      ensures db == d && Inv() && db.store == old(d.store)
    {
      db := d;
      canonicalTd, currentHeader := d.store.tds[d.store.head], d.store.head;
    }

    method WriteHeader(b: Block) returns (ok: bool)
      requires Inv()
      modifies this, db
      ensures Inv() && View() == ChainWrites.WriteHeader(old(View()), b)
      ensures ok <==> Fits(old(db.store), b)
    {
      ghost var l := View();
      WriteHeaderKeeps(l, b);
      if !Fits(db.store, b) {
        return false;
      }
      var td := TdOf(db.store, b);
      var isHead := td > canonicalTd;
      PutLinked(l.store, b, isHead);
      if isHead { PutSucceeds(l.store, b); }
      db.Commit(Put(db.store, b, td, isHead).store, b.header.height, b.hash);
      if !isHead {
        return true;
      }
      RewriteCanonical(l.store, b, db.store);
      ok := BecomeHead(b);
      canonicalTd := td;
      currentHeader := b.hash;
    }

    /** The map is rewritten for a new head. */
    method BecomeHead(b: Block) returns (ok: bool)
      requires db.Logged() && Linked(db.store.headers) && Rewritten(db.store, b).Ok?
      modifies db
      ensures db.Logged() && ok && db.store == Rewritten(old(db.store), b).store
    {
      ok := db.DeleteLargerHeightBlocks(b.header.height + 1, false);
      ok := db.OverwriteStaleBlocks(b.header.parent, false);
    }
  }
}
