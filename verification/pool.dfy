/** The object pool: admission, replacement, eviction and scheduling. */
module ObjectPool {
  import opened Options
  import opened TxCollections
  import opened PendingQueues

  datatype AddResult = Added | HashExists | Invalid | NonceUsed | PoolFull

  type Objects = map<Hash, Item>

  predicate Held(m: Objects, it: Item) {
    it.hash in m && m[it.hash] == it
  }

  /** Every pending object is in the pool under its own hash. */
  ghost predicate PendingIn(v: Pending, m: Objects) {
    forall a: Address, n: nat {:trigger v[a][n]} :: a in v && n in v[a] ==> Held(m, v[a][n])
  }

  function HashesOf(txs: Txs): set<Hash> {
    set n | n in txs :: txs[n].hash
  }

  lemma MapSize(m: Objects, h: Hash, x: Item)
    ensures |m - {h}| == if h in m then |m| - 1 else |m|
    ensures |m[h := x]| == if h in m then |m| else |m| + 1
  {
    assert (m - {h}).Keys == m.Keys - {h};
    assert m[h := x].Keys == m.Keys + {h};
  }

  lemma Shrinks(m: Objects, s: set<Hash>, h: Hash)
    requires h in s && h in m
    ensures |m - s| < |m|
  {
    assert (m - s).Keys <= m.Keys - {h};
    SubsetSize((m - s).Keys, m.Keys - {h});
  }

  lemma SubsetSize(a: set<Hash>, b: set<Hash>)
    requires a <= b
    ensures |a| <= |b|
  {
    assert a + (b - a) == b && a * (b - a) == {};
  }

  // ---------- what removal and replacement keep ----------

  /** Removing an object by hash takes its account and nonce out of the queue: no pending object loses its entry. */
  lemma RemoveKeeps(v: Pending, m: Objects, h: Hash)
    requires WellFormed(v) && PendingIn(v, m) && h in m
    ensures PendingIn(ViewRemove(v, m[h].account, m[h].nonce), m - {h})
  {
    var v' := ViewRemove(v, m[h].account, m[h].nonce);
    forall a: Address, n: nat | a in v' && n in v'[a] ensures Held(m - {h}, v'[a][n]) {
      assert a in v && n in v[a] && v'[a][n] == v[a][n];
      assert FormedAt(v, a);
    }
  }

  /** Replacing the object of a pending nonce is the same as overwriting it. */
  lemma ReplaceView(v: Pending, it: Item)
    ensures ViewAdd(ViewRemove(v, it.account, it.nonce), it) == ViewAdd(v, it)
  {
    var a := it.account;
    var w := ViewRemove(v, a, it.nonce);
    if a in v && it.nonce in v[a] {
      assert (if a in w then w[a] else map[])[it.nonce := it] == v[a][it.nonce := it];
    }
  }

  lemma AddKeeps(v: Pending, m: Objects, it: Item)
    requires PendingIn(v, m) && it.hash !in m
    ensures PendingIn(ViewAdd(v, it), m[it.hash := it])
  {
    var v' := ViewAdd(v, it);
    forall a: Address, n: nat | a in v' && n in v'[a] ensures Held(m[it.hash := it], v'[a][n]) {
      if !(a == it.account && n == it.nonce) {
        assert a in v && n in v[a] && v'[a][n] == v[a][n];
      }
    }
  }

  /** Evicting an account takes exactly its hashes out of the pool: the other accounts keep theirs. */
  lemma EvictKeeps(v: Pending, m: Objects, w: Address)
    requires WellFormed(v) && PendingIn(v, m) && w in v
    ensures PendingIn(v - {w}, m - HashesOf(v[w]))
  {
    var v', m' := v - {w}, m - HashesOf(v[w]);
    forall a: Address, n: nat | a in v' && n in v'[a] ensures Held(m', v'[a][n]) {
      assert v'[a][n] == v[a][n];
      assert FormedAt(v, a) && FormedAt(v, w);
      if v[a][n].hash in HashesOf(v[w]) {
        assert false;
      }
    }
  }

  // ---------- schedules ----------

  /** Each object taken is the best of what is then pending. */
  ghost predicate Schedule(v: Pending, txs: seq<Item>, v': Pending)
    decreases |txs|
  {
    if txs == [] then v' == v
    else IsBest(v, txs[0]) && Schedule(ViewRemove(v, txs[0].account, txs[0].nonce), txs[1..], v')
  }

  lemma {:induction false} ScheduleSnoc(v: Pending, txs: seq<Item>, v': Pending, tx: Item)
    requires Schedule(v, txs, v') && IsBest(v', tx)
    ensures Schedule(v, txs + [tx], ViewRemove(v', tx.account, tx.nonce))
    decreases |txs|
  {
    if txs == [] {
      assert [tx][1..] == [];
    } else {
      ScheduleSnoc(ViewRemove(v, txs[0].account, txs[0].nonce), txs[1..], v', tx);
      assert (txs + [tx])[1..] == txs[1..] + [tx];
    }
  }

  /** A scheduled object was pending at the start. */
  lemma {:induction false} ScheduledPending(v: Pending, txs: seq<Item>, v': Pending, i: nat)
    requires Schedule(v, txs, v') && i < |txs|
    ensures txs[i].account in v && txs[i].nonce in v[txs[i].account] && v[txs[i].account][txs[i].nonce] == txs[i]
    decreases |txs|
  {
    if i > 0 {
      ScheduledPending(ViewRemove(v, txs[0].account, txs[0].nonce), txs[1..], v', i - 1);
    }
  }

  /** The nonces of an account come in ascending order. */
  lemma {:induction false} ScheduleAscends(v: Pending, txs: seq<Item>, v': Pending, i: nat, j: nat)
    requires Schedule(v, txs, v') && i < j < |txs| && txs[i].account == txs[j].account
    ensures txs[i].nonce < txs[j].nonce
    decreases |txs|
  {
    var w := ViewRemove(v, txs[0].account, txs[0].nonce);
    if i == 0 {
      ScheduledPending(w, txs[1..], v', j - 1);
    } else {
      ScheduleAscends(w, txs[1..], v', i - 1, j - 1);
    }
  }

  function TotalSize(txs: seq<Item>): int {
    if txs == [] then 0 else TotalSize(txs[..|txs| - 1]) + txs[|txs| - 1].size
  }

  // ---------- the pool ----------

  class Pool {
    const capacity: nat
    const queue: PendingQueue
    var hashToTx: Objects
    var processing: set<Hash>

    ghost predicate Valid()
      reads this, queue
    {
      queue.Valid() && PendingIn(queue.View(), hashToTx) && |hashToTx| <= capacity
    }

    constructor (c: nat)
      ensures Valid() && fresh(queue) && capacity == c && hashToTx == map[] && queue.View() == map[]
    {
      capacity, hashToTx, processing := c, map[], {};
      queue := new PendingQueue();
    }

    /** doRemoveObject */
    method RemoveObject(h: Hash)
      requires Valid()
      modifies this, queue
      ensures Valid() && hashToTx == old(hashToTx) - {h}
      ensures h in old(hashToTx) ==>
        queue.View() == ViewRemove(old(queue.View()), old(hashToTx[h].account), old(hashToTx[h].nonce)) &&
          processing == old(processing) - {h}
      ensures h !in old(hashToTx) ==> queue.View() == old(queue.View()) && processing == old(processing)
    {
      if h in hashToTx {
        var tx := hashToTx[h];
        ViewWellFormed(queue.txs);
        RemoveKeeps(queue.View(), hashToTx, h);
        MapSize(hashToTx, h, tx);
        queue.Remove(tx.account, tx.nonce);
        processing := processing - {h};
        hashToTx := hashToTx - {h};
      } else {
        assert hashToTx - {h} == hashToTx;
      }
    }

    /** The loop of addObject that empties a discarded collection. */
    method ForgetAll(c0: Collection)
      requires CollectionOk(c0)
      modifies this`hashToTx
      ensures hashToTx == old(hashToTx) - HashesOf(c0.txs)
    {
      var c := c0;
      ghost var done: set<Hash> := {};
      assert hashToTx == old(hashToTx) - done;
      while c.txs != map[]
        invariant CollectionOk(c) && hashToTx == old(hashToTx) - done && done + HashesOf(c.txs) == HashesOf(c0.txs)
        decreases c.txs.Keys
      {
        ghost var txs := c.txs;
        var tx;
        c, tx := PopTx(c);
        ForgetOne(old(hashToTx), hashToTx, done, txs, tx.nonce, HashesOf(c0.txs));
        hashToTx := hashToTx - {tx.hash};
        done := done + {tx.hash};
      }
    }

    /** doAddObject */
    method DoAdd(obj: Item)
      requires Valid() && obj.hash !in hashToTx && |hashToTx| < capacity
      modifies this`hashToTx, queue
      ensures Valid() && hashToTx == old(hashToTx)[obj.hash := obj] && queue.View() == ViewAdd(old(queue.View()), obj)
    {
      AddKeeps(queue.View(), hashToTx, obj);
      MapSize(hashToTx, obj.hash, obj);
      hashToTx := hashToTx[obj.hash := obj];
      queue.Add(obj);
    }

    /** The eviction in addObject: make room by dropping the account of the worst object `it`, if that is cheaper. */
    method MakeRoom(price: int) returns (ok: bool, ghost it: Item)
      requires Valid() && |hashToTx| >= capacity
      modifies this`hashToTx, queue
      ensures Valid() && (ok ==> |hashToTx| < capacity)
      ensures !ok ==> hashToTx == old(hashToTx) && queue.View() == old(queue.View())
      ensures old(queue.View()) == map[] ==> !ok
      ensures old(queue.View()) != map[] ==> IsWorst(old(queue.View()), it) && (ok <==> it.price < price)
      ensures ok ==> Evicted(old(queue.View()), old(hashToTx), queue.View(), hashToTx, it.account)
    {
      ghost var v := queue.View();
      ViewWellFormed(queue.txs);
      var c := queue.Discard(price);
      it := WorstOf(v, queue.View(), c, price);
      if c.None? || c.value.txs == map[] {
        ok := false;
        return;
      }
      EvictKeeps(v, hashToTx, it.account);
      Shrinks(hashToTx, HashesOf(v[it.account]), it.hash);
      ForgetAll(c.value);
      ok := true;
    }

    /** addObject. The state checks of the source are the argument `valid`; `obj` carries the time it enters the
        pool. */
    method AddObject(obj: Item, valid: bool) returns (r: AddResult)
      requires Valid()
      modifies this, queue
      ensures Valid() && processing <= old(processing)
      ensures AddSpec(capacity, old(queue.View()), old(hashToTx), queue.View(), hashToTx, obj, valid, r)
      ensures valid && Outbids(old(queue.View()), old(hashToTx), obj) ==>
        r == Added && Replaced(old(queue.View()), old(hashToTx), queue.View(), hashToTx, obj)
    {
      if obj.hash in hashToTx {
        return HashExists;
      }
      if !valid {
        return Invalid;
      }
      var exist := queue.Get(obj.account, obj.nonce);
      if exist.Some? && obj.price <= exist.value.price {
        return NonceUsed;
      }
      if exist.Some? {
        ReplacedBy(queue.View(), hashToTx, obj);
        r := Replace(obj, exist.value);
      } else if |hashToTx| >= capacity {
        ghost var it;
        r, it := AddFull(obj);
      } else {
        DoAdd(obj);
        r := Added;
      }
    }

    /** addObject when the pool is full; `it` is the worst pending object. */
    method AddFull(obj: Item) returns (r: AddResult, ghost it: Item)
      requires Valid() && obj.hash !in hashToTx && |hashToTx| >= capacity
      modifies this, queue
      ensures Valid() && processing == old(processing)
      ensures old(queue.View()) != map[] ==> IsWorst(old(queue.View()), it)
      ensures AddFullSpec(old(queue.View()), old(hashToTx), queue.View(), hashToTx, obj, it, r)
    {
      var ok;
      ok, it := MakeRoom(obj.price);
      if !ok {
        return PoolFull, it;
      }
      EvictThenAdd(old(queue.View()), old(hashToTx), queue.View(), hashToTx, obj, it);
      DoAdd(obj);
      r := Added;
    }

    /** A validated object with a higher price replaces the pending one with its nonce; there is always room. */
    method Replace(obj: Item, exist: Item) returns (r: AddResult)
      requires Valid() && obj.hash !in hashToTx && IsPending(queue.View(), obj)
      requires queue.View()[obj.account][obj.nonce] == exist
      modifies this, queue
      ensures Valid() && r == Added && processing <= old(processing)
      ensures queue.View() == ViewAdd(old(queue.View()), obj)
      ensures hashToTx == (old(hashToTx) - {exist.hash})[obj.hash := obj]
    {
      ViewWellFormed(queue.txs);
      assert FormedAt(queue.View(), obj.account);
      ReplaceView(queue.View(), obj);
      MapSize(hashToTx, exist.hash, exist);
      RemoveObject(exist.hash);
      DoAdd(obj);
      return Added;
    }

    /** getProcessableObjects: take the best object while it fits the budget. */
    method GetProcessableObjects(size: int) returns (txs: seq<Item>, totalSize: int)
      requires Valid()
      modifies this`processing, queue
      ensures Valid() && hashToTx == old(hashToTx)
      ensures Schedule(old(queue.View()), txs, queue.View())
      ensures totalSize == TotalSize(txs) && (txs == [] || totalSize <= size)
      ensures queue.Top().None? || totalSize + queue.Top().value.size > size
      ensures processing == old(processing) + HashesIn(txs)
    {
      totalSize, txs := 0, [];
      ghost var v0, p0 := queue.View(), processing;
      var more := true;
      while more
        invariant Valid() && Scheduled(v0, p0, txs, queue.View(), processing, totalSize, size)
        invariant !more ==> queue.Top().None? || totalSize + queue.Top().value.size > size
        decreases Pairs(queue.View()), more
      {
        more, txs, totalSize := ScheduleNext(txs, totalSize, size, v0, p0);
      }
    }

    /** One turn of the loop: the best object joins the list, if it fits. */
    method ScheduleNext(txs0: seq<Item>, total0: int, size: int, ghost v0: Pending, ghost p0: set<Hash>)
      returns (more: bool, txs: seq<Item>, totalSize: int)
      requires Valid() && Scheduled(v0, p0, txs0, queue.View(), processing, total0, size)
      modifies this`processing, queue
      ensures Valid() && Scheduled(v0, p0, txs, queue.View(), processing, totalSize, size)
      ensures if more then Pairs(queue.View()) < Pairs(old(queue.View())) else queue.View() == old(queue.View())
      ensures !more ==> queue.Top().None? || totalSize + queue.Top().value.size > size
    {
      txs, totalSize := txs0, total0;
      ghost var v, p := queue.View(), processing;
      var next := TakeNext(totalSize, size);
      more := next.Some?;
      if more {
        ScheduleStep(v0, p0, txs, v, p, totalSize, size, next.value);
        totalSize := totalSize + next.value.size;
        txs := txs + [next.value];
      }
    }

    /** The best object leaves the queue, if it fits. */
    method TakeNext(totalSize: int, size: int) returns (r: Option<Item>)
      requires Valid()
      modifies this`processing, queue
      ensures Valid()
      ensures r.None? ==> queue.View() == old(queue.View()) && processing == old(processing)
      ensures r.None? ==> queue.Top().None? || totalSize + queue.Top().value.size > size
      ensures r.Some? ==> IsBest(old(queue.View()), r.value) && totalSize + r.value.size <= size
      ensures r.Some? ==>
        queue.View() == ViewRemove(old(queue.View()), r.value.account, r.value.nonce) &&
          processing == old(processing) + {r.value.hash}
    {
      ghost var v := queue.View();
      var next := queue.Top();
      if next.None? {
        return None;
      }
      if totalSize + next.value.size > size {
        return None;
      }
      assert !queue.Empty() by { EmptyHeap(queue.txs, queue.bestHeap); }
      var tx := queue.Pop();
      RemovePending(v, hashToTx, tx.account, tx.nonce);
      processing := processing + {tx.hash};
      return Some(tx);
    }
  }

  lemma PairsShrink(v: Pending, a: Address, n: nat)
    requires a in v && n in v[a]
    ensures Pairs(ViewRemove(v, a, n)) < Pairs(v)
  {
    var w := ViewRemove(v, a, n);
    forall x: Address, k: nat | (x, k) in Pairs(w) ensures (x, k) in Pairs(v) - {(a, n)} {
    }
    assert (a, n) in Pairs(v);
  }

  ghost function HashesIn(txs: seq<Item>): set<Hash> {
    if txs == [] then {} else HashesIn(txs[..|txs| - 1]) + {txs[|txs| - 1].hash}
  }

  /** What the loop of getProcessableObjects has taken so far. */
  ghost predicate Scheduled(v0: Pending, p0: set<Hash>, txs: seq<Item>, v: Pending, p: set<Hash>, total: int,
                            size: int)
  {
    && Schedule(v0, txs, v) && p == p0 + HashesIn(txs)
    && total == TotalSize(txs) && (txs == [] || total <= size)
  }

  /** One more object at the end of a schedule. */
  lemma ScheduleStep(v0: Pending, p0: set<Hash>, txs: seq<Item>, v: Pending, p: set<Hash>, total: int, size: int,
                     tx: Item)
    requires Scheduled(v0, p0, txs, v, p, total, size) && IsBest(v, tx) && total + tx.size <= size
    ensures Scheduled(v0, p0, txs + [tx], ViewRemove(v, tx.account, tx.nonce), p + {tx.hash}, total + tx.size, size)
    ensures Pairs(ViewRemove(v, tx.account, tx.nonce)) < Pairs(v)
  {
    ScheduleSnoc(v0, txs, v, tx);
    PairsShrink(v, tx.account, tx.nonce);
    var s := txs + [tx];
    assert s[..|txs|] == txs && s[|txs|] == tx;
    assert HashesIn(s) == HashesIn(txs) + {tx.hash};
  }

  lemma RemovePending(v: Pending, m: Objects, a: Address, n: nat)
    requires PendingIn(v, m)
    ensures PendingIn(ViewRemove(v, a, n), m)
  {
    var w := ViewRemove(v, a, n);
    forall x: Address, k: nat | x in w && k in w[x] ensures Held(m, w[x][k]) {
      assert w[x][k] == v[x][k];
    }
  }

  predicate IsPending(v: Pending, obj: Item) {
    obj.account in v && obj.nonce in v[obj.account]
  }

  /** What addObject does. */
  ghost predicate AddSpec(capacity: nat, v: Pending, m: Objects, v': Pending, m': Objects, obj: Item, valid: bool,
                          r: AddResult) {
    if obj.hash in m then r == HashExists && v' == v && m' == m
    else if !valid then r == Invalid && v' == v && m' == m
    else if IsPending(v, obj) then ReplaceSpec(v, m, v', m', obj, v[obj.account][obj.nonce], r)
    else if |m| < capacity then r == Added && v' == ViewAdd(v, obj) && m' == m[obj.hash := obj]
    else exists it :: (v != map[] ==> IsWorst(v, it)) && AddFullSpec(v, m, v', m', obj, it, r)
  }

  /** A new object pays more than the pending one with its account and nonce. */
  ghost predicate Outbids(v: Pending, m: Objects, obj: Item) {
    obj.hash !in m && IsPending(v, obj) && obj.price > v[obj.account][obj.nonce].price
  }

  /** The object has taken the place of the pending one: no account is evicted, no other object leaves, and none but
      this one enters. */
  ghost predicate Replaced(v: Pending, m: Objects, v': Pending, m': Objects, obj: Item)
    requires IsPending(v, obj)
  {
    && v'.Keys == v.Keys && v'[obj.account] == v[obj.account][obj.nonce := obj]
    && (forall a :: a in v && a != obj.account ==> v'[a] == v[a])
    && m'.Keys == m.Keys - {v[obj.account][obj.nonce].hash} + {obj.hash} && m'[obj.hash] == obj
    && forall h :: h in m' && h != obj.hash ==> m'[h] == m[h]
  }

  lemma ReplacedBy(v: Pending, m: Objects, obj: Item)
    requires IsPending(v, obj)
    ensures Replaced(v, m, ViewAdd(v, obj), (m - {v[obj.account][obj.nonce].hash})[obj.hash := obj], obj)
  {
  }

  /** A pending nonce: the object is taken exactly if it pays more, and nothing else leaves the pool. */
  ghost predicate ReplaceSpec(v: Pending, m: Objects, v': Pending, m': Objects, obj: Item, exist: Item, r: AddResult) {
    if obj.price > exist.price then r == Added && v' == ViewAdd(v, obj) && m' == (m - {exist.hash})[obj.hash := obj]
    else r == NonceUsed && v' == v && m' == m
  }

  /** The full pool takes the object exactly if the worst pending object is cheaper, and evicts that object's
      account. */
  ghost predicate AddFullSpec(v: Pending, m: Objects, v': Pending, m': Objects, obj: Item, it: Item, r: AddResult) {
    if v != map[] && it.price < obj.price then
      it.account in v && r == Added && v' == ViewAdd(v - {it.account}, obj) &&
        m' == (m - HashesOf(v[it.account]))[obj.hash := obj]
    else r == PoolFull && v' == v && m' == m
  }

  /** Pending account and nonce pairs. */
  ghost function Pairs(v: Pending): set<(Address, nat)> {
    set a, n | a in v && n in v[a] :: (a, n)
  }

  /** One account, and nothing else, has left the queue and the pool. */
  ghost predicate Evicted(v: Pending, m: Objects, v': Pending, m': Objects, a: Address) {
    a in v && v' == v - {a} && m' == m - HashesOf(v[a])
  }

  lemma EvictThenAdd(v: Pending, m: Objects, v': Pending, m': Objects, obj: Item, it: Item)
    requires Evicted(v, m, v', m', it.account) && v != map[] && it.price < obj.price && obj.hash !in m
    ensures obj.hash !in m' && AddFullSpec(v, m, ViewAdd(v', obj), m'[obj.hash := obj], obj, it, Added)
  {
  }

  lemma WorstOf(v: Pending, v': Pending, r: Option<Collection>, price: int) returns (it: Item)
    requires v == map[] ==> r.None?
    requires v != map[] ==> exists it :: IsWorst(v, it) && Discarded(v, v', r, it, price)
    requires WellFormed(v)
    ensures v != map[] ==> IsWorst(v, it) && Discarded(v, v', r, it, price)
    ensures r.Some? ==> v != map[] && r.value.txs != map[]
  {
    if v != map[] {
      it :| IsWorst(v, it) && Discarded(v, v', r, it, price);
      assert FormedAt(v, it.account);
    } else {
      it := Item(0, 0, 0, 0, 0, 0);
    }
  }

  lemma ForgetOne(m0: Objects, m: Objects, done: set<Hash>, txs: Txs, n: nat, all: set<Hash>)
    requires m == m0 - done && n in txs && done + HashesOf(txs) == all
    ensures m - {txs[n].hash} == m0 - (done + {txs[n].hash})
    ensures (done + {txs[n].hash}) + HashesOf(txs - {n}) == all
  {
    HashesPop(txs, n);
  }

  lemma HashesPop(txs: Txs, n: nat)
    requires n in txs
    ensures HashesOf(txs) == HashesOf(txs - {n}) + {txs[n].hash}
  {
    forall h | h in HashesOf(txs) ensures h in HashesOf(txs - {n}) + {txs[n].hash} {
      var k :| k in txs && txs[k].hash == h;
      if k != n { assert k in txs - {n}; }
    }
  }
}
