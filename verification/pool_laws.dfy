/** What every run of the pool keeps. */
module PoolLaws {
  import opened TxCollections
  import opened PendingQueues
  import opened ObjectPool

  /** The abstract state of the pool. */
  datatype PoolState = PoolState(pending: Pending, objects: Objects)

  ghost predicate Good(capacity: nat, s: PoolState) {
    WellFormed(s.pending) && PendingIn(s.pending, s.objects) && |s.objects| <= capacity
  }

  /** One call of addObject, removeOject or getProcessableObjects, as their contracts allow. */
  datatype Call = Add(obj: Item, valid: bool, result: AddResult) | Remove(hash: Hash) | Take(txs: seq<Item>)

  ghost predicate Does(capacity: nat, s: PoolState, c: Call, s': PoolState) {
    match c
    case Add(obj, valid, r) => AddSpec(capacity, s.pending, s.objects, s'.pending, s'.objects, obj, valid, r)
    case Remove(h) =>
      s'.objects == s.objects - {h} &&
      s'.pending == if h in s.objects
        then ViewRemove(s.pending, s.objects[h].account, s.objects[h].nonce) else s.pending
    case Take(txs) => s'.objects == s.objects && Schedule(s.pending, txs, s'.pending)
  }

  lemma AddForms(v: Pending, it: Item)
    requires WellFormed(v)
    ensures WellFormed(ViewAdd(v, it))
  {
    var v' := ViewAdd(v, it);
    assert it.nonce in v'[it.account];
    forall a: Address | a in v' ensures FormedAt(v', a) {
      assert a in v ==> FormedAt(v, a);
    }
  }

  lemma RemoveForms(v: Pending, a: Address, n: nat)
    requires WellFormed(v)
    ensures WellFormed(ViewRemove(v, a, n))
  {
    var v' := ViewRemove(v, a, n);
    forall x: Address | x in v' ensures FormedAt(v', x) {
      assert FormedAt(v, x);
    }
  }

  lemma DropForms(v: Pending, a: Address)
    requires WellFormed(v)
    ensures WellFormed(v - {a})
  {
    forall x: Address | x in v - {a} ensures FormedAt(v - {a}, x) {
      assert FormedAt(v, x);
    }
  }

  lemma {:induction false} TakeKeeps(v: Pending, m: Objects, txs: seq<Item>, v': Pending)
    requires WellFormed(v) && PendingIn(v, m) && Schedule(v, txs, v')
    ensures WellFormed(v') && PendingIn(v', m)
    decreases |txs|
  {
    if txs != [] {
      var tx := txs[0];
      RemoveForms(v, tx.account, tx.nonce);
      RemovePending(v, m, tx.account, tx.nonce);
      TakeKeeps(ViewRemove(v, tx.account, tx.nonce), m, txs[1..], v');
    }
  }

  lemma ReplaceKeeps(capacity: nat, s: PoolState, obj: Item, s': PoolState)
    requires Good(capacity, s) && obj.hash !in s.objects && IsPending(s.pending, obj)
    requires s'.pending == ViewAdd(s.pending, obj)
    requires s'.objects == (s.objects - {s.pending[obj.account][obj.nonce].hash})[obj.hash := obj]
    ensures Good(capacity, s')
  {
    var v, m := s.pending, s.objects;
    var exist: Item := v[obj.account][obj.nonce];
    assert FormedAt(v, obj.account);
    RemoveKeeps(v, m, exist.hash);
    ReplaceView(v, obj);
    AddKeeps(ViewRemove(v, obj.account, obj.nonce), m - {exist.hash}, obj);
    AddForms(v, obj);
    MapSize(m, exist.hash, exist);
    MapSize(m - {exist.hash}, obj.hash, obj);
  }

  lemma FreeKeeps(capacity: nat, v: Pending, m: Objects, obj: Item)
    requires WellFormed(v) && PendingIn(v, m) && |m| < capacity && obj.hash !in m
    ensures Good(capacity, PoolState(ViewAdd(v, obj), m[obj.hash := obj]))
  {
    AddForms(v, obj);
    AddKeeps(v, m, obj);
    MapSize(m, obj.hash, obj);
  }

  lemma EvictingKeeps(capacity: nat, v: Pending, m: Objects, obj: Item, it: Item)
    requires Good(capacity, PoolState(v, m)) && obj.hash !in m && IsWorst(v, it)
    ensures Good(capacity, PoolState(ViewAdd(v - {it.account}, obj), (m - HashesOf(v[it.account]))[obj.hash := obj]))
  {
    EvictKeeps(v, m, it.account);
    Shrinks(m, HashesOf(v[it.account]), it.hash);
    DropForms(v, it.account);
    FreeKeeps(capacity, v - {it.account}, m - HashesOf(v[it.account]), obj);
  }

  /** Every call keeps the bound, and every pending object under its own hash. */
  lemma CallKeeps(capacity: nat, s: PoolState, c: Call, s': PoolState)
    requires Good(capacity, s) && Does(capacity, s, c, s')
    ensures Good(capacity, s')
  {
    var v, m := s.pending, s.objects;
    match c
    case Add(obj, valid, r) =>
      if obj.hash in m || !valid {
      } else if IsPending(v, obj) {
        if obj.price > v[obj.account][obj.nonce].price { ReplaceKeeps(capacity, s, obj, s'); }
      } else if |m| < capacity {
        FreeKeeps(capacity, v, m, obj);
      } else {
        var it :| (v != map[] ==> IsWorst(v, it)) && AddFullSpec(v, m, s'.pending, s'.objects, obj, it, r);
        if v != map[] && it.price < obj.price { EvictingKeeps(capacity, v, m, obj, it); }
      }
    case Remove(h) =>
      if h in m {
        RemoveKeeps(v, m, h);
        RemoveForms(v, m[h].account, m[h].nonce);
        MapSize(m, h, m[h]);
      } else {
        assert m - {h} == m;
      }
    case Take(txs) =>
      TakeKeeps(v, m, txs, s'.pending);
  }

  /** Over every run of the three operations the pool stays within its capacity and holds every pending object. */
  lemma {:induction false} RunKeeps(capacity: nat, states: seq<PoolState>, calls: seq<Call>)
    requires |states| == |calls| + 1 && Good(capacity, states[0])
    requires forall i :: 0 <= i < |calls| ==> Does(capacity, states[i], calls[i], states[i + 1])
    ensures forall i :: 0 <= i < |states| ==>
      |states[i].objects| <= capacity && PendingIn(states[i].pending, states[i].objects)
    decreases |calls|
  {
    if calls != [] {
      CallKeeps(capacity, states[0], calls[0], states[1]);
      var rest, more := states[1..], calls[1..];
      forall i | 0 <= i < |more| ensures Does(capacity, rest[i], more[i], rest[i + 1]) {
        assert Does(capacity, states[i + 1], calls[i + 1], states[i + 2]);
      }
      RunKeeps(capacity, rest, more);
      assert forall i :: 0 < i < |states| ==> states[i] == rest[i - 1];
    }
  }
}
