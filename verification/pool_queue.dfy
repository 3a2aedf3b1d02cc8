/** The pending queue: one collection per account, the accounts in two heaps. */
module PendingQueues {
  import opened Options
  import opened IndexedHeap
  import opened TxCollections

  /** Pending objects by account and nonce. */
  type Pending = map<Address, Txs>

  ghost predicate AccountOk(txs: map<Address, Collection>, a: Address)
    requires a in txs
  {
    CollectionOk(txs[a]) && txs[a].txs != map[] && forall n :: n in txs[a].txs ==> txs[a].txs[n].account == a
  }

  ghost predicate AccountsOk(txs: map<Address, Collection>) {
    forall a {:trigger AccountOk(txs, a)} :: a in txs ==> AccountOk(txs, a)
  }

  function RanksOf(txs: map<Address, Collection>): Ranks<Address>
    requires AccountsOk(txs)
  {
    map a | a in txs :: assert AccountOk(txs, a); CollectionRank(txs[a])
  }

  ghost predicate HeapOk(o: Order, txs: map<Address, Collection>, h: Heap<Address>)
    requires AccountsOk(txs)
  {
    Indexed(h) && Ordered(o, RanksOf(txs), h) && Items(h) == txs.Keys
  }

  // ---------- what the operations do to the pending objects ----------

  function ViewAdd(v: Pending, it: Item): Pending {
    v[it.account := (if it.account in v then v[it.account] else map[])[it.nonce := it]]
  }

  function ViewRemove(v: Pending, a: Address, n: nat): Pending {
    if a !in v || n !in v[a] then v
    else if v[a] - {n} == map[] then v - {a}
    else v[a := v[a] - {n}]
  }

  /** The object is its account's lowest nonce, and no other account's lowest nonce ranks higher. */
  ghost predicate IsBest(v: Pending, it: Item) {
    && it.account in v && Lowest(v[it.account], it.nonce) && v[it.account][it.nonce] == it
    && forall a, n {:trigger Lowest(v[a], n)} :: a in v && Lowest(v[a], n) ==> Cmp(ItemRank(v[a][n]), ItemRank(it)) <= 0
  }

  ghost predicate IsWorst(v: Pending, it: Item) {
    && it.account in v && Lowest(v[it.account], it.nonce) && v[it.account][it.nonce] == it
    && forall a, n {:trigger Lowest(v[a], n)} :: a in v && Lowest(v[a], n) ==> Cmp(ItemRank(v[a][n]), ItemRank(it)) >= 0
  }

  ghost predicate FormedAt(v: Pending, a: Address)
    requires a in v
  {
    v[a] != map[] && forall n :: n in v[a] ==> v[a][n].account == a && v[a][n].nonce == n
  }

  ghost predicate WellFormed(v: Pending) {
    forall a {:trigger FormedAt(v, a)} :: a in v ==> FormedAt(v, a)
  }

  ghost function ViewOf(txs: map<Address, Collection>): Pending {
    map a | a in txs :: txs[a].txs
  }

  /** The account on top of a heap holds the best, or the worst, object. */
  lemma TopIsExtreme(o: Order, txs: map<Address, Collection>, h: Heap<Address>)
    requires AccountsOk(txs) && HeapOk(o, txs, h) && h.data != []
    ensures h.data[0] in txs && CollectionOk(txs[h.data[0]]) && Peek(txs[h.data[0]]).Some?
    ensures var it := Peek(txs[h.data[0]]).value;
      it.account == h.data[0] && if o == Best then IsBest(ViewOf(txs), it) else IsWorst(ViewOf(txs), it)
  {
    var top, v := h.data[0], ViewOf(txs);
    assert top in Items(h);
    assert AccountOk(txs, top);
    PeekLowest(txs[top]);
    var it := Peek(txs[top]).value;
    forall a, n | a in v && Lowest(v[a], n) ensures Above(o, ItemRank(it), ItemRank(v[a][n])) {
      assert AccountOk(txs, a) && a in Items(h);
      TopAboveAll(o, RanksOf(txs), h, a);
      PeekLowest(txs[a]);
      LowestUnique(v[a], n, Peek(txs[a]).value.nonce);
    }
    CmpSymmetric();
  }

  lemma CmpSymmetric()
    ensures forall a, b {:trigger Cmp(a, b)} :: Cmp(a, b) >= 0 <==> Cmp(b, a) <= 0
  {
  }

  // ---------- the queue ----------

  class PendingQueue {
    var txs: map<Address, Collection>
    var bestHeap: Heap<Address>
    var worstHeap: Heap<Address>

    ghost predicate Valid()
      reads this
    {
      AccountsOk(txs) && HeapOk(Best, txs, bestHeap) && HeapOk(WorstOrEqual, txs, worstHeap)
    }

    ghost function View(): Pending
      reads this
    {
      ViewOf(txs)
    }

    constructor ()
      ensures Valid() && View() == map[]
    {
      txs, bestHeap, worstHeap := map[], Heap([], map[]), Heap([], map[]);
    }

    /** After the collection of one account has changed: its place in both heaps is fixed. */
    method Refix(a: Address, c: Collection)
      requires Valid() && a in txs && CollectionOk(c) && c.txs != map[]
      requires forall n :: n in c.txs ==> c.txs[n].account == a
      modifies this
      ensures Valid() && txs == old(txs)[a := c]
    {
      ghost var before := txs;
      txs := txs[a := c];
      AccountsUpdated(before, a, c);
      var ranks := RanksOf(txs);
      assert a in Items(bestHeap) && a in Items(worstHeap);
      Perturbed(Best, RanksOf(before), ranks, bestHeap, bestHeap.index[a]);
      Perturbed(WorstOrEqual, RanksOf(before), ranks, worstHeap, worstHeap.index[a]);
      bestHeap := Fix(Best, ranks, bestHeap, bestHeap.index[a]);
      worstHeap := Fix(WorstOrEqual, ranks, worstHeap, worstHeap.index[a]);
    }

    /** The account leaves the map and both heaps. */
    method DropAccount(a: Address)
      requires Valid() && a in txs
      modifies this
      ensures Valid() && txs == old(txs) - {a}
    {
      ghost var before := txs;
      txs := txs - {a};
      AccountsDropped(before, a);
      var ranks := RanksOf(txs);
      assert a in Items(bestHeap) && a in Items(worstHeap);
      Perturbed(Best, RanksOf(before), ranks, bestHeap, bestHeap.index[a]);
      Perturbed(WorstOrEqual, RanksOf(before), ranks, worstHeap, worstHeap.index[a]);
      var x;
      bestHeap, x := IndexedHeap.Remove(Best, ranks, bestHeap, bestHeap.index[a]);
      worstHeap, x := IndexedHeap.Remove(WorstOrEqual, ranks, worstHeap, worstHeap.index[a]);
    }

    /** After one collection has changed: drop the account if nothing is left, else fix its place. */
    method Settle(a: Address, c: Collection)
      requires Valid() && a in txs && CollectionOk(c) && forall n :: n in c.txs ==> c.txs[n].account == a
      modifies this
      ensures Valid() && View() == if c.txs == map[] then old(View()) - {a} else old(View())[a := c.txs]
    {
      ViewChanges(txs, a, c);
      if c.txs == map[] {
        DropAccount(a);
      } else {
        Refix(a, c);
      }
    }

    /** A new account enters the map and both heaps. */
    method NewAccount(a: Address, c: Collection)
      requires Valid() && a !in txs && CollectionOk(c) && c.txs != map[]
      requires forall n :: n in c.txs ==> c.txs[n].account == a
      modifies this
      ensures Valid() && View() == old(View())[a := c.txs]
    {
      ViewChanges(txs, a, c);
      ghost var before := txs;
      txs := txs[a := c];
      assert AccountsOk(txs) by { AccountsUpdated(before, a, c); }
      var ranks := RanksOf(txs);
      HeapBeforePush(Best, before, a, c, bestHeap);
      HeapBeforePush(WorstOrEqual, before, a, c, worstHeap);
      bestHeap := Push(Best, ranks, bestHeap, a);
      worstHeap := Push(WorstOrEqual, ranks, worstHeap, a);
    }

    method Add(tx: Item)
      requires Valid()
      modifies this
      ensures Valid() && View() == ViewAdd(old(View()), tx)
    {
      var a := tx.account;
      if a in txs {
        assert AccountOk(txs, a);
        var c, _ := AddTx(txs[a], tx);
        Settle(a, c);
      } else {
        var c, _ := AddTx(EMPTY, tx);
        NewAccount(a, c);
      }
    }

    function Get(a: Address, nonce: nat): Option<Item>
      reads this
    {
      if a in txs && nonce in txs[a].txs then Some(txs[a].txs[nonce]) else None
    }

    predicate Empty()
      reads this
    {
      bestHeap.data == []
    }

    method Remove(a: Address, nonce: nat)
      requires Valid()
      modifies this
      ensures Valid() && View() == ViewRemove(old(View()), a, nonce)
    {
      if a !in txs {
        return;
      }
      assert AccountOk(txs, a);
      var c, removed := RemoveTx(txs[a], nonce);
      if !removed {
        return;
      }
      Settle(a, c);
    }

    /** The lowest nonce of the account on top of the best heap: what peek().peek() gives. */
    function Top(): (r: Option<Item>)
      reads this
      requires Valid()
      ensures r.None? <==> View() == map[]
      ensures r.Some? ==> IsBest(View(), r.value)
    {
      EmptyHeap(txs, bestHeap);
      if bestHeap.data == [] then None
      else
        TopIsExtreme(Best, txs, bestHeap);
        Peek(txs[bestHeap.data[0]])
    }

    /** pop: the best object leaves the queue. */
    method Pop() returns (tx: Item)
      requires Valid() && !Empty()
      modifies this
      ensures Valid() && old(Top()) == Some(tx) && View() == ViewRemove(old(View()), tx.account, tx.nonce)
    {
      TopIsExtreme(Best, txs, bestHeap);
      var a := bestHeap.data[0];
      assert AccountOk(txs, a);
      PeekLowest(txs[a]);
      var c;
      c, tx := PopTx(txs[a]);
      LowestUnique(txs[a].txs, tx.nonce, Peek(txs[a]).value.nonce);
      Settle(a, c);
    }

    /** discard: the whole account of the worst object leaves the queue, if that object is cheaper than `price`. */
    method Discard(price: int) returns (r: Option<Collection>)
      requires Valid()
      modifies this
      ensures Valid()
      ensures old(View()) == map[] ==> r.None? && View() == map[]
      ensures old(View()) != map[] ==>
        exists it :: IsWorst(old(View()), it) && Discarded(old(View()), View(), r, it, price)
    {
      EmptyHeap(txs, bestHeap);
      EmptyHeap(txs, worstHeap);
      if Empty() {
        return None;
      }
      TopIsExtreme(WorstOrEqual, txs, worstHeap);
      ghost var before := txs;
      var a := worstHeap.data[0];
      assert AccountOk(txs, a);
      var worst := txs[a];
      var it := Peek(worst).value;
      if price <= it.price {
        assert IsWorst(View(), it) && Discarded(View(), View(), None, it, price);
        return None;
      }
      var x;
      worstHeap, x := IndexedHeap.Pop(WorstOrEqual, RanksOf(txs), worstHeap);
      ViewChanges(txs, a, worst);
      DropRest(a);
      r := Some(worst);
      assert IsWorst(old(View()), it) && Discarded(old(View()), View(), r, it, price);
    }

    /** The account has left the worst heap already. */
    method DropRest(a: Address)
      requires AccountsOk(txs) && a in txs && HeapOk(Best, txs, bestHeap)
      requires Indexed(worstHeap) && Ordered(WorstOrEqual, RanksOf(txs), worstHeap)
      requires Items(worstHeap) == txs.Keys - {a}
      modifies this
      ensures Valid() && txs == old(txs) - {a}
    {
      ghost var before := txs;
      AccountsDropped(before, a);
      var ranks := RanksOf(txs - {a});
      assert a in Items(bestHeap);
      Perturbed(Best, RanksOf(before), ranks, bestHeap, bestHeap.index[a]);
      var x;
      bestHeap, x := IndexedHeap.Remove(Best, ranks, bestHeap, bestHeap.index[a]);
      txs := txs - {a};
      assert forall k :: k in worstHeap.data ==> k in Items(worstHeap);
      SameRanks(WorstOrEqual, RanksOf(before), ranks, worstHeap);
    }
  }

  /** What discard does, given the worst object. */
  ghost predicate Discarded(v: Pending, v': Pending, r: Option<Collection>, it: Item, price: int)
    requires it.account in v
  {
    if price <= it.price then r.None? && v' == v
    else r.Some? && CollectionOk(r.value) && r.value.txs == v[it.account] && v' == v - {it.account}
  }

  lemma EmptyHeap(txs: map<Address, Collection>, h: Heap<Address>)
    requires Items(h) == txs.Keys
    ensures h.data == [] <==> ViewOf(txs) == map[]
  {
    if h.data != [] {
      assert h.data[0] in Items(h);
      assert h.data[0] in ViewOf(txs);
    } else {
      assert ViewOf(txs).Keys == {};
    }
  }

  lemma ViewWellFormed(txs: map<Address, Collection>)
    requires AccountsOk(txs)
    ensures WellFormed(ViewOf(txs))
  {
    var v := ViewOf(txs);
    forall a: Address | a in v ensures FormedAt(v, a) {
      assert AccountOk(txs, a);
    }
  }

  lemma ViewChanges(txs: map<Address, Collection>, a: Address, c: Collection)
    ensures ViewOf(txs[a := c]) == ViewOf(txs)[a := c.txs] && ViewOf(txs - {a}) == ViewOf(txs) - {a}
  {
  }

  lemma HeapBeforePush(o: Order, txs: map<Address, Collection>, a: Address, c: Collection, h: Heap<Address>)
    requires AccountsOk(txs) && a !in txs && HeapOk(o, txs, h) && AccountsOk(txs[a := c])
    ensures Ordered(o, RanksOf(txs[a := c]), h) && a !in h.data
  {
    assert forall k :: k in h.data ==> k in Items(h);
    SameRanks(o, RanksOf(txs), RanksOf(txs[a := c]), h);
  }

  lemma AccountsUpdated(txs: map<Address, Collection>, a: Address, c: Collection)
    requires AccountsOk(txs) && CollectionOk(c) && c.txs != map[] && forall n :: n in c.txs ==> c.txs[n].account == a
    ensures AccountsOk(txs[a := c])
    ensures forall k :: k in txs && k != a ==> RankOf(RanksOf(txs[a := c]), k) == RankOf(RanksOf(txs), k)
  {
    var txs' := txs[a := c];
    forall k | k in txs' ensures AccountOk(txs', k) {
      if k != a { assert AccountOk(txs, k); }
    }
  }

  lemma AccountsDropped(txs: map<Address, Collection>, a: Address)
    requires AccountsOk(txs)
    ensures AccountsOk(txs - {a})
    ensures forall k :: k in txs && k != a ==> RankOf(RanksOf(txs - {a}), k) == RankOf(RanksOf(txs), k)
  {
    var txs' := txs - {a};
    forall k | k in txs' ensures AccountOk(txs', k) {
      assert AccountOk(txs, k);
    }
  }
}
