/** The transactions of one account, by nonce. */
module TxCollections {
  import opened Options
  import opened IndexedHeap

  type Address = int
  type Hash = int

  /** A pooled object with the time it entered the pool. */
  datatype Item = Item(account: Address, nonce: nat, price: int, hash: Hash, size: int, time: int)

  type Txs = map<nat, Item>

  datatype Collection = Collection(txs: Txs, nonceHeap: Heap<nat>)

  /** The nonce heap has the smallest nonce on top. */
  function NonceRanks(txs: Txs): Ranks<nat> {
    map n | n in txs :: Rank(-(n as int), 0)
  }

  ghost predicate CollectionOk(c: Collection) {
    && Indexed(c.nonceHeap) && Ordered(Best, NonceRanks(c.txs), c.nonceHeap) && Items(c.nonceHeap) == c.txs.Keys
    && forall n :: n in c.txs ==> c.txs[n].nonce == n
  }

  ghost predicate Lowest(txs: Txs, n: nat) {
    n in txs && forall k :: k in txs ==> n <= k
  }

  const EMPTY := Collection(map[], Heap([], map[]))

  /** add: an object with a nonce already present replaces the old one in place. */
  method AddTx(c: Collection, tx: Item) returns (r: Collection, added: bool)
    requires CollectionOk(c)
    ensures CollectionOk(r) && r.txs == c.txs[tx.nonce := tx] && (added <==> tx.nonce !in c.txs)
  {
    var txs := c.txs[tx.nonce := tx];
    SameRanks(Best, NonceRanks(c.txs), NonceRanks(txs), c.nonceHeap);
    if tx.nonce in c.txs {
      return Collection(txs, c.nonceHeap), false;
    }
    assert tx.nonce !in Items(c.nonceHeap);
    var h := Push(Best, NonceRanks(txs), c.nonceHeap, tx.nonce);
    return Collection(txs, h), true;
  }

  /** remove */
  method RemoveTx(c: Collection, nonce: nat) returns (r: Collection, removed: bool)
    requires CollectionOk(c)
    ensures CollectionOk(r) && r.txs == c.txs - {nonce} && (removed <==> nonce in c.txs)
  {
    if nonce !in c.txs {
      assert c.txs - {nonce} == c.txs;
      return c, false;
    }
    assert nonce in Items(c.nonceHeap);
    var txs := c.txs - {nonce};
    var i := c.nonceHeap.index[nonce];
    Perturbed(Best, NonceRanks(c.txs), NonceRanks(txs), c.nonceHeap, i);
    var h, _ := Remove(Best, NonceRanks(txs), c.nonceHeap, i);
    return Collection(txs, h), true;
  }

  /** peek */
  function Peek(c: Collection): (r: Option<Item>)
    requires Items(c.nonceHeap) == c.txs.Keys
    ensures r.None? <==> c.txs == map[]
  {
    assert c.nonceHeap.data != [] ==> c.nonceHeap.data[0] in Items(c.nonceHeap);
    assert c.nonceHeap.data == [] ==> Items(c.nonceHeap) == {};
    if c.nonceHeap.data == [] then None else Some(c.txs[c.nonceHeap.data[0]])
  }

  /** The object on top has the smallest nonce. */
  lemma PeekLowest(c: Collection)
    requires CollectionOk(c) && c.txs != map[]
    ensures Peek(c).Some? && Lowest(c.txs, Peek(c).value.nonce) && c.txs[Peek(c).value.nonce] == Peek(c).value
  {
    var top := c.nonceHeap.data[0];
    assert top in Items(c.nonceHeap);
    forall k | k in c.txs ensures top <= k {
      assert k in Items(c.nonceHeap);
      TopAboveAll(Best, NonceRanks(c.txs), c.nonceHeap, k);
    }
  }

  lemma LowestUnique(txs: Txs, n: nat, k: nat)
    requires Lowest(txs, n) && Lowest(txs, k)
    ensures n == k
  {
  }

  /** pop */
  method PopTx(c: Collection) returns (r: Collection, tx: Item)
    requires CollectionOk(c) && c.txs != map[]
    ensures CollectionOk(r) && Lowest(c.txs, tx.nonce) && c.txs[tx.nonce] == tx && r.txs == c.txs - {tx.nonce}
  {
    PeekLowest(c);
    var h, nonce := Pop(Best, NonceRanks(c.txs), c.nonceHeap);
    tx := c.txs[nonce];
    var txs := c.txs - {nonce};
    assert forall k :: k in h.data ==> k in Items(h);
    SameRanks(Best, NonceRanks(c.txs), NonceRanks(txs), h);
    r := Collection(txs, h);
  }

  // ---------- comparing accounts ----------

  /** By price, then by earlier time. */
  function ItemRank(it: Item): Rank {
    Rank(it.price, -it.time)
  }

  function CollectionRank(c: Collection): Rank
    requires Items(c.nonceHeap) == c.txs.Keys
  {
    match Peek(c)
    case None => Rank(0, 0)
    case Some(it) => ItemRank(it)
  }

  /** cmp, with its cases for empty collections. */
  function CmpCollections(c: Collection, d: Collection): int
    requires Items(c.nonceHeap) == c.txs.Keys && Items(d.nonceHeap) == d.txs.Keys
  {
    match (Peek(c), Peek(d))
    case (None, None) => 0
    case (_, None) => 1
    case (None, _) => -1
    case (Some(i), Some(j)) =>
      if i.price != j.price then (if i.price > j.price then 1 else -1)
      else if i.time < j.time then 1
      else if i.time > j.time then -1
      else 0
  }

  /** For accounts with transactions, cmp compares the ranks of their lowest nonces. */
  lemma CmpByRank(c: Collection, d: Collection, i: nat, j: nat)
    requires CollectionOk(c) && CollectionOk(d) && Lowest(c.txs, i) && Lowest(d.txs, j)
    ensures CmpCollections(c, d) == Cmp(ItemRank(c.txs[i]), ItemRank(d.txs[j])) ==
      Cmp(CollectionRank(c), CollectionRank(d))
  {
    PeekLowest(c);
    PeekLowest(d);
  }
}
