/** The leaves of the block tree, best and worst on top of two heaps. */
module Leaves {
  import opened Options
  import opened IndexedHeap

  type Hash = int

  datatype BlockIndex = BlockIndex(hash: Hash, height: nat, totalDifficulty: int)

  function IndexRank(b: BlockIndex): Rank {
    Rank(b.totalDifficulty, b.height)
  }

  /** BlockIndex.cmp */
  function CmpIndex(a: BlockIndex, b: BlockIndex): int {
    if a.totalDifficulty != b.totalDifficulty then (if a.totalDifficulty > b.totalDifficulty then 1 else -1)
    else if a.height > b.height then 1
    else if a.height < b.height then -1
    else 0
  }

  lemma CmpByRank(a: BlockIndex, b: BlockIndex)
    ensures CmpIndex(a, b) == Cmp(IndexRank(a), IndexRank(b)) && (CmpIndex(a, b) >= 0 <==> CmpIndex(b, a) <= 0)
  {
  }

  function RanksOf(m: map<Hash, BlockIndex>): Ranks<Hash> {
    map h | h in m :: IndexRank(m[h])
  }

  ghost predicate HeapOk(o: Order, m: map<Hash, BlockIndex>, h: Heap<Hash>) {
    Indexed(h) && Ordered(o, RanksOf(m), h) && Items(h) == m.Keys
  }

  /** No leaf ranks above b; none ranks below it. */
  ghost predicate IsBestOf(m: map<Hash, BlockIndex>, b: BlockIndex) {
    b.hash in m && m[b.hash] == b && forall h :: h in m ==> CmpIndex(m[h], b) <= 0
  }

  ghost predicate IsWorstOf(m: map<Hash, BlockIndex>, b: BlockIndex) {
    b.hash in m && m[b.hash] == b && forall h :: h in m ==> CmpIndex(m[h], b) >= 0
  }

  lemma TopOf(o: Order, m: map<Hash, BlockIndex>, h: Heap<Hash>)
    requires HeapOk(o, m, h) && forall k :: k in m ==> m[k].hash == k
    ensures h.data == [] <==> m == map[]
    ensures h.data != [] ==>
      h.data[0] in m && if o == Best then IsBestOf(m, m[h.data[0]]) else IsWorstOf(m, m[h.data[0]])
  {
    if h.data == [] {
      assert m.Keys == {};
    } else {
      var top := h.data[0];
      assert top in Items(h);
      forall k | k in m
        ensures Above(o, IndexRank(m[top]), IndexRank(m[k]))
        ensures CmpIndex(m[k], m[top]) == Cmp(IndexRank(m[k]), IndexRank(m[top]))
      {
        assert k in Items(h);
        TopAboveAll(o, RanksOf(m), h, k);
        CmpByRank(m[k], m[top]);
      }
    }
  }

  class BlockLeaves {
    var indexMap: map<Hash, BlockIndex>
    var bestHeap: Heap<Hash>
    var worstHeap: Heap<Hash>

    ghost predicate Valid()
      reads this
    {
      && HeapOk(Best, indexMap, bestHeap) && HeapOk(Worst, indexMap, worstHeap)
      && forall h :: h in indexMap ==> indexMap[h].hash == h
    }

    constructor ()
      ensures Valid() && indexMap == map[]
    {
      indexMap, bestHeap, worstHeap := map[], Heap([], map[]), Heap([], map[]);
    }

    /** Add: a known hash gets the new index, and its place in both heaps is fixed. */
    method Add(b: BlockIndex)
      requires Valid()
      modifies this
      ensures Valid() && indexMap == old(indexMap)[b.hash := b]
    {
      var h := b.hash;
      ghost var before := RanksOf(indexMap);
      var ranks := RanksOf(indexMap[h := b]);
      assert forall k :: k in bestHeap.data ==> k in Items(bestHeap);
      assert forall k :: k in worstHeap.data ==> k in Items(worstHeap);
      if h in indexMap {
        assert h in Items(bestHeap) && h in Items(worstHeap);
        Perturbed(Best, before, ranks, bestHeap, bestHeap.index[h]);
        Perturbed(Worst, before, ranks, worstHeap, worstHeap.index[h]);
        indexMap := indexMap[h := b];
        bestHeap := Fix(Best, ranks, bestHeap, bestHeap.index[h]);
        worstHeap := Fix(Worst, ranks, worstHeap, worstHeap.index[h]);
      } else {
        SameRanks(Best, before, ranks, bestHeap);
        SameRanks(Worst, before, ranks, worstHeap);
        indexMap := indexMap[h := b];
        bestHeap := Push(Best, ranks, bestHeap, h);
        worstHeap := Push(Worst, ranks, worstHeap, h);
      }
    }

    /** Remove */
    method Remove(h: Hash)
      requires Valid()
      modifies this
      ensures Valid() && indexMap == old(indexMap) - {h}
    {
      if h !in indexMap {
        assert indexMap - {h} == indexMap;
        return;
      }
      ghost var before := RanksOf(indexMap);
      indexMap := indexMap - {h};
      var ranks := RanksOf(indexMap);
      assert h in Items(bestHeap) && h in Items(worstHeap);
      assert forall k :: k in bestHeap.data ==> k in Items(bestHeap);
      assert forall k :: k in worstHeap.data ==> k in Items(worstHeap);
      Perturbed(Best, before, ranks, bestHeap, bestHeap.index[h]);
      Perturbed(Worst, before, ranks, worstHeap, worstHeap.index[h]);
      var x;
      bestHeap, x := IndexedHeap.Remove(Best, ranks, bestHeap, bestHeap.index[h]);
      worstHeap, x := IndexedHeap.Remove(Worst, ranks, worstHeap, worstHeap.index[h]);
    }

    /** GetBestBlockIndex */
    method GetBest() returns (r: Option<BlockIndex>)
      requires Valid()
      ensures r.None? <==> indexMap == map[]
      ensures r.Some? ==> IsBestOf(indexMap, r.value)
    {
      TopOf(Best, indexMap, bestHeap);
      r := if bestHeap.data == [] then None else Some(indexMap[bestHeap.data[0]]);
    }

    /** GetWorstBlockIndex */
    method GetWorst() returns (r: Option<BlockIndex>)
      requires Valid()
      ensures r.None? <==> indexMap == map[]
      ensures r.Some? ==> IsWorstOf(indexMap, r.value)
    {
      TopOf(Worst, indexMap, worstHeap);
      r := if worstHeap.data == [] then None else Some(indexMap[worstHeap.data[0]]);
    }

    /** IsBestBlockIndex: better than every leaf. */
    method IsBest(b: BlockIndex) returns (r: bool)
      requires Valid()
      ensures r <==> forall h :: h in indexMap ==> CmpIndex(b, indexMap[h]) > 0
    {
      var best := GetBest();
      r := best.None? || CmpIndex(b, best.value) > 0;
    }
  }
}
