/** The heap that records the position of its items, with the operations of container/heap on it. */
module IndexedHeap {
  /** What items are compared by: `major` first, then `minor`. */
  datatype Rank = Rank(major: int, minor: int)

  function Cmp(a: Rank, b: Rank): int {
    if a.major != b.major then (if a.major > b.major then 1 else -1)
    else if a.minor != b.minor then (if a.minor > b.minor then 1 else -1)
    else 0
  }

  /** The three Less functions in use: best on top, worst on top, and worst on top with ties counted as less. */
  datatype Order = Best | Worst | WorstOrEqual

  predicate Less(o: Order, a: Rank, b: Rank) {
    match o
    case Best => Cmp(a, b) > 0
    case Worst => Cmp(a, b) < 0
    case WorstOrEqual => Cmp(a, b) <= 0
  }

  /** a may stand above b. */
  predicate Above(o: Order, a: Rank, b: Rank) {
    if o == Best then Cmp(a, b) >= 0 else Cmp(a, b) <= 0
  }

  type Ranks<K> = map<K, Rank>

  function RankOf<K>(ranks: Ranks<K>, k: K): Rank {
    if k in ranks then ranks[k] else Rank(0, 0)
  }

  datatype Heap<K> = Heap(data: seq<K>, index: map<K, nat>)

  /** Every item knows its position; in particular none is in the heap twice. */
  ghost predicate Indexed<K>(h: Heap<K>) {
    forall i {:trigger h.data[i]} :: 0 <= i < |h.data| ==> h.data[i] in h.index && h.index[h.data[i]] == i
  }

  function Items<K(==)>(h: Heap<K>): set<K> {
    set x | x in h.data
  }

  function Parent(j: int): int {
    (j - 1) / 2
  }

  /** The item at i may stand above the item at j. */
  ghost predicate Le<K>(o: Order, ranks: Ranks<K>, data: seq<K>, i: int, j: int)
    requires 0 <= i < |data| && 0 <= j < |data|
  {
    Above(o, RankOf(ranks, data[i]), RankOf(ranks, data[j]))
  }

  /** The edge from j to its parent is in order. */
  ghost predicate Edge<K>(o: Order, ranks: Ranks<K>, data: seq<K>, j: int)
    requires 0 < j < |data|
  {
    Le(o, ranks, data, Parent(j), j)
  }

  /** The first n items are in heap order. */
  ghost predicate OrderedTo<K>(o: Order, ranks: Ranks<K>, data: seq<K>, n: int)
    requires n <= |data|
  {
    forall j {:trigger Edge(o, ranks, data, j)} :: 0 < j < n ==> Edge(o, ranks, data, j)
  }

  ghost predicate Ordered<K>(o: Order, ranks: Ranks<K>, h: Heap<K>) {
    OrderedTo(o, ranks, h.data, |h.data|)
  }

  /** All edges among the first n items but those at i are in order, and so would they be with i taken out. */
  ghost predicate OrderedBut<K>(o: Order, ranks: Ranks<K>, data: seq<K>, n: int, i: int)
    requires 0 <= i < n <= |data|
  {
    && (forall j {:trigger Edge(o, ranks, data, j)} ::
        0 < j < n && j != i && Parent(j) != i ==> Edge(o, ranks, data, j))
    && (forall j {:trigger Le(o, ranks, data, Parent(i), j)} ::
        0 < j < n && Parent(j) == i && i > 0 ==> Le(o, ranks, data, Parent(i), j))
  }

  // ---------- swapping ----------

  function Swapped<T>(s: seq<T>, i: int, j: int): (r: seq<T>)
    requires 0 <= i < |s| && 0 <= j < |s|
    ensures |r| == |s| && r[i] == s[j] && r[j] == s[i] && forall k :: 0 <= k < |s| && k != i && k != j ==> r[k] == s[k]
  {
    s[i := s[j]][j := s[i]]
  }

  /** Heap.Swap */
  function Swap<K>(h: Heap<K>, i: int, j: int): Heap<K>
    requires 0 <= i < |h.data| && 0 <= j < |h.data|
  {
    var data := Swapped(h.data, i, j);
    Heap(data, h.index[data[i] := i][data[j] := j])
  }

  lemma SwapKeeps<K>(h: Heap<K>, i: int, j: int)
    requires Indexed(h) && 0 <= i < |h.data| && 0 <= j < |h.data|
    ensures Indexed(Swap(h, i, j)) && Items(Swap(h, i, j)) == Items(h)
  {
    var h' := Swap(h, i, j);
    forall k | 0 <= k < |h.data| ensures h.data[k] in h'.data && h'.data[k] in h.data {
      assert h'.data[if k == i then j else if k == j then i else k] == h.data[k];
      assert h.data[if k == i then j else if k == j then i else k] == h'.data[k];
    }
  }

  // ---------- sifting ----------

  lemma LessAbove(o: Order, a: Rank, b: Rank)
    ensures Less(o, a, b) ==> Above(o, a, b)
    ensures !Less(o, a, b) ==> Above(o, b, a)
  {
  }

  lemma AboveTransitive(o: Order, a: Rank, b: Rank, d: Rank)
    requires Above(o, a, b) && Above(o, b, d)
    ensures Above(o, a, d)
  {
  }

  /** Only the edge from j to its parent may be out of order. */
  ghost predicate UpReady<K>(o: Order, ranks: Ranks<K>, data: seq<K>, n: int, j: int)
    requires 0 <= j < n <= |data|
  {
    && (forall k {:trigger Edge(o, ranks, data, k)} :: 0 < k < n && k != j ==> Edge(o, ranks, data, k))
    && (forall k {:trigger Le(o, ranks, data, Parent(j), k)} ::
        0 < k < n && Parent(k) == j && j > 0 ==> Le(o, ranks, data, Parent(j), k))
  }

  /** Only the edges from i to its children may be out of order, and with `loose` the one to its parent. */
  ghost predicate DownReady<K>(o: Order, ranks: Ranks<K>, data: seq<K>, n: int, i: int, loose: bool)
    requires 0 <= i < n <= |data|
  {
    && (forall k {:trigger Edge(o, ranks, data, k)} ::
        0 < k < n && Parent(k) != i && !(loose && k == i) ==> Edge(o, ranks, data, k))
    && (forall k {:trigger Le(o, ranks, data, Parent(i), k)} ::
        0 < k < n && Parent(k) == i && i > 0 ==> Le(o, ranks, data, Parent(i), k))
  }

  lemma UpStep<K>(o: Order, ranks: Ranks<K>, data: seq<K>, n: int, j: int, i: int)
    requires 0 < j < n <= |data| && i == Parent(j) && UpReady(o, ranks, data, n, j)
    requires Less(o, RankOf(ranks, data[j]), RankOf(ranks, data[i]))
    ensures 0 <= i < j && UpReady(o, ranks, Swapped(data, i, j), n, i)
  {
    var data' := Swapped(data, i, j);
    LessAbove(o, RankOf(ranks, data[j]), RankOf(ranks, data[i]));
    forall k | 0 < k < n && k != i ensures Edge(o, ranks, data', k) {
      if k != j { assert Edge(o, ranks, data, k); }
      if Parent(k) == j { assert Le(o, ranks, data, Parent(j), k); }
      if Parent(k) == i && k != j {
        AboveTransitive(o, RankOf(ranks, data[j]), RankOf(ranks, data[i]), RankOf(ranks, data[k]));
      }
    }
    forall k | 0 < k < n && Parent(k) == i && i > 0 ensures Le(o, ranks, data', Parent(i), k) {
      assert Edge(o, ranks, data, i);
      if k != j {
        assert Edge(o, ranks, data, k);
        AboveTransitive(o, RankOf(ranks, data[Parent(i)]), RankOf(ranks, data[i]), RankOf(ranks, data[k]));
      }
    }
  }

  lemma DownStep<K>(o: Order, ranks: Ranks<K>, data: seq<K>, n: int, i: int, loose: bool, j: int)
    requires 0 <= i < n <= |data| && DownReady(o, ranks, data, n, i, loose)
    requires 0 < j < n && Parent(j) == i && Less(o, RankOf(ranks, data[j]), RankOf(ranks, data[i]))
    requires forall k {:trigger Le(o, ranks, data, j, k)} :: 0 < k < n && Parent(k) == i && k != j ==>
      Le(o, ranks, data, j, k)
    ensures i < j && DownReady(o, ranks, Swapped(data, i, j), n, j, false)
  {
    var data' := Swapped(data, i, j);
    LessAbove(o, RankOf(ranks, data[j]), RankOf(ranks, data[i]));
    forall k | 0 < k < n && Parent(k) != j ensures Edge(o, ranks, data', k) {
      if k == i {
        assert Le(o, ranks, data, Parent(i), j);
      } else if Parent(k) == i {
        if k != j { assert Le(o, ranks, data, j, k); }
      } else {
        assert Edge(o, ranks, data, k);
      }
    }
    forall k | 0 < k < n && Parent(k) == j ensures Le(o, ranks, data', Parent(j), k) {
      assert Edge(o, ranks, data, k);
    }
  }

  /** What sifting leaves alone. */
  ghost predicate Rearranged<K>(h: Heap<K>, h': Heap<K>, n: int) {
    && Indexed(h') && Items(h') == Items(h) && |h'.data| == |h.data|
    && 0 <= n <= |h.data| && forall k :: n <= k < |h.data| ==> h'.data[k] == h.data[k]
  }

  /** up of container/heap */
  method Up<K(==)>(o: Order, ranks: Ranks<K>, h: Heap<K>, j0: nat, ghost n: int) returns (r: Heap<K>)
    requires Indexed(h) && j0 < n <= |h.data| && UpReady(o, ranks, h.data, n, j0)
    ensures Rearranged(h, r, n) && OrderedTo(o, ranks, r.data, n)
  {
    r := h;
    var j: int := j0;
    while j > 0 && Less(o, RankOf(ranks, r.data[j]), RankOf(ranks, r.data[Parent(j)]))
      invariant 0 <= j < n && Rearranged(h, r, n) && UpReady(o, ranks, r.data, n, j)
    {
      var i := Parent(j);
      UpStep(o, ranks, r.data, n, j, i);
      SwapKeeps(r, i, j);
      r := Swap(r, i, j);
      j := i;
    }
    if j > 0 { LessAbove(o, RankOf(ranks, r.data[j]), RankOf(ranks, r.data[Parent(j)])); }
    assert j > 0 ==> Edge(o, ranks, r.data, j);
  }

  /** The child of i that down compares with. */
  method ChooseChild<K>(o: Order, ranks: Ranks<K>, data: seq<K>, i: nat, n: int) returns (j: int)
    requires n <= |data| && 2 * i + 1 < n
    ensures 0 < j < n && Parent(j) == i
    ensures forall k {:trigger Le(o, ranks, data, j, k)} :: 0 < k < n && Parent(k) == i && k != j ==>
      Le(o, ranks, data, j, k)
  {
    j := 2 * i + 1;
    if j + 1 < n {
      LessAbove(o, RankOf(ranks, data[j + 1]), RankOf(ranks, data[j]));
      if Less(o, RankOf(ranks, data[j + 1]), RankOf(ranks, data[j])) {
        j := j + 1;
      }
    }
    forall k | 0 < k < n && Parent(k) == i && k != j ensures Le(o, ranks, data, j, k) {
      assert k == 2 * i + 1 || k == 2 * i + 2;
    }
  }

  /** down of container/heap: tells whether the item moved */
  method Down<K(==)>(o: Order, ranks: Ranks<K>, h: Heap<K>, i0: nat, n: int) returns (r: Heap<K>, moved: bool)
    requires Indexed(h) && i0 < n <= |h.data| && OrderedBut(o, ranks, h.data, n, i0)
    ensures Rearranged(h, r, n)
    ensures moved ==> OrderedTo(o, ranks, r.data, n)
    ensures !moved ==> r == h && UpReady(o, ranks, r.data, n, i0)
  {
    r := h;
    var i := i0;
    while 2 * i + 1 < n
      invariant i0 <= i < n && Rearranged(h, r, n) && DownReady(o, ranks, r.data, n, i, i == i0)
      invariant i == i0 ==> r == h
      decreases n - i
    {
      var j := ChooseChild(o, ranks, r.data, i, n);
      LessAbove(o, RankOf(ranks, r.data[j]), RankOf(ranks, r.data[i]));
      if !Less(o, RankOf(ranks, r.data[j]), RankOf(ranks, r.data[i])) {
        ChildrenBelow(o, ranks, r.data, n, i, j);
        break;
      }
      DownStep(o, ranks, r.data, n, i, i == i0, j);
      SwapKeeps(r, i, j);
      r := Swap(r, i, j);
      i := j;
    }
    moved := i > i0;
    forall k | 0 < k < n && Parent(k) == i ensures Edge(o, ranks, r.data, k) {
      if 2 * i + 1 >= n { assert false; }
    }
  }

  lemma ChildrenBelow<K>(o: Order, ranks: Ranks<K>, data: seq<K>, n: int, i: int, j: int)
    requires 0 <= i < n <= |data| && 0 < j < n && Parent(j) == i && Le(o, ranks, data, i, j)
    requires forall k {:trigger Le(o, ranks, data, j, k)} :: 0 < k < n && Parent(k) == i && k != j ==>
      Le(o, ranks, data, j, k)
    ensures forall k {:trigger Edge(o, ranks, data, k)} :: 0 < k < n && Parent(k) == i ==> Edge(o, ranks, data, k)
  {
    forall k | 0 < k < n && Parent(k) == i ensures Edge(o, ranks, data, k) {
      if k != j {
        assert Le(o, ranks, data, j, k);
        AboveTransitive(o, RankOf(ranks, data[i]), RankOf(ranks, data[j]), RankOf(ranks, data[k]));
      }
    }
  }

  // ---------- the operations ----------

  /** heap.Push */
  method Push<K(==)>(o: Order, ranks: Ranks<K>, h: Heap<K>, x: K) returns (r: Heap<K>)
    requires Indexed(h) && Ordered(o, ranks, h) && x !in h.data
    ensures Indexed(r) && Ordered(o, ranks, r) && Items(r) == Items(h) + {x} && |r.data| == |h.data| + 1
  {
    var n := |h.data|;
    var h' := Heap(h.data + [x], h.index[x := n]);
    forall k | 0 < k < n + 1 && k != n ensures Edge(o, ranks, h'.data, k) {
      assert Edge(o, ranks, h.data, k);
    }
    assert Items(h') == Items(h) + {x};
    r := Up(o, ranks, h', n, n + 1);
  }

  /** Heap.Pop drops the last item. */
  lemma DropLast<K>(h: Heap<K>, n: int)
    requires Indexed(h) && n == |h.data| - 1 >= 0
    ensures var r := Heap(h.data[..n], h.index); Indexed(r) && Items(r) == Items(h) - {h.data[n]}
  {
    var r := Heap(h.data[..n], h.index);
    forall i | 0 <= i < n ensures r.data[i] in r.index && r.index[r.data[i]] == i {
      assert r.data[i] == h.data[i];
    }
    assert h.data == r.data + [h.data[n]];
  }

  lemma OrderedPrefix<K>(o: Order, ranks: Ranks<K>, data: seq<K>, n: int)
    requires 0 <= n <= |data| && OrderedTo(o, ranks, data, n)
    ensures OrderedTo(o, ranks, data[..n], n)
  {
    forall k | 0 < k < n ensures Edge(o, ranks, data[..n], k) {
      assert Edge(o, ranks, data, k);
    }
  }

  /** Sift the item at i where it belongs among the first n. */
  method Sift<K(==)>(o: Order, ranks: Ranks<K>, h: Heap<K>, i: nat, n: int) returns (r: Heap<K>)
    requires Indexed(h) && i < n <= |h.data| && OrderedBut(o, ranks, h.data, n, i)
    ensures Rearranged(h, r, n) && OrderedTo(o, ranks, r.data, n)
  {
    var moved;
    r, moved := Down(o, ranks, h, i, n);
    if !moved {
      r := Up(o, ranks, r, i, n);
    }
  }

  /** heap.Fix: the rank of the item at i has changed. */
  method Fix<K(==)>(o: Order, ranks: Ranks<K>, h: Heap<K>, i: nat) returns (r: Heap<K>)
    requires Indexed(h) && i < |h.data| && OrderedBut(o, ranks, h.data, |h.data|, i)
    ensures Indexed(r) && Ordered(o, ranks, r) && Items(r) == Items(h) && |r.data| == |h.data|
  {
    r := Sift(o, ranks, h, i, |h.data|);
  }

  /** heap.Remove: the rank of the item at i does not matter. */
  method Remove<K(==)>(o: Order, ranks: Ranks<K>, h: Heap<K>, i: nat) returns (r: Heap<K>, x: K)
    requires Indexed(h) && i < |h.data| && OrderedBut(o, ranks, h.data, |h.data|, i)
    ensures x == h.data[i] && Indexed(r) && Ordered(o, ranks, r) && Items(r) == Items(h) - {x}
    ensures |r.data| == |h.data| - 1
  {
    var n := |h.data| - 1;
    r := h;
    if n != i {
      SwapKeeps(h, i, n);
      r := Swap(h, i, n);
      SwappedOut(o, ranks, h.data, i, n);
      r := Sift(o, ranks, r, i, n);
    } else {
      forall k | 0 < k < n ensures Edge(o, ranks, h.data, k) {
        assert Parent(k) != i;
      }
    }
    assert r.data[n] == h.data[i];
    DropLast(r, n);
    OrderedPrefix(o, ranks, r.data, n);
    x := r.data[n];
    r := Heap(r.data[..n], r.index);
  }

  lemma SwappedOut<K>(o: Order, ranks: Ranks<K>, data: seq<K>, i: int, n: int)
    requires 0 <= i < n == |data| - 1 && OrderedBut(o, ranks, data, |data|, i)
    ensures OrderedBut(o, ranks, Swapped(data, i, n), n, i)
  {
    var data' := Swapped(data, i, n);
    forall k | 0 < k < n && k != i && Parent(k) != i ensures Edge(o, ranks, data', k) {
      assert Edge(o, ranks, data, k);
    }
    forall k | 0 < k < n && Parent(k) == i && i > 0 ensures Le(o, ranks, data', Parent(i), k) {
      assert Le(o, ranks, data, Parent(i), k);
    }
  }

  /** heap.Pop */
  method Pop<K(==)>(o: Order, ranks: Ranks<K>, h: Heap<K>) returns (r: Heap<K>, x: K)
    requires Indexed(h) && |h.data| > 0 && Ordered(o, ranks, h)
    ensures x == h.data[0] && Indexed(r) && Ordered(o, ranks, r) && Items(r) == Items(h) - {x}
    ensures |r.data| == |h.data| - 1
  {
    var n := |h.data| - 1;
    SwapKeeps(h, 0, n);
    r := Swap(h, 0, n);
    if n > 0 {
      Perturbed(o, ranks, ranks, h, 0);
      SwappedOut(o, ranks, h.data, 0, n);
      var moved;
      r, moved := Down(o, ranks, r, 0, n);
    }
    assert r.data[n] == h.data[0];
    DropLast(r, n);
    OrderedPrefix(o, ranks, r.data, n);
    x := r.data[n];
    r := Heap(r.data[..n], r.index);
  }

  // ---------- laws ----------

  /** The top stands above every item. */
  lemma {:induction false} TopAbove<K>(o: Order, ranks: Ranks<K>, h: Heap<K>, j: int)
    requires Ordered(o, ranks, h) && 0 <= j < |h.data|
    ensures Le(o, ranks, h.data, 0, j)
    decreases j
  {
    if j > 0 {
      TopAbove(o, ranks, h, Parent(j));
      assert Edge(o, ranks, h.data, j);
      AboveTransitive(o, RankOf(ranks, h.data[0]), RankOf(ranks, h.data[Parent(j)]), RankOf(ranks, h.data[j]));
    }
  }

  lemma TopAboveAll<K>(o: Order, ranks: Ranks<K>, h: Heap<K>, x: K)
    requires Ordered(o, ranks, h) && x in h.data
    ensures Above(o, RankOf(ranks, h.data[0]), RankOf(ranks, x))
  {
    var j :| 0 <= j < |h.data| && h.data[j] == x;
    TopAbove(o, ranks, h, j);
  }

  /** A heap in order stays so, up to one item, when the rank of that item changes. */
  lemma Perturbed<K>(o: Order, ranks: Ranks<K>, ranks': Ranks<K>, h: Heap<K>, i: int)
    requires Indexed(h) && Ordered(o, ranks, h) && 0 <= i < |h.data|
    requires forall k :: k in h.data && k != h.data[i] ==> RankOf(ranks', k) == RankOf(ranks, k)
    ensures OrderedBut(o, ranks', h.data, |h.data|, i)
  {
    var data := h.data;
    forall j | 0 <= j < |data| && j != i ensures RankOf(ranks', data[j]) == RankOf(ranks, data[j]) {
      assert h.index[data[j]] == j && h.index[data[i]] == i;
    }
    forall j | 0 < j < |data| && j != i && Parent(j) != i ensures Edge(o, ranks', data, j) {
      assert Edge(o, ranks, data, j);
    }
    forall j | 0 < j < |data| && Parent(j) == i && i > 0 ensures Le(o, ranks', data, Parent(i), j) {
      assert Edge(o, ranks, data, j) && Edge(o, ranks, data, i);
      AboveTransitive(o, RankOf(ranks, data[Parent(i)]), RankOf(ranks, data[i]), RankOf(ranks, data[j]));
    }
  }

  /** Ranks of items outside the heap do not matter. */
  lemma SameRanks<K>(o: Order, ranks: Ranks<K>, ranks': Ranks<K>, h: Heap<K>)
    requires Ordered(o, ranks, h) && forall k :: k in h.data ==> RankOf(ranks', k) == RankOf(ranks, k)
    ensures Ordered(o, ranks', h)
  {
    forall j | 0 < j < |h.data| ensures Edge(o, ranks', h.data, j) {
      assert Edge(o, ranks, h.data, j);
    }
  }
}
