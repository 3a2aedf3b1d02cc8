/** vector.go: vectors of scalars, every operation reduced modulo the group order. */
module Vectors {
  import opened Scalars
  import opened CurveGroup

  function VectorAdd<P>(c: Curve<P>, v: seq<int>, w: seq<int>): (r: seq<int>)
    requires |v| == |w|
    ensures |r| == |v| && forall i {:trigger r[i]} :: 0 <= i < |v| ==> r[i] == c.red(v[i] + w[i])
  {
    seq(|v|, i requires 0 <= i < |v| => c.red(v[i] + w[i]))
  }

  function VectorHadamard<P>(c: Curve<P>, v: seq<int>, w: seq<int>): (r: seq<int>)
    requires |v| == |w|
    ensures |r| == |v| && forall i {:trigger r[i]} :: 0 <= i < |v| ==> r[i] == c.red(v[i] * w[i])
  {
    seq(|v|, i requires 0 <= i < |v| => c.red(v[i] * w[i]))
  }

  function VectorAddScalar<P>(c: Curve<P>, v: seq<int>, s: int): (r: seq<int>)
    ensures |r| == |v| && forall i {:trigger r[i]} :: 0 <= i < |v| ==> r[i] == c.red(v[i] + s)
  {
    seq(|v|, i requires 0 <= i < |v| => c.red(v[i] + s))
  }

  function ScalarVectorMul<P>(c: Curve<P>, v: seq<int>, s: int): (r: seq<int>)
    ensures |r| == |v| && forall i {:trigger r[i]} :: 0 <= i < |v| ==> r[i] == c.red(v[i] * s)
  {
    seq(|v|, i requires 0 <= i < |v| => c.red(v[i] * s))
  }

  function PowerVector<P>(c: Curve<P>, l: nat, base: int): (r: seq<int>)
    ensures |r| == l && forall i {:trigger r[i]} :: 0 <= i < l ==> r[i] == c.red(Pow(base, i))
  {
    seq(l, i requires 0 <= i < l => c.red(Pow(base, i)))
  }

  function Total(y: seq<int>): int {
    if |y| == 0 then 0 else Total(y[..|y| - 1]) + y[|y| - 1]
  }

  /** InnerProduct: products reduced one by one, the sum reduced at the end. */
  method InnerProduct<P(!new)>(c: Curve<P>, a: seq<int>, b: seq<int>) returns (r: int)
    requires Laws(c) && |a| == |b|
    ensures r == c.red(Dot(a, b))
  {
    var sum := 0;
    for i := 0 to |a|
      invariant Eq(c, sum, Dot(a[..i], b[..i]))
    {
      assert a[..i + 1][..i] == a[..i] && b[..i + 1][..i] == b[..i];
      EqRed(c, a[i] * b[i]);
      EqAdd(c, sum, Dot(a[..i], b[..i]), c.red(a[i] * b[i]), a[i] * b[i]);
      sum := sum + c.red(a[i] * b[i]);
    }
    assert a[..|a|] == a && b[..|a|] == b;
    r := c.red(sum);
  }

  /** VectorSum. */
  method VectorSum<P(!new)>(c: Curve<P>, y: seq<int>) returns (r: int)
    requires Laws(c)
    ensures r == c.red(Total(y))
  {
    r := 0;
    Reduced(c, 0);
    for i := 0 to |y|
      invariant r == c.red(Total(y[..i]))
    {
      assert y[..i + 1][..i] == y[..i];
      EqRed(c, Total(y[..i]));
      EqAdd(c, r, Total(y[..i]), y[i], y[i]);
      r := c.red(r + y[i]);
    }
    assert y[..|y|] == y;
  }

  // ---------- congruence and algebra of inner products ----------

  lemma {:induction false} DotCong<P(!new)>(c: Curve<P>, a: seq<int>, a': seq<int>, b: seq<int>, b': seq<int>)
    requires Laws(c) && EqVec(c, a, a') && EqVec(c, b, b') && |a| == |b|
    ensures Eq(c, Dot(a, b), Dot(a', b'))
  {
    if |a| > 0 {
      var m := |a| - 1;
      DotCong(c, a[..m], a'[..m], b[..m], b'[..m]);
      EqMul(c, a[m], a'[m], b[m], b'[m]);
      EqAdd(c, Dot(a[..m], b[..m]), Dot(a'[..m], b'[..m]), a[m] * b[m], a'[m] * b'[m]);
    }
  }

  lemma {:induction false} TotalCong<P(!new)>(c: Curve<P>, a: seq<int>, b: seq<int>)
    requires Laws(c) && EqVec(c, a, b)
    ensures Eq(c, Total(a), Total(b))
  {
    if |a| > 0 {
      var m := |a| - 1;
      TotalCong(c, a[..m], b[..m]);
      EqAdd(c, Total(a[..m]), Total(b[..m]), a[m], b[m]);
    }
  }

  lemma {:induction false} DotConcat(a: seq<int>, b: seq<int>, u: seq<int>, v: seq<int>)
    requires |a| == |b| && |u| == |v|
    ensures Dot(a + u, b + v) == Dot(a, b) + Dot(u, v)
  {
    if |u| == 0 {
      assert a + u == a && b + v == b;
    } else {
      var m := |u| - 1;
      DotConcat(a, b, u[..m], v[..m]);
      assert (a + u)[..|a + u| - 1] == a + u[..m] && (b + v)[..|a + u| - 1] == b + v[..m];
    }
  }

  lemma {:induction false} DotAddRight(a: seq<int>, b: seq<int>, d: seq<int>)
    requires |a| == |b| == |d|
    ensures Dot(a, VAdd(b, d)) == Dot(a, b) + Dot(a, d)
  {
    if |a| > 0 {
      var m := |a| - 1;
      DotAddRight(a[..m], b[..m], d[..m]);
      assert VAdd(b, d)[..m] == VAdd(b[..m], d[..m]);
      assert a[m] * (b[m] + d[m]) == a[m] * b[m] + a[m] * d[m];
    }
  }

  lemma {:induction false} DotScaleRight(a: seq<int>, b: seq<int>, s: int)
    requires |a| == |b|
    ensures Dot(a, VScale(b, s)) == Dot(a, b) * s
  {
    if |a| > 0 {
      var m := |a| - 1;
      DotScaleRight(a[..m], b[..m], s);
      assert VScale(b, s)[..m] == VScale(b[..m], s);
      assert a[m] * (b[m] * s) == (a[m] * b[m]) * s;
      assert (Dot(a[..m], b[..m]) + a[m] * b[m]) * s == Dot(a[..m], b[..m]) * s + (a[m] * b[m]) * s;
    }
  }

  lemma {:induction false} DotComm(a: seq<int>, b: seq<int>)
    requires |a| == |b|
    ensures Dot(a, b) == Dot(b, a)
  {
    if |a| > 0 {
      DotComm(a[..|a| - 1], b[..|a| - 1]);
    }
  }

  lemma DotAddLeft(a: seq<int>, b: seq<int>, d: seq<int>)
    requires |a| == |b| == |d|
    ensures Dot(VAdd(b, d), a) == Dot(b, a) + Dot(d, a)
  {
    DotAddRight(a, b, d);
    DotComm(a, VAdd(b, d));
    DotComm(a, b);
    DotComm(a, d);
  }

  lemma DotScaleLeft(a: seq<int>, b: seq<int>, s: int)
    requires |a| == |b|
    ensures Dot(VScale(b, s), a) == Dot(b, a) * s
  {
    DotScaleRight(a, b, s);
    DotComm(a, VScale(b, s));
    DotComm(a, b);
  }
}
