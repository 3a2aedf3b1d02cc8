/** The curve group as an abstract module over the integers modulo its order, and sums over it. */
module CurveGroup {
  import opened Scalars

  /** The operations of ECPoint, the scalar modulus with reduction and inverse, and the two uses of SHA-256 that
      turn one or two points into a challenge. */
  datatype Curve<!P> = Curve(
    zero: P,
    add: (P, P) -> P,
    mult: (P, int) -> P,
    neg: P -> P,
    xcoord: P -> int,
    n: int,
    red: int -> int,
    inv: int -> int,
    hash1: P -> int,
    hash2: (P, P) -> int)
  {
    /** ECPoint.Equal compares the X coordinates only. */
    predicate Equal(p: P, q: P) {
      xcoord(p) == xcoord(q)
    }
  }

  // Instances of the laws below are asked for by name.
  predicate Ask1<A>(a: A) { true }
  predicate Ask2<A, B>(a: A, b: B) { true }
  predicate Ask3<A, B, C>(a: A, b: B, c: C) { true }

  /** The group laws; every scalar that is not a multiple of the order has an inverse. */
  ghost predicate Laws<P(!new)>(c: Curve<P>) {
    && c.n > 1
    && (forall p, q {:trigger Ask2(p, q)} :: c.add(p, q) == c.add(q, p))
    && (forall p, q, r {:trigger Ask3(p, q, r)} :: c.add(c.add(p, q), r) == c.add(p, c.add(q, r)))
    && (forall p {:trigger Ask1(p)} :: c.add(p, c.zero) == p && c.add(p, c.neg(p)) == c.zero && c.mult(p, 1) == p)
    && (forall p, s: int, t: int {:trigger Ask3(p, s, t)} ::
          c.mult(p, s + t) == c.add(c.mult(p, s), c.mult(p, t)) && c.mult(c.mult(p, s), t) == c.mult(p, s * t))
    && (forall p, q, s: int {:trigger Ask3(p, q, s)} :: c.mult(c.add(p, q), s) == c.add(c.mult(p, s), c.mult(q, s)))
    && (forall p, s: int {:trigger Ask2(p, s)} :: c.mult(p, s) == c.mult(p, c.red(s)))
    && (forall x: int {:trigger Ask1(x)} ::
          c.red(x) == x % c.n && (x % c.n != 0 ==> (x * c.inv(x)) % c.n == 1))
  }

  /** Equality of scalars modulo the group order. */
  ghost predicate Eq<P>(c: Curve<P>, a: int, b: int) {
    c.red(a) == c.red(b)
  }

  lemma Reduced<P(!new)>(c: Curve<P>, x: int)
    requires Laws(c)
    ensures c.red(x) == x % c.n
  {
    assert Ask1(x);
  }

  lemma EqIff<P(!new)>(c: Curve<P>, a: int, b: int)
    requires Laws(c)
    ensures Eq(c, a, b) <==> Cg(c.n, a, b)
  {
    Reduced(c, a);
    Reduced(c, b);
  }

  lemma EqRed<P(!new)>(c: Curve<P>, x: int)
    requires Laws(c)
    ensures Eq(c, c.red(x), x)
  {
    Reduced(c, x);
    Reduced(c, c.red(x));
    CgMod(c.n, x);
  }

  lemma EqAdd<P(!new)>(c: Curve<P>, a: int, b: int, d: int, e: int)
    requires Laws(c) && Eq(c, a, b) && Eq(c, d, e)
    ensures Eq(c, a + d, b + e) && Eq(c, a - d, b - e)
  {
    EqIff(c, a, b);
    EqIff(c, d, e);
    CgAdd(c.n, a, b, d, e);
    EqIff(c, a + d, b + e);
    EqIff(c, a - d, b - e);
  }

  lemma EqMul<P(!new)>(c: Curve<P>, a: int, b: int, d: int, e: int)
    requires Laws(c) && Eq(c, a, b) && Eq(c, d, e)
    ensures Eq(c, a * d, b * e)
  {
    EqIff(c, a, b);
    EqIff(c, d, e);
    CgMul(c.n, a, b, d, e);
    EqIff(c, a * d, b * e);
  }

  /** Inverses are unique, and an inverse of a product is the product of inverses. */
  lemma EqInverse<P(!new)>(c: Curve<P>, x: int, y: int, z: int)
    requires Laws(c) && Eq(c, x * y, 1) && Eq(c, x * z, 1)
    ensures Eq(c, y, z)
  {
    EqIff(c, x * y, 1);
    EqIff(c, x * z, 1);
    InverseUnique(c.n, x, y, z);
    EqIff(c, y, z);
  }

  lemma EqInverseProduct<P(!new)>(c: Curve<P>, x: int, xi: int, y: int, yi: int)
    requires Laws(c) && Eq(c, x * xi, 1) && Eq(c, y * yi, 1)
    ensures Eq(c, (x * y) * (xi * yi), 1)
  {
    EqMul(c, x * xi, 1, y * yi, 1);
    assert (x * xi) * (y * yi) == (x * y) * (xi * yi);
  }

  lemma HasInverse<P(!new)>(c: Curve<P>, x: int, xi: int)
    requires Laws(c) && Eq(c, x * xi, 1)
    ensures c.red(x) != 0
  {
    EqIff(c, x * xi, 1);
    InvertibleNonZero(c.n, x, xi);
    Reduced(c, x);
  }

  lemma AddComm<P(!new)>(c: Curve<P>, p: P, q: P)
    requires Laws(c)
    ensures c.add(p, q) == c.add(q, p)
  {
    assert Ask2(p, q);
  }

  lemma AddAssoc<P(!new)>(c: Curve<P>, p: P, q: P, r: P)
    requires Laws(c)
    ensures c.add(c.add(p, q), r) == c.add(p, c.add(q, r))
  {
    assert Ask3(p, q, r);
  }

  lemma AddZero<P(!new)>(c: Curve<P>, p: P)
    requires Laws(c)
    ensures c.add(p, c.zero) == p && c.add(c.zero, p) == p && c.add(p, c.neg(p)) == c.zero
  {
    assert Ask1(p);
    AddComm(c, p, c.zero);
  }

  lemma MultOne<P(!new)>(c: Curve<P>, p: P)
    requires Laws(c)
    ensures c.mult(p, 1) == p
  {
    assert Ask1(p);
  }

  lemma MultSum<P(!new)>(c: Curve<P>, p: P, s: int, t: int)
    requires Laws(c)
    ensures c.mult(p, s + t) == c.add(c.mult(p, s), c.mult(p, t)) && c.mult(c.mult(p, s), t) == c.mult(p, s * t)
  {
    assert Ask3(p, s, t);
  }

  lemma MultDist<P(!new)>(c: Curve<P>, p: P, q: P, s: int)
    requires Laws(c)
    ensures c.mult(c.add(p, q), s) == c.add(c.mult(p, s), c.mult(q, s))
  {
    assert Ask3(p, q, s);
  }

  lemma MultCong<P(!new)>(c: Curve<P>, p: P, s: int, t: int)
    requires Laws(c) && Eq(c, s, t)
    ensures c.mult(p, s) == c.mult(p, t)
  {
    assert Ask2(p, s) && Ask2(p, t);
  }

  lemma Inverse<P(!new)>(c: Curve<P>, x: int)
    requires Laws(c) && c.red(x) != 0
    ensures Eq(c, x * c.inv(x), 1)
  {
    assert Ask1(x);
    EqIff(c, x * c.inv(x), 1);
    QuotientUnique(c.n, 1, 0, 1);
  }

  lemma MultZero<P(!new)>(c: Curve<P>, p: P)
    requires Laws(c)
    ensures c.mult(p, 0) == c.zero
  {
    var z := c.mult(p, 0);
    MultSum(c, p, 0, 0);
    AddZero(c, z);
    AddAssoc(c, z, z, c.neg(z));
  }

  lemma ZeroMult<P(!new)>(c: Curve<P>, s: int)
    requires Laws(c)
    ensures c.mult(c.zero, s) == c.zero
  {
    MultZero(c, c.zero);
    MultSum(c, c.zero, 0, s);
    assert 0 * s == 0;
  }

  lemma Interchange<P(!new)>(c: Curve<P>, p: P, q: P, r: P, s: P)
    requires Laws(c)
    ensures c.add(c.add(p, q), c.add(r, s)) == c.add(c.add(p, r), c.add(q, s))
  {
    AddAssoc(c, p, q, c.add(r, s));
    AddAssoc(c, q, r, s);
    AddComm(c, q, r);
    AddAssoc(c, r, q, s);
    AddAssoc(c, p, r, c.add(q, s));
  }

  // ---------- vectors of scalars ----------

  function VAdd(a: seq<int>, b: seq<int>): (r: seq<int>)
    requires |a| == |b|
    ensures |r| == |a| && forall i {:trigger r[i]} :: 0 <= i < |a| ==> r[i] == a[i] + b[i]
  {
    seq(|a|, i requires 0 <= i < |a| => a[i] + b[i])
  }

  function VScale(a: seq<int>, s: int): (r: seq<int>)
    ensures |r| == |a| && forall i {:trigger r[i]} :: 0 <= i < |a| ==> r[i] == a[i] * s
  {
    seq(|a|, i requires 0 <= i < |a| => a[i] * s)
  }

  ghost predicate EqVec<P>(c: Curve<P>, a: seq<int>, b: seq<int>) {
    |a| == |b| && forall i :: 0 <= i < |a| ==> Eq(c, a[i], b[i])
  }

  function Dot(a: seq<int>, b: seq<int>): int
    requires |a| == |b|
  {
    if |a| == 0 then 0 else Dot(a[..|a| - 1], b[..|a| - 1]) + a[|a| - 1] * b[|a| - 1]
  }

  // ---------- sums of multiples of points ----------

  /** a[0]*G[0] + a[1]*G[1] + ... */
  function Sum<P>(c: Curve<P>, g: seq<P>, a: seq<int>): P
    requires |g| == |a|
  {
    if |g| == 0 then c.zero
    else c.add(Sum(c, g[..|g| - 1], a[..|g| - 1]), c.mult(g[|g| - 1], a[|g| - 1]))
  }

  lemma {:induction false} SumAdd<P(!new)>(c: Curve<P>, g: seq<P>, a: seq<int>, b: seq<int>)
    requires Laws(c) && |g| == |a| == |b|
    ensures Sum(c, g, VAdd(a, b)) == c.add(Sum(c, g, a), Sum(c, g, b))
  {
    if |g| == 0 {
      AddZero(c, c.zero);
    } else {
      var m := |g| - 1;
      SumAdd(c, g[..m], a[..m], b[..m]);
      VAddFront(a, b, m);
      AddOneMore(c, Sum(c, g[..m], a[..m]), Sum(c, g[..m], b[..m]), g[m], a[m], b[m]);
    }
  }

  lemma VAddFront(a: seq<int>, b: seq<int>, m: nat)
    requires |a| == |b| == m + 1
    ensures VAdd(a, b)[..m] == VAdd(a[..m], b[..m]) && VAdd(a, b)[m] == a[m] + b[m]
  {
  }

  lemma AddOneMore<P(!new)>(c: Curve<P>, p: P, q: P, g: P, a: int, b: int)
    requires Laws(c)
    ensures c.add(c.add(p, q), c.mult(g, a + b)) == c.add(c.add(p, c.mult(g, a)), c.add(q, c.mult(g, b)))
  {
    MultSum(c, g, a, b);
    Interchange(c, p, q, c.mult(g, a), c.mult(g, b));
  }

  lemma {:induction false} SumScale<P(!new)>(c: Curve<P>, g: seq<P>, a: seq<int>, s: int)
    requires Laws(c) && |g| == |a|
    ensures Sum(c, g, VScale(a, s)) == c.mult(Sum(c, g, a), s)
  {
    if |g| == 0 {
      ZeroMult(c, s);
    } else {
      var m := |g| - 1;
      SumScale(c, g[..m], a[..m], s);
      assert VScale(a, s)[..m] == VScale(a[..m], s);
      MultSum(c, g[m], a[m], s);
      MultDist(c, Sum(c, g[..m], a[..m]), c.mult(g[m], a[m]), s);
    }
  }

  lemma {:induction false} SumCong<P(!new)>(c: Curve<P>, g: seq<P>, a: seq<int>, b: seq<int>)
    requires Laws(c) && |g| == |a| && EqVec(c, a, b)
    ensures Sum(c, g, a) == Sum(c, g, b)
  {
    if |g| > 0 {
      var m := |g| - 1;
      SumCong(c, g[..m], a[..m], b[..m]);
      MultCong(c, g[m], a[m], b[m]);
    }
  }

  lemma {:induction false} SumConcat<P(!new)>(c: Curve<P>, g: seq<P>, a: seq<int>, h: seq<P>, b: seq<int>)
    requires Laws(c) && |g| == |a| && |h| == |b|
    ensures Sum(c, g + h, a + b) == c.add(Sum(c, g, a), Sum(c, h, b))
  {
    if |h| == 0 {
      assert g + h == g && a + b == a;
      AddZero(c, Sum(c, g, a));
    } else {
      var m := |h| - 1;
      SumConcat(c, g, a, h[..m], b[..m]);
      assert (g + h)[..|g + h| - 1] == g + h[..m] && (a + b)[..|g + h| - 1] == a + b[..m];
      AddAssoc(c, Sum(c, g, a), Sum(c, h[..m], b[..m]), c.mult(h[m], b[m]));
    }
  }

  /** s*G + t*H, point by point. */
  function Mix<P>(c: Curve<P>, g: seq<P>, s: int, h: seq<P>, t: int): (r: seq<P>)
    requires |g| == |h|
    ensures |r| == |g| && forall i {:trigger r[i]} :: 0 <= i < |g| ==> r[i] == c.add(c.mult(g[i], s), c.mult(h[i], t))
  {
    seq(|g|, i requires 0 <= i < |g| => c.add(c.mult(g[i], s), c.mult(h[i], t)))
  }

  lemma {:induction false} SumMix<P(!new)>(c: Curve<P>, g: seq<P>, s: int, h: seq<P>, t: int, a: seq<int>)
    requires Laws(c) && |g| == |h| == |a|
    ensures Sum(c, Mix(c, g, s, h, t), a) == c.add(c.mult(Sum(c, g, a), s), c.mult(Sum(c, h, a), t))
  {
    if |g| == 0 {
      ZeroMult(c, s);
      ZeroMult(c, t);
      AddZero(c, c.zero);
    } else {
      var m := |g| - 1;
      SumMix(c, g[..m], s, h[..m], t, a[..m]);
      assert Mix(c, g, s, h, t)[..m] == Mix(c, g[..m], s, h[..m], t);
      MultDist(c, c.mult(g[m], s), c.mult(h[m], t), a[m]);
      Swap(c, g[m], s, a[m]);
      Swap(c, h[m], t, a[m]);
      MultDist(c, Sum(c, g[..m], a[..m]), c.mult(g[m], a[m]), s);
      MultDist(c, Sum(c, h[..m], a[..m]), c.mult(h[m], a[m]), t);
      Interchange(c, c.mult(Sum(c, g[..m], a[..m]), s), c.mult(Sum(c, h[..m], a[..m]), t),
                  c.mult(c.mult(g[m], a[m]), s), c.mult(c.mult(h[m], a[m]), t));
    }
  }

  lemma Swap<P(!new)>(c: Curve<P>, p: P, s: int, t: int)
    requires Laws(c)
    ensures c.mult(c.mult(p, s), t) == c.mult(c.mult(p, t), s)
  {
    MultSum(c, p, s, t);
    MultSum(c, p, t, s);
    assert s * t == t * s;
  }
}
