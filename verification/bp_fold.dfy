/** One halving step of the inner product argument. */
module Folding {
  import opened CurveGroup
  import opened Vectors

  function FoldG<P>(c: Curve<P>, m: nat, g: seq<P>, x: int): (r: seq<P>)
    requires |g| == 2 * m
    ensures |r| == m
  {
    Mix(c, g[..m], c.inv(x), g[m..], x)
  }

  function FoldH<P>(c: Curve<P>, m: nat, h: seq<P>, x: int): (r: seq<P>)
    requires |h| == 2 * m
    ensures |r| == m
  {
    Mix(c, h[..m], x, h[m..], c.inv(x))
  }

  /** x^2*L + P + x^-2*R */
  function FoldP<P>(c: Curve<P>, x: int, l: P, r: P, p: P): P
  {
    var x2 := c.red(x * x);
    c.add(c.add(c.mult(l, x2), p), c.mult(r, c.inv(x2)))
  }

  function FoldA<P>(c: Curve<P>, m: nat, a: seq<int>, x: int, xinv: int): (r: seq<int>)
    requires |a| == 2 * m
    ensures |r| == m
  {
    VectorAdd(c, ScalarVectorMul(c, a[..m], x), ScalarVectorMul(c, a[m..], xinv))
  }

  /** GenerateNewParams: the two generator vectors are filled point by point; the last of an odd number is dropped. */
  method GenerateNewParams<P>(c: Curve<P>, g: seq<P>, h: seq<P>, x: int, l: P, r: P, p: P, ghost m: nat)
    returns (gprime: seq<P>, hprime: seq<P>, pprime: P)
    requires |g| == |h| && 2 * m <= |g| <= 2 * m + 1
    ensures |gprime| == |hprime| == m && pprime == FoldP(c, x, l, r, p)
    ensures gprime == FoldG(c, m, g[..2 * m], x) && hprime == FoldH(c, m, h[..2 * m], x)
  {
    var nprime := |g| / 2;
    assert nprime == m;
    gprime, hprime := [], [];
    var xinv := c.inv(x);
    for i := 0 to nprime
      invariant gprime == FoldG(c, m, g[..2 * m], x)[..i] && hprime == FoldH(c, m, h[..2 * m], x)[..i]
    {
      gprime := gprime + [c.add(c.mult(g[i], xinv), c.mult(g[i + nprime], x))];
      hprime := hprime + [c.add(c.mult(h[i], x), c.mult(h[i + nprime], xinv))];
    }
    var x2 := c.red(x * x);
    var xinv2 := c.inv(x2);
    pprime := c.add(c.add(c.mult(l, x2), p), c.mult(r, xinv2));
  }

  /** TwoVectorPCommitWithGens. */
  method TwoVectorCommit<P>(c: Curve<P>, g: seq<P>, h: seq<P>, a: seq<int>, b: seq<int>) returns (r: P)
    requires |g| == |a| && |h| == |b|
    ensures r == Commit2(c, g, h, a, b)
  {
    var left, right := c.zero, c.zero;
    for i := 0 to |g|
      invariant left == Sum(c, g[..i], a[..i])
    {
      assert g[..i + 1][..i] == g[..i] && a[..i + 1][..i] == a[..i];
      left := c.add(left, c.mult(g[i], a[i]));
    }
    for i := 0 to |h|
      invariant right == Sum(c, h[..i], b[..i])
    {
      assert h[..i + 1][..i] == h[..i] && b[..i + 1][..i] == b[..i];
      right := c.add(right, c.mult(h[i], b[i]));
    }
    assert g[..|g|] == g && h[..|h|] == h && a[..|a|] == a && b[..|b|] == b;
    r := c.add(left, right);
  }

  function Commit2<P>(c: Curve<P>, g: seq<P>, h: seq<P>, a: seq<int>, b: seq<int>): P
    requires |g| == |a| && |h| == |b|
  {
    c.add(Sum(c, g, a), Sum(c, h, b))
  }

  /** <a,G> + <b,H> + <a,b>*u: what the prover knows an opening of at every level. */
  function Commit<P>(c: Curve<P>, g: seq<P>, h: seq<P>, a: seq<int>, b: seq<int>, u: P): P
    requires |g| == |a| && |h| == |b| && |a| == |b|
  {
    c.add(Commit2(c, g, h, a, b), c.mult(u, Dot(a, b)))
  }

  /** The cross terms the prover sends. */
  function LeftPoint<P>(c: Curve<P>, m: nat, g: seq<P>, h: seq<P>, a: seq<int>, b: seq<int>, u: P): P
    requires |g| == |h| == |a| == |b| == 2 * m
  {
    c.add(Commit2(c, g[m..], h[..m], a[..m], b[m..]), c.mult(u, c.red(Dot(a[..m], b[m..]))))
  }

  function RightPoint<P>(c: Curve<P>, m: nat, g: seq<P>, h: seq<P>, a: seq<int>, b: seq<int>, u: P): P
    requires |g| == |h| == |a| == |b| == 2 * m
  {
    c.add(Commit2(c, g[..m], h[m..], a[m..], b[..m]), c.mult(u, c.red(Dot(a[m..], b[..m]))))
  }

  // ---------- the folding identity ----------

  /** Folding points with (s, t) and scalars with (t, s) keeps the straight products and adds the cross
      ones, weighted with the squares. */
  lemma FoldSum<P(!new)>(c: Curve<P>, lo: seq<P>, hi: seq<P>, u: seq<int>, v: seq<int>, s: int, t: int, s2: int,
                         t2: int)
    requires Laws(c) && |lo| == |hi| == |u| == |v|
    requires Eq(c, t * s, 1) && Eq(c, s * s, s2) && Eq(c, t * t, t2)
    ensures Sum(c, Mix(c, lo, s, hi, t), VAdd(VScale(u, t), VScale(v, s))) ==
      c.add(c.add(Sum(c, lo, u), Sum(c, hi, v)), c.add(c.mult(Sum(c, hi, u), t2), c.mult(Sum(c, lo, v), s2)))
  {
    SumMix(c, lo, s, hi, t, VAdd(VScale(u, t), VScale(v, s)));
    FoldHalf(c, lo, u, t, v, s, s);
    FoldHalf(c, hi, u, t, v, s, t);
    Cancel(c, Sum(c, lo, u), t, s);
    Cancel(c, Sum(c, hi, v), s, t);
    Square(c, Sum(c, lo, v), s, s2);
    Square(c, Sum(c, hi, u), t, t2);
    var p, q := Sum(c, lo, u), c.mult(Sum(c, lo, v), s2);
    var r, w := c.mult(Sum(c, hi, u), t2), Sum(c, hi, v);
    AddComm(c, r, w);
    Interchange(c, p, q, w, r);
    AddComm(c, q, r);
  }

  lemma Square<P(!new)>(c: Curve<P>, p: P, s: int, s2: int)
    requires Laws(c) && Eq(c, s * s, s2)
    ensures c.mult(c.mult(p, s), s) == c.mult(p, s2)
  {
    MultSum(c, p, s, s);
    MultCong(c, p, s * s, s2);
  }

  lemma FoldHalf<P(!new)>(c: Curve<P>, g: seq<P>, u: seq<int>, t: int, v: seq<int>, s: int, k: int)
    requires Laws(c) && |g| == |u| == |v|
    ensures c.mult(Sum(c, g, VAdd(VScale(u, t), VScale(v, s))), k) ==
      c.add(c.mult(c.mult(Sum(c, g, u), t), k), c.mult(c.mult(Sum(c, g, v), s), k))
  {
    SumAdd(c, g, VScale(u, t), VScale(v, s));
    SumScale(c, g, u, t);
    SumScale(c, g, v, s);
    MultDist(c, c.mult(Sum(c, g, u), t), c.mult(Sum(c, g, v), s), k);
  }

  lemma Cancel<P(!new)>(c: Curve<P>, p: P, s: int, t: int)
    requires Laws(c) && (Eq(c, s * t, 1) || Eq(c, t * s, 1))
    ensures c.mult(c.mult(p, s), t) == p
  {
    assert s * t == t * s;
    MultSum(c, p, s, t);
    MultCong(c, p, s * t, 1);
    MultOne(c, p);
  }

  lemma FoldDotHalf(u: seq<int>, v: seq<int>, w: seq<int>, s: int, t: int)
    requires |u| == |v| == |w|
    ensures Dot(VAdd(VScale(u, t), VScale(v, s)), w) == Dot(u, w) * t + Dot(v, w) * s
  {
    DotAddLeft(w, VScale(u, t), VScale(v, s));
    DotScaleLeft(w, u, t);
    DotScaleLeft(w, v, s);
  }

  lemma FoldDot(u: seq<int>, v: seq<int>, w: seq<int>, z: seq<int>, s: int, t: int)
    returns (ab: int, d: int, cl: int, cr: int)
    requires |u| == |v| == |w| == |z|
    ensures ab == Dot(VAdd(VScale(u, t), VScale(v, s)), VAdd(VScale(w, s), VScale(z, t)))
    ensures d == Dot(u, w) + Dot(v, z) && cl == Dot(u, z) && cr == Dot(v, w)
    ensures ab == d * (t * s) + cl * (t * t) + cr * (s * s)
  {
    var a := VAdd(VScale(u, t), VScale(v, s));
    ab := Dot(a, VAdd(VScale(w, s), VScale(z, t)));
    var aw, az, uw, vz := Dot(a, w), Dot(a, z), Dot(u, w), Dot(v, z);
    d, cl, cr := uw + vz, Dot(u, z), Dot(v, w);
    FoldDotGlue(ab, aw, az, uw, cr, cl, vz, s, t) by {
      FoldDotOuter(a, w, z, s, t);
      FoldDotHalf(u, v, w, s, t);
      FoldDotHalf(u, v, z, s, t);
    }
  }

  lemma FoldDotOuter(a: seq<int>, w: seq<int>, z: seq<int>, s: int, t: int)
    requires |a| == |w| == |z|
    ensures Dot(a, VAdd(VScale(w, s), VScale(z, t))) == Dot(a, w) * s + Dot(a, z) * t
  {
    DotAddRight(a, VScale(w, s), VScale(z, t));
    DotScaleRight(a, w, s);
    DotScaleRight(a, z, t);
  }

  lemma FoldDotGlue(ab: int, aw: int, az: int, uw: int, vw: int, uz: int, vz: int, s: int, t: int)
    requires ab == aw * s + az * t && aw == uw * t + vw * s && az == uz * t + vz * s
    ensures ab == (uw + vz) * (t * s) + uz * (t * t) + vw * (s * s)
  {
    assert aw * s == uw * t * s + vw * s * s;
    assert az * t == uz * t * t + vz * s * t;
    assert (uw + vz) * (t * s) == uw * t * s + vz * s * t;
    assert uz * (t * t) == uz * t * t && vw * (s * s) == vw * s * s;
  }

  /** Rows regrouped as columns. */
  lemma Transpose<P(!new)>(c: Curve<P>, a1: P, a2: P, a3: P, b1: P, b2: P, b3: P, d1: P, d2: P, d3: P)
    requires Laws(c)
    ensures c.add(c.add(c.add(a1, c.add(a2, a3)), c.add(b1, c.add(b2, b3))), c.add(d1, c.add(d2, d3))) ==
      c.add(c.add(c.add(c.add(a2, b2), d2), c.add(c.add(a1, b1), d1)), c.add(c.add(a3, b3), d3))
  {
    Interchange(c, a1, c.add(a2, a3), b1, c.add(b2, b3));
    Interchange(c, a2, a3, b2, b3);
    Interchange(c, c.add(a1, b1), c.add(c.add(a2, b2), c.add(a3, b3)), d1, c.add(d2, d3));
    Interchange(c, c.add(a2, b2), c.add(a3, b3), d2, d3);
    var one, two, three := c.add(c.add(a1, b1), d1), c.add(c.add(a2, b2), d2), c.add(c.add(a3, b3), d3);
    AddAssoc(c, one, two, three);
    AddComm(c, one, two);
  }

  lemma FoldACong<P(!new)>(c: Curve<P>, m: nat, a: seq<int>, x: int, xinv: int)
    requires Laws(c) && |a| == 2 * m
    ensures EqVec(c, FoldA(c, m, a, x, xinv), VAdd(VScale(a[..m], x), VScale(a[m..], xinv)))
  {
    var r, ideal := FoldA(c, m, a, x, xinv), VAdd(VScale(a[..m], x), VScale(a[m..], xinv));
    forall i | 0 <= i < m ensures Eq(c, r[i], ideal[i]) {
      ReducedSum(c, a[..m][i] * x, a[m..][i] * xinv);
    }
  }

  lemma ReducedSum<P(!new)>(c: Curve<P>, s: int, t: int)
    requires Laws(c)
    ensures Eq(c, c.red(c.red(s) + c.red(t)), s + t)
  {
    EqRed(c, s);
    EqRed(c, t);
    EqAdd(c, c.red(s), s, c.red(t), t);
    EqRed(c, c.red(s) + c.red(t));
  }

  /** The inverse of the reduced square is the square of the inverse. */
  lemma InverseOfSquare<P(!new)>(c: Curve<P>, x: int)
    requires Laws(c) && c.red(x) != 0
    ensures Eq(c, x * x, c.red(x * x)) && Eq(c, c.inv(x) * c.inv(x), c.inv(c.red(x * x)))
  {
    var xi, x2 := c.inv(x), c.red(x * x);
    Inverse(c, x);
    EqInverseProduct(c, x, xi, x, xi);
    EqRed(c, x * x);
    EqMul(c, x2, x * x, xi * xi, xi * xi);
    HasInverse(c, x2, xi * xi);
    Inverse(c, x2);
    EqInverse(c, x2, c.inv(x2), xi * xi);
  }

  /** One side of the commitment after a fold, for either order of the two factors. */
  lemma FoldSide<P(!new)>(c: Curve<P>, m: nat, g: seq<P>, a: seq<int>, folded: seq<int>, s: int, t: int, s2: int,
                          t2: int)
    requires Laws(c) && |g| == |a| == 2 * m
    requires Eq(c, t * s, 1) && Eq(c, s * s, s2) && Eq(c, t * t, t2)
    requires EqVec(c, folded, VAdd(VScale(a[..m], t), VScale(a[m..], s)))
    ensures
      Sum(c, Mix(c, g[..m], s, g[m..], t), folded) ==
      c.add(Sum(c, g, a), c.add(c.mult(Sum(c, g[m..], a[..m]), t2), c.mult(Sum(c, g[..m], a[m..]), s2)))
  {
    SumCong(c, Mix(c, g[..m], s, g[m..], t), folded, VAdd(VScale(a[..m], t), VScale(a[m..], s)));
    FoldSum(c, g[..m], g[m..], a[..m], a[m..], s, t, s2, t2);
    SumConcat(c, g[..m], a[..m], g[m..], a[m..]);
    assert g[..m] + g[m..] == g && a[..m] + a[m..] == a;
  }

  lemma FoldedDot<P(!new)>(c: Curve<P>, m: nat, a: seq<int>, b: seq<int>, fa: seq<int>, fb: seq<int>, s: int, t: int,
                           s2: int, t2: int)
    returns (f: int, d: int, cl: int, cr: int)
    requires Laws(c) && |a| == |b| == 2 * m
    requires Eq(c, t * s, 1) && Eq(c, s * s, s2) && Eq(c, t * t, t2)
    requires EqVec(c, fa, VAdd(VScale(a[..m], t), VScale(a[m..], s)))
    requires EqVec(c, fb, VAdd(VScale(b[..m], s), VScale(b[m..], t)))
    ensures f == Dot(fa, fb) && d == Dot(a, b) && cl == Dot(a[..m], b[m..]) && cr == Dot(a[m..], b[..m])
    ensures Eq(c, f, d + (cl * t2 + cr * s2))
  {
    f := Dot(fa, fb);
    DotCong(c, fa, VAdd(VScale(a[..m], t), VScale(a[m..], s)), fb, VAdd(VScale(b[..m], s), VScale(b[m..], t)));
    var ab;
    ab, d, cl, cr := FoldDot(a[..m], a[m..], b[..m], b[m..], s, t);
    assert d == Dot(a, b) by {
      DotConcat(a[..m], b[..m], a[m..], b[m..]);
      assert a[..m] + a[m..] == a && b[..m] + b[m..] == b;
    }
    Weights(c, d, cl, cr, s, t, s2, t2);
  }

  lemma Weights<P(!new)>(c: Curve<P>, d: int, cl: int, cr: int, s: int, t: int, s2: int, t2: int)
    requires Laws(c) && Eq(c, t * s, 1) && Eq(c, s * s, s2) && Eq(c, t * t, t2)
    ensures Eq(c, d * (t * s) + cl * (t * t) + cr * (s * s), d + (cl * t2 + cr * s2))
  {
    EqMul(c, d, d, t * s, 1);
    EqMul(c, cl, cl, t * t, t2);
    EqMul(c, cr, cr, s * s, s2);
    EqAdd(c, cl * (t * t), cl * t2, cr * (s * s), cr * s2);
    EqAdd(c, d * (t * s), d, cl * (t * t) + cr * (s * s), cl * t2 + cr * s2);
  }

  /** Every recursion step keeps P' = <G',a'> + <H',b'> + <a',b'>*u. */
  lemma FoldCommit<P(!new)>(c: Curve<P>, m: nat, g: seq<P>, h: seq<P>, a: seq<int>, b: seq<int>, u: P, x: int)
    requires Laws(c) && |g| == |h| == |a| == |b| == 2 * m && c.red(x) != 0
    ensures Commit(c, FoldG(c, m, g, x), FoldH(c, m, h, x), FoldA(c, m, a, x, c.inv(x)), FoldA(c, m, b, c.inv(x), x),
                   u) ==
      FoldP(c, x, LeftPoint(c, m, g, h, a, b, u), RightPoint(c, m, g, h, a, b, u), Commit(c, g, h, a, b, u))
  {
    var xi, x2 := c.inv(x), c.red(x * x);
    Inverse(c, x);
    assert xi * x == x * xi;
    InverseOfSquare(c, x);
    FoldACong(c, m, a, x, xi);
    FoldACong(c, m, b, xi, x);
    FoldCommitWith(c, m, g, h, a, b, FoldA(c, m, a, x, xi), FoldA(c, m, b, xi, x), u, xi, x, c.inv(x2), x2);
  }

  lemma ThreeParts<P(!new)>(c: Curve<P>, u: P, f: int, d: int, l: int, r: int)
    requires Laws(c) && Eq(c, f, d + (l + r))
    ensures c.mult(u, f) == c.add(c.mult(u, d), c.add(c.mult(u, l), c.mult(u, r)))
  {
    MultCong(c, u, f, d + (l + r));
    MultSum(c, u, d, l + r);
    MultSum(c, u, l, r);
  }

  lemma FoldCommitWith<P(!new)>(c: Curve<P>, m: nat, g: seq<P>, h: seq<P>, a: seq<int>, b: seq<int>, fa: seq<int>,
                                fb: seq<int>,
                                u: P, s: int, t: int, s2: int, t2: int)
    requires Laws(c) && |g| == |h| == |a| == |b| == 2 * m
    requires Eq(c, t * s, 1) && Eq(c, s * t, 1) && Eq(c, s * s, s2) && Eq(c, t * t, t2)
    requires EqVec(c, fa, VAdd(VScale(a[..m], t), VScale(a[m..], s)))
    requires EqVec(c, fb, VAdd(VScale(b[..m], s), VScale(b[m..], t)))
    ensures
      Commit(c, Mix(c, g[..m], s, g[m..], t), Mix(c, h[..m], t, h[m..], s), fa, fb, u) ==
      c.add(c.add(c.mult(LeftPoint(c, m, g, h, a, b, u), t2), Commit(c, g, h, a, b, u)),
            c.mult(RightPoint(c, m, g, h, a, b, u), s2))
  {
    FoldSide(c, m, g, a, fa, s, t, s2, t2);
    FoldSide(c, m, h, b, fb, t, s, t2, s2);
    var hs, ht := c.mult(Sum(c, h[m..], b[..m]), s2), c.mult(Sum(c, h[..m], b[m..]), t2);
    AddComm(c, hs, ht);
    var f, d, cl, cr := FoldedDot(c, m, a, b, fa, fb, s, t, s2, t2);
    ThreeParts(c, u, f, d, cl * t2, cr * s2);
    Crossed(c, g[m..], h[..m], a[..m], b[m..], u, cl, t2);
    Crossed(c, g[..m], h[m..], a[m..], b[..m], u, cr, s2);
    Transpose(c, Sum(c, g, a), c.mult(Sum(c, g[m..], a[..m]), t2), c.mult(Sum(c, g[..m], a[m..]), s2),
              Sum(c, h, b), ht, hs, c.mult(u, d), c.mult(u, cl * t2), c.mult(u, cr * s2));
  }

  lemma Crossed<P(!new)>(c: Curve<P>, g: seq<P>, h: seq<P>, a: seq<int>, b: seq<int>, u: P, d: int, k: int)
    requires Laws(c) && |g| == |a| && |h| == |b|
    ensures c.mult(c.add(Commit2(c, g, h, a, b), c.mult(u, c.red(d))), k) ==
      c.add(c.add(c.mult(Sum(c, g, a), k), c.mult(Sum(c, h, b), k)), c.mult(u, d * k))
  {
    MultDist(c, Commit2(c, g, h, a, b), c.mult(u, c.red(d)), k);
    MultDist(c, Sum(c, g, a), Sum(c, h, b), k);
    EqRed(c, d);
    MultCong(c, u, c.red(d), d);
    MultSum(c, u, d, k);
  }
}
