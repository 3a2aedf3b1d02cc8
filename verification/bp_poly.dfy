/** The polynomial identity behind the range proof: t(x) = <l(x), r(x)>. */
module RangePolynomial {
  import opened CurveGroup
  import opened Vectors

  // ---------- the vectors of the code ----------

  /** CalculateL: (aL - z) + sL*x */
  function CalculateL<P>(c: Curve<P>, aL: seq<int>, sL: seq<int>, z: int, x: int): (r: seq<int>)
    requires |aL| == |sL|
    ensures |r| == |aL|
  {
    VectorAdd(c, VectorAddScalar(c, aL, -z), ScalarVectorMul(c, sL, x))
  }

  /** CalculateR with the weights already multiplied out: y o (aR + z + sR*x) + w */
  function CalculateR<P>(c: Curve<P>, aR: seq<int>, sR: seq<int>, y: seq<int>, w: seq<int>, z: int,
                         x: int): (r: seq<int>)
    requires |aR| == |sR| == |y| == |w|
    ensures |r| == |aR|
  {
    VectorAdd(c, VectorHadamard(c, y, VectorAdd(c, VectorAddScalar(c, aR, z), ScalarVectorMul(c, sR, x))), w)
  }

  function R0<P>(c: Curve<P>, aR: seq<int>, y: seq<int>, w: seq<int>, z: int): (r: seq<int>)
    requires |aR| == |y| == |w|
    ensures |r| == |aR|
  {
    VectorAdd(c, VectorHadamard(c, y, VectorAddScalar(c, aR, z)), w)
  }

  // ---------- the same vectors without reduction ----------

  ghost function Shift(a: seq<int>, s: int): (r: seq<int>)
    ensures |r| == |a| && forall i {:trigger r[i]} :: 0 <= i < |a| ==> r[i] == a[i] + s
  {
    seq(|a|, i requires 0 <= i < |a| => a[i] + s)
  }

  ghost function Had(a: seq<int>, b: seq<int>): (r: seq<int>)
    requires |a| == |b|
    ensures |r| == |a| && forall i {:trigger r[i]} :: 0 <= i < |a| ==> r[i] == a[i] * b[i]
  {
    seq(|a|, i requires 0 <= i < |a| => a[i] * b[i])
  }

  /** y o (aL - 1 + z) + w */
  ghost function Right0(aL: seq<int>, y: seq<int>, w: seq<int>, z: int): (r: seq<int>)
    requires |aL| == |y| == |w|
    ensures |r| == |aL|
  {
    VAdd(Had(y, Shift(aL, z - 1)), w)
  }

  lemma LCong<P(!new)>(c: Curve<P>, aL: seq<int>, sL: seq<int>, z: int, x: int)
    requires Laws(c) && |aL| == |sL|
    ensures EqVec(c, VectorAddScalar(c, aL, -z), Shift(aL, -z))
    ensures EqVec(c, CalculateL(c, aL, sL, z, x), VAdd(Shift(aL, -z), VScale(sL, x)))
  {
    var l0, l, l1 := VectorAddScalar(c, aL, -z), CalculateL(c, aL, sL, z, x), ScalarVectorMul(c, sL, x);
    forall i | 0 <= i < |aL| ensures Eq(c, l0[i], aL[i] - z) && Eq(c, l[i], aL[i] - z + sL[i] * x) {
      EqRed(c, aL[i] - z);
      EqRed(c, sL[i] * x);
      EqAdd(c, l0[i], aL[i] - z, l1[i], sL[i] * x);
      EqRed(c, l0[i] + l1[i]);
    }
  }

  /** One entry of r(x), of its constant part and of its linear part. */
  lemma REntry<P(!new)>(c: Curve<P>, a: int, aR: int, s: int, y: int, w: int, w': int, z: int, x: int)
    requires Laws(c) && Eq(c, aR, a - 1) && Eq(c, w, w')
    ensures Eq(c, c.red(c.red(y * c.red(c.red(aR + z) + c.red(s * x))) + w), y * (a + (z - 1)) + w' + (s * y) * x)
    ensures Eq(c, c.red(c.red(y * c.red(aR + z)) + w), y * (a + (z - 1)) + w')
  {
    var b := a + (z - 1);
    EqAdd(c, aR, a - 1, z, z);
    EqRed(c, aR + z);
    EqRed(c, s * x);
    EqAdd(c, c.red(aR + z), b, c.red(s * x), s * x);
    EqRed(c, c.red(aR + z) + c.red(s * x));
    Weighed(c, y, c.red(c.red(aR + z) + c.red(s * x)), b + s * x, w, w');
    assert y * (b + s * x) + w' == y * b + w' + (s * y) * x;
    Weighed(c, y, c.red(aR + z), b, w, w');
  }

  lemma Weighed<P(!new)>(c: Curve<P>, y: int, r: int, b: int, w: int, w': int)
    requires Laws(c) && Eq(c, r, b) && Eq(c, w, w')
    ensures Eq(c, c.red(c.red(y * r) + w), y * b + w')
  {
    EqMul(c, y, y, r, b);
    EqRed(c, y * r);
    EqAdd(c, c.red(y * r), y * b, w, w');
    EqRed(c, c.red(y * r) + w);
  }

  lemma RCong<P(!new)>(c: Curve<P>, aL: seq<int>, aR: seq<int>, sR: seq<int>, y: seq<int>, w: seq<int>, w': seq<int>,
                       z: int, x: int)
    requires Laws(c) && |aL| == |aR| == |sR| == |y| == |w| && EqVec(c, aR, Shift(aL, -1)) && EqVec(c, w, w')
    ensures EqVec(c, R0(c, aR, y, w, z), Right0(aL, y, w', z))
    ensures EqVec(c, CalculateR(c, aR, sR, y, w, z, x), VAdd(Right0(aL, y, w', z), VScale(Had(sR, y), x)))
  {
    var r0, r := R0(c, aR, y, w, z), CalculateR(c, aR, sR, y, w, z, x);
    var i0, ideal := Right0(aL, y, w', z), VAdd(Right0(aL, y, w', z), VScale(Had(sR, y), x));
    forall i | 0 <= i < |aL| ensures Eq(c, r0[i], i0[i]) && Eq(c, r[i], ideal[i]) {
      assert Eq(c, aR[i], Shift(aL, -1)[i]);
      REntry(c, aL[i], aR[i], sR[i], y[i], w[i], w'[i], z, x);
      REntryAt(c, aR, sR, y, w, z, x, i);
      IdealAt(aL, sR, y, w', z, x, i);
    }
  }

  lemma IdealAt(aL: seq<int>, sR: seq<int>, y: seq<int>, w: seq<int>, z: int, x: int, i: nat)
    requires |aL| == |sR| == |y| == |w| && i < |aL|
    ensures Right0(aL, y, w, z)[i] == y[i] * (aL[i] + (z - 1)) + w[i]
    ensures VAdd(Right0(aL, y, w, z), VScale(Had(sR, y), x))[i] ==
      y[i] * (aL[i] + (z - 1)) + w[i] + (sR[i] * y[i]) * x
  {
    assert Shift(aL, z - 1)[i] == aL[i] + (z - 1) && Had(y, Shift(aL, z - 1))[i] == y[i] * (aL[i] + (z - 1));
    assert Had(sR, y)[i] == sR[i] * y[i];
  }

  lemma REntryAt<P(!new)>(c: Curve<P>, aR: seq<int>, sR: seq<int>, y: seq<int>, w: seq<int>, z: int, x: int, i: nat)
    requires |aR| == |sR| == |y| == |w| && i < |aR|
    ensures R0(c, aR, y, w, z)[i] == c.red(c.red(y[i] * c.red(aR[i] + z)) + w[i])
    ensures CalculateR(c, aR, sR, y, w, z, x)[i] ==
      c.red(c.red(y[i] * c.red(c.red(aR[i] + z) + c.red(sR[i] * x))) + w[i])
  {
    assert VectorAddScalar(c, aR, z)[i] == c.red(aR[i] + z) && ScalarVectorMul(c, sR, x)[i] == c.red(sR[i] * x);
    assert VectorAdd(c, VectorAddScalar(c, aR, z), ScalarVectorMul(c, sR, x))[i] ==
      c.red(c.red(aR[i] + z) + c.red(sR[i] * x));
  }

  lemma HadCong<P(!new)>(c: Curve<P>, a: seq<int>, b: seq<int>)
    requires Laws(c) && |a| == |b|
    ensures EqVec(c, VectorHadamard(c, a, b), Had(a, b))
  {
    forall i | 0 <= i < |a| ensures Eq(c, VectorHadamard(c, a, b)[i], Had(a, b)[i]) {
      EqRed(c, a[i] * b[i]);
    }
  }

  // ---------- inner products ----------

  /** <l0 + l1*x, r0 + r1*x> as a polynomial in x. */
  lemma Bilinear(l0: seq<int>, l1: seq<int>, r0: seq<int>, r1: seq<int>, x: int)
    returns (d: int, d00: int, d10: int, d01: int, d11: int)
    requires |l0| == |l1| == |r0| == |r1|
    ensures d == Dot(VAdd(l0, VScale(l1, x)), VAdd(r0, VScale(r1, x)))
    ensures d00 == Dot(l0, r0) && d10 == Dot(l1, r0) && d01 == Dot(l0, r1) && d11 == Dot(l1, r1)
    ensures d == d00 + ((d10 + d01) * x + (x * x) * d11)
  {
    var l := VAdd(l0, VScale(l1, x));
    d, d00, d10, d01, d11 := Dot(l, VAdd(r0, VScale(r1, x))), Dot(l0, r0), Dot(l1, r0), Dot(l0, r1), Dot(l1, r1);
    var a, b := Dot(l, r0), Dot(l, r1);
    BilinearGlue(d, a, b, d00, d10, d01, d11, x) by {
      DotAddRight(l, r0, VScale(r1, x));
      DotScaleRight(l, r1, x);
      DotAddLeft(r0, l0, VScale(l1, x));
      DotScaleLeft(r0, l1, x);
      DotAddLeft(r1, l0, VScale(l1, x));
      DotScaleLeft(r1, l1, x);
    }
  }

  lemma BilinearGlue(d: int, a: int, b: int, d00: int, d10: int, d01: int, d11: int, x: int)
    requires d == a + b * x && a == d00 + d10 * x && b == d01 + d11 * x
    ensures d == d00 + ((d10 + d01) * x + (x * x) * d11)
  {
    assert b * x == d01 * x + d11 * x * x;
    assert (d10 + d01) * x == d10 * x + d01 * x && (x * x) * d11 == d11 * x * x;
  }

  ghost predicate AllBits(a: seq<int>) {
    forall i :: 0 <= i < |a| ==> a[i] == 0 || a[i] == 1
  }

  lemma TermSnoc(aL: seq<int>, y: seq<int>, w: seq<int>, z: int, m: nat)
    requires |aL| == |y| == |w| == m + 1
    ensures Dot(Shift(aL, -z), Right0(aL, y, w, z)) ==
      Dot(Shift(aL[..m], -z), Right0(aL[..m], y[..m], w[..m], z)) +
      (aL[m] - z) * (y[m] * (aL[m] + (z - 1)) + w[m])
  {
    assert Shift(aL, -z)[..m] == Shift(aL[..m], -z);
    assert Had(y, Shift(aL, z - 1))[..m] == Had(y[..m], Shift(aL[..m], z - 1));
    assert Right0(aL, y, w, z)[..m] == Right0(aL[..m], y[..m], w[..m], z);
  }

  /** The constant term: <aL - z, y o (aL - 1 + z) + w> = <aL,w> + (z - z^2)<1,y> - z<1,w>. */
  lemma {:induction false} ConstantTerm(aL: seq<int>, y: seq<int>, w: seq<int>, z: int)
    returns (d: int, dw: int, ty: int, tw: int)
    requires |aL| == |y| == |w| && AllBits(aL)
    ensures d == Dot(Shift(aL, -z), Right0(aL, y, w, z)) && dw == Dot(aL, w) && ty == Total(y) && tw == Total(w)
    ensures d == dw + (z - z * z) * ty - z * tw
  {
    d, dw, ty, tw := Dot(Shift(aL, -z), Right0(aL, y, w, z)), Dot(aL, w), Total(y), Total(w);
    if |aL| > 0 {
      var m := |aL| - 1;
      var d', dw', ty', tw' := ConstantTerm(aL[..m], y[..m], w[..m], z);
      var e := (aL[m] - z) * (y[m] * (aL[m] + (z - 1)) + w[m]);
      assert d == d' + e by { TermSnoc(aL, y, w, z, m); }
      ConstantStep(aL[m], y[m], w[m], z, dw', ty', tw', d', e);
      assert dw == dw' + aL[m] * w[m];
    }
  }

  lemma ConstantStep(a: int, y: int, w: int, z: int, dw: int, ty: int, tw: int, d: int, e: int)
    requires (a == 0 || a == 1) && d == dw + (z - z * z) * ty - z * tw && e == (a - z) * (y * (a + (z - 1)) + w)
    ensures d + e == (dw + a * w) + (z - z * z) * (ty + y) - z * (tw + w)
  {
    assert e == y * (z - z * z) + a * w - z * w by {
      assert (a - z) * (a + (z - 1)) == z - z * z by {
        if a == 0 { assert (-z) * (z - 1) == z - z * z; } else { assert (1 - z) * z == z - z * z; }
      }
      assert (a - z) * (y * (a + (z - 1)) + w) == (a - z) * (y * (a + (z - 1))) + (a - z) * w;
      assert (a - z) * (y * (a + (z - 1))) == y * ((a - z) * (a + (z - 1)));
      assert (a - z) * w == a * w - z * w;
    }
    assert (z - z * z) * (ty + y) == (z - z * z) * ty + (z - z * z) * y;
    assert (z - z * z) * y == y * (z - z * z);
    assert z * (tw + w) == z * tw + z * w;
  }

  // ---------- t(x) ----------

  function T1<P>(c: Curve<P>, aL: seq<int>, aR: seq<int>, sL: seq<int>, sR: seq<int>, y: seq<int>, w: seq<int>,
                 z: int): int
    requires |aL| == |aR| == |sL| == |sR| == |y| == |w|
  {
    c.red(c.red(Dot(sL, R0(c, aR, y, w, z))) + c.red(Dot(VectorAddScalar(c, aL, -z), VectorHadamard(c, sR, y))))
  }

  function T2<P>(c: Curve<P>, sL: seq<int>, sR: seq<int>, y: seq<int>): int
    requires |sL| == |sR| == |y|
  {
    c.red(Dot(sL, VectorHadamard(c, sR, y)))
  }

  /** t0 + t1*x + t2*x^2 */
  function That<P>(c: Curve<P>, t0: int, t1: int, t2: int, x: int): int {
    c.red(t0 + (t1 * x + (x * x) * t2))
  }

  lemma LinearTerms<P(!new)>(c: Curve<P>, aL: seq<int>, aR: seq<int>, sL: seq<int>, sR: seq<int>,
                             y: seq<int>, w: seq<int>, w': seq<int>, z: int)
    requires Laws(c) && |aL| == |aR| == |sL| == |sR| == |y| == |w|
    requires EqVec(c, aR, Shift(aL, -1)) && EqVec(c, w, w')
    ensures Eq(c, Dot(sL, R0(c, aR, y, w, z)), Dot(sL, Right0(aL, y, w', z)))
    ensures Eq(c, Dot(VectorAddScalar(c, aL, -z), VectorHadamard(c, sR, y)), Dot(Shift(aL, -z), Had(sR, y)))
    ensures Eq(c, Dot(sL, VectorHadamard(c, sR, y)), Dot(sL, Had(sR, y)))
  {
    LCong(c, aL, sL, z, 0);
    RCong(c, aL, aR, sR, y, w, w', z, 0);
    HadCong(c, sR, y);
    DotCong(c, sL, sL, R0(c, aR, y, w, z), Right0(aL, y, w', z));
    DotCong(c, VectorAddScalar(c, aL, -z), Shift(aL, -z), VectorHadamard(c, sR, y), Had(sR, y));
    DotCong(c, sL, sL, VectorHadamard(c, sR, y), Had(sR, y));
  }

  lemma InnerProductCong<P(!new)>(c: Curve<P>, aL: seq<int>, aR: seq<int>, sL: seq<int>, sR: seq<int>,
                                  y: seq<int>, w: seq<int>, w': seq<int>, z: int, x: int)
    requires Laws(c) && |aL| == |aR| == |sL| == |sR| == |y| == |w|
    requires EqVec(c, aR, Shift(aL, -1)) && EqVec(c, w, w')
    ensures Eq(c, Dot(CalculateL(c, aL, sL, z, x), CalculateR(c, aR, sR, y, w, z, x)),
               Dot(VAdd(Shift(aL, -z), VScale(sL, x)), VAdd(Right0(aL, y, w', z), VScale(Had(sR, y), x))))
  {
    LCong(c, aL, sL, z, x);
    RCong(c, aL, aR, sR, y, w, w', z, x);
    DotCong(c, CalculateL(c, aL, sL, z, x), VAdd(Shift(aL, -z), VScale(sL, x)),
            CalculateR(c, aR, sR, y, w, z, x), VAdd(Right0(aL, y, w', z), VScale(Had(sR, y), x)));
  }

  /** The inner products of the code against the coefficients of the ideal polynomial. */
  lemma Coefficients<P(!new)>(c: Curve<P>, aL: seq<int>, aR: seq<int>, sL: seq<int>, sR: seq<int>,
                              y: seq<int>, w: seq<int>, w': seq<int>, z: int, x: int)
    returns (p: int, q: int, s: int, e: int, d00: int, d10: int, d01: int, d11: int)
    requires Laws(c) && |aL| == |aR| == |sL| == |sR| == |y| == |w|
    requires EqVec(c, aR, Shift(aL, -1)) && EqVec(c, w, w')
    ensures p == Dot(sL, R0(c, aR, y, w, z)) && q == Dot(VectorAddScalar(c, aL, -z), VectorHadamard(c, sR, y))
    ensures s == Dot(sL, VectorHadamard(c, sR, y))
    ensures e == Dot(CalculateL(c, aL, sL, z, x), CalculateR(c, aR, sR, y, w, z, x))
    ensures d00 == Dot(Shift(aL, -z), Right0(aL, y, w', z))
    ensures Eq(c, p, d10) && Eq(c, q, d01) && Eq(c, s, d11)
    ensures Eq(c, e, d00 + ((d10 + d01) * x + (x * x) * d11))
  {
    var d;
    d, d00, d10, d01, d11 := Bilinear(Shift(aL, -z), sL, Right0(aL, y, w', z), Had(sR, y), x);
    InnerProductCong(c, aL, aR, sL, sR, y, w, w', z, x);
    LinearTerms(c, aL, aR, sL, sR, y, w, w', z);
    p, q := Dot(sL, R0(c, aR, y, w, z)), Dot(VectorAddScalar(c, aL, -z), VectorHadamard(c, sR, y));
    s := Dot(sL, VectorHadamard(c, sR, y));
    e := Dot(CalculateL(c, aL, sL, z, x), CalculateR(c, aR, sR, y, w, z, x));
  }

  /** The two ways the prover computes the inner product agree. */
  lemma ThatIsInnerProduct<P(!new)>(c: Curve<P>, aL: seq<int>, aR: seq<int>, sL: seq<int>, sR: seq<int>,
                                    y: seq<int>, w: seq<int>, w': seq<int>, z: int, x: int, t0: int)
    requires Laws(c) && |aL| == |aR| == |sL| == |sR| == |y| == |w|
    requires EqVec(c, aR, Shift(aL, -1)) && EqVec(c, w, w')
    requires Eq(c, t0, Dot(Shift(aL, -z), Right0(aL, y, w', z)))
    ensures That(c, t0, T1(c, aL, aR, sL, sR, y, w, z), T2(c, sL, sR, y), x) ==
      c.red(Dot(CalculateL(c, aL, sL, z, x), CalculateR(c, aR, sR, y, w, z, x)))
  {
    var p, q, s, e, d00, d10, d01, d11 := Coefficients(c, aL, aR, sL, sR, y, w, w', z, x);
    ThatGlue(c, t0, d00, p, q, s, d10, d01, d11, x);
  }

  lemma ThatGlue<P(!new)>(c: Curve<P>, t0: int, d00: int, p: int, q: int, s: int, d10: int, d01: int, d11: int, x: int)
    requires Laws(c) && Eq(c, t0, d00) && Eq(c, p, d10) && Eq(c, q, d01) && Eq(c, s, d11)
    ensures That(c, t0, c.red(c.red(p) + c.red(q)), c.red(s), x) == c.red(d00 + ((d10 + d01) * x + (x * x) * d11))
  {
    var t1, t2 := c.red(c.red(p) + c.red(q)), c.red(s);
    EqRed(c, p);
    EqRed(c, q);
    EqAdd(c, c.red(p), d10, c.red(q), d01);
    EqRed(c, c.red(p) + c.red(q));
    EqRed(c, s);
    EqMul(c, t1, d10 + d01, x, x);
    EqMul(c, x * x, x * x, t2, d11);
    EqAdd(c, t1 * x, (d10 + d01) * x, (x * x) * t2, (x * x) * d11);
    EqAdd(c, t0, d00, t1 * x + (x * x) * t2, (d10 + d01) * x + (x * x) * d11);
  }
}
