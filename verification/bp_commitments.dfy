/** The two equations a range proof verifier checks, as identities between points. */
module RangeCommitments {
  import opened CurveGroup
  import opened Folding
  import opened RangePolynomial

  // ---------- commitments over the pair (G, H) ----------

  /** a*G + b*H */
  function Pair<P>(c: Curve<P>, g: P, h: P, a: int, b: int): P {
    c.add(c.mult(g, a), c.mult(h, b))
  }

  lemma PairAdd<P(!new)>(c: Curve<P>, g: P, h: P, a: int, b: int, a': int, b': int)
    requires Laws(c)
    ensures c.add(Pair(c, g, h, a, b), Pair(c, g, h, a', b')) == Pair(c, g, h, a + a', b + b')
  {
    Interchange(c, c.mult(g, a), c.mult(h, b), c.mult(g, a'), c.mult(h, b'));
    MultSum(c, g, a, a');
    MultSum(c, h, b, b');
  }

  lemma PairScale<P(!new)>(c: Curve<P>, g: P, h: P, a: int, b: int, x: int)
    requires Laws(c)
    ensures c.mult(Pair(c, g, h, a, b), x) == Pair(c, g, h, a * x, b * x)
  {
    MultDist(c, c.mult(g, a), c.mult(h, b), x);
    MultSum(c, g, a, x);
    MultSum(c, h, b, x);
  }

  lemma PairCong<P(!new)>(c: Curve<P>, g: P, h: P, a: int, b: int, a': int, b': int)
    requires Laws(c) && Eq(c, a, a') && Eq(c, b, b')
    ensures Pair(c, g, h, a, b) == Pair(c, g, h, a', b')
  {
    MultCong(c, g, a, a');
    MultCong(c, h, b, b');
  }

  lemma PairOfG<P(!new)>(c: Curve<P>, g: P, h: P, a: int)
    requires Laws(c)
    ensures c.mult(g, a) == Pair(c, g, h, a, 0)
  {
    MultZero(c, h);
    AddZero(c, c.mult(g, a));
  }

  /** A weighted sum of commitments commits to the weighted sums. */
  lemma {:induction false} SumOfPairs<P(!new)>(c: Curve<P>, g: P, h: P, comms: seq<P>, a: seq<int>, b: seq<int>,
                                               w: seq<int>)
    requires Laws(c) && |comms| == |a| == |b| == |w|
    requires forall j :: 0 <= j < |comms| ==> comms[j] == Pair(c, g, h, a[j], b[j])
    ensures Sum(c, comms, w) == Pair(c, g, h, Dot(a, w), Dot(b, w))
  {
    if |comms| == 0 {
      MultZero(c, g);
      MultZero(c, h);
      AddZero(c, c.zero);
    } else {
      var m := |comms| - 1;
      SumOfPairs(c, g, h, comms[..m], a[..m], b[..m], w[..m]);
      PairScale(c, g, h, a[m], b[m], w[m]);
      PairAdd(c, g, h, Dot(a[..m], w[..m]), Dot(b[..m], w[..m]), a[m] * w[m], b[m] * w[m]);
    }
  }

  /** The blinding of t(x). */
  function Taux<P>(c: Curve<P>, tau1: int, tau2: int, x: int, gz: int): int {
    c.red(c.red(tau2 * (x * x)) + (c.red(tau1 * x) + gz))
  }

  /** delta*G + x*T1 + x^2*T2 for the commitments T1, T2 to the coefficients of t. */
  function TPart<P>(c: Curve<P>, g: P, h: P, delta: int, t1: P, t2: P, x: int): P {
    c.add(c.add(c.mult(g, delta), c.mult(t1, x)), c.mult(t2, x * x))
  }

  lemma TPartIsPair<P(!new)>(c: Curve<P>, g: P, h: P, delta: int, t1: int, t2: int, tau1: int, tau2: int, x: int)
    requires Laws(c)
    ensures TPart(c, g, h, delta, Pair(c, g, h, t1, tau1), Pair(c, g, h, t2, tau2), x) ==
      Pair(c, g, h, delta + t1 * x + t2 * (x * x), tau1 * x + tau2 * (x * x))
  {
    PairOfG(c, g, h, delta);
    PairScale(c, g, h, t1, tau1, x);
    PairScale(c, g, h, t2, tau2, x * x);
    PairAdd(c, g, h, delta, 0, t1 * x, tau1 * x);
    PairAdd(c, g, h, delta + t1 * x, 0 + tau1 * x, t2 * (x * x), tau2 * (x * x));
  }

  lemma TauxEq<P(!new)>(c: Curve<P>, tau1: int, tau2: int, x: int, gz: int)
    requires Laws(c)
    ensures Eq(c, Taux(c, tau1, tau2, x, gz), tau1 * x + tau2 * (x * x) + gz)
  {
    var p, q := tau2 * (x * x), tau1 * x;
    EqRed(c, p);
    EqRed(c, q);
    EqAdd(c, c.red(q), q, gz, gz);
    EqAdd(c, c.red(p), p, c.red(q) + gz, q + gz);
    EqRed(c, c.red(p) + (c.red(q) + gz));
  }

  lemma ThatEq<P(!new)>(c: Curve<P>, t0: int, t1: int, t2: int, x: int, cv: int, delta: int)
    requires Laws(c) && Eq(c, t0, cv + delta)
    ensures Eq(c, That(c, t0, t1, t2, x), delta + t1 * x + t2 * (x * x) + cv)
  {
    var s := t1 * x + (x * x) * t2;
    EqAdd(c, t0, cv + delta, s, s);
    EqRed(c, t0 + s);
    assert cv + delta + s == delta + t1 * x + t2 * (x * x) + cv;
  }

  /** The first equation: that*G + taux*H is the commitment part plus delta*G + x*T1 + x^2*T2. */
  lemma CommitmentCheck<P(!new)>(c: Curve<P>, g: P, h: P, t0: int, t1: int, t2: int, tau1: int, tau2: int, x: int,
                                 delta: int, cv: int, gz: int, cg: int)
    requires Laws(c) && Eq(c, t0, cv + delta) && Eq(c, gz, cg)
    ensures Pair(c, g, h, That(c, t0, t1, t2, x), Taux(c, tau1, tau2, x, gz)) ==
      c.add(TPart(c, g, h, delta, Pair(c, g, h, t1, tau1), Pair(c, g, h, t2, tau2), x), Pair(c, g, h, cv, cg))
  {
    var a, b := CommittedSums(c, g, h, t0, t1, t2, tau1, tau2, x, delta, cv, gz, cg);
    PairAdd(c, g, h, a, b, cv, cg);
    PairCong(c, g, h, That(c, t0, t1, t2, x), Taux(c, tau1, tau2, x, gz), a + cv, b + cg);
  }

  /** What the commitments to the coefficients add up to, against the value and the blinding the prover sends. */
  lemma CommittedSums<P(!new)>(c: Curve<P>, g: P, h: P, t0: int, t1: int, t2: int, tau1: int, tau2: int, x: int,
                               delta: int, cv: int, gz: int, cg: int)
    returns (a: int, b: int)
    requires Laws(c) && Eq(c, t0, cv + delta) && Eq(c, gz, cg)
    ensures TPart(c, g, h, delta, Pair(c, g, h, t1, tau1), Pair(c, g, h, t2, tau2), x) == Pair(c, g, h, a, b)
    ensures Eq(c, That(c, t0, t1, t2, x), a + cv) && Eq(c, Taux(c, tau1, tau2, x, gz), b + cg)
  {
    a, b := delta + t1 * x + t2 * (x * x), tau1 * x + tau2 * (x * x);
    TPartIsPair(c, g, h, delta, t1, t2, tau1, tau2, x);
    ThatEq(c, t0, t1, t2, x, cv, delta);
    TauxEq(c, tau1, tau2, x, gz);
    EqAdd(c, b, b, gz, cg);
  }

  // ---------- commitments over the vectors of generators ----------

  /** HPrime: the second generators divided by the powers of y. */
  function Primed<P>(c: Curve<P>, bph: seq<P>, y: seq<int>): (r: seq<P>)
    requires |bph| == |y|
    ensures |r| == |bph| && forall i {:trigger r[i]} :: 0 <= i < |bph| ==> r[i] == c.mult(bph[i], c.inv(y[i]))
  {
    seq(|bph|, i requires 0 <= i < |bph| => c.mult(bph[i], c.inv(y[i])))
  }

  ghost predicate AllInvertible<P>(c: Curve<P>, y: seq<int>) {
    forall i :: 0 <= i < |y| ==> c.red(y[i]) != 0
  }

  /** <a, H> = <a o y, H'> */
  lemma {:induction false} ChangeBase<P(!new)>(c: Curve<P>, bph: seq<P>, y: seq<int>, a: seq<int>)
    requires Laws(c) && |bph| == |y| == |a| && AllInvertible(c, y)
    ensures Sum(c, bph, a) == Sum(c, Primed(c, bph, y), Had(a, y))
  {
    if |bph| > 0 {
      var m := |bph| - 1;
      ChangeBase(c, bph[..m], y[..m], a[..m]);
      assert Primed(c, bph, y)[..m] == Primed(c, bph[..m], y[..m]) && Had(a, y)[..m] == Had(a[..m], y[..m]);
      ChangeBaseOne(c, bph[m], y[m], a[m]);
    }
  }

  lemma ChangeBaseOne<P(!new)>(c: Curve<P>, p: P, y: int, a: int)
    requires Laws(c) && c.red(y) != 0
    ensures c.mult(c.mult(p, c.inv(y)), a * y) == c.mult(p, a)
  {
    Inverse(c, y);
    MultSum(c, p, c.inv(y), a * y);
    EqMul(c, a, a, y * c.inv(y), 1);
    assert c.inv(y) * (a * y) == a * (y * c.inv(y));
    MultCong(c, p, c.inv(y) * (a * y), a);
  }

  lemma Regroup<P(!new)>(c: Curve<P>, a1: P, b1: P, h1: P, a2: P, b2: P, h2: P, t1: P, t2: P, n: P)
    requires Laws(c)
    ensures c.add(c.add(c.add(c.add(c.add(c.add(a1, b1), h1), c.add(c.add(a2, b2), h2)), t1), t2), n) ==
      c.add(c.add(c.add(c.add(a1, a2), t1), c.add(c.add(b1, b2), t2)), c.add(c.add(h1, h2), n))
  {
    var ab, hh := c.add(c.add(a1, a2), c.add(b1, b2)), c.add(h1, h2);
    Interchange(c, c.add(a1, b1), h1, c.add(a2, b2), h2);
    Interchange(c, a1, b1, a2, b2);
    AddAssoc(c, c.add(ab, hh), t1, t2);
    AddAssoc(c, c.add(ab, hh), c.add(t1, t2), n);
    AddComm(c, c.add(t1, t2), n);
    AddAssoc(c, ab, hh, c.add(n, c.add(t1, t2)));
    AddAssoc(c, hh, n, c.add(t1, t2));
    AddComm(c, c.add(hh, n), c.add(t1, t2));
    AddAssoc(c, ab, c.add(t1, t2), c.add(hh, n));
    Interchange(c, c.add(a1, a2), c.add(b1, b2), t1, t2);
  }

  ghost function Constant(l: nat, s: int): (r: seq<int>)
    ensures |r| == l && forall i {:trigger r[i]} :: 0 <= i < l ==> r[i] == s
  {
    seq(l, _ => s)
  }

  /** The blinding of A + x*S cancels against mu. */
  lemma BlindingCancels<P(!new)>(c: Curve<P>, h: P, alpha: int, rho: int, x: int, mu: int)
    requires Laws(c) && Eq(c, mu, alpha + rho * x)
    ensures c.add(c.add(c.mult(h, alpha), c.mult(c.mult(h, rho), x)), c.neg(c.mult(h, mu))) == c.zero
  {
    MultSum(c, h, rho, x);
    MultSum(c, h, alpha, rho * x);
    MultCong(c, h, mu, alpha + rho * x);
    AddZero(c, c.mult(h, mu));
  }

  /** The two sides of the vector of generators, once the terms are grouped. */
  lemma LeftSide<P(!new)>(c: Curve<P>, bpg: seq<P>, aL: seq<int>, sL: seq<int>, z: int, x: int)
    requires Laws(c) && |bpg| == |aL| == |sL|
    ensures c.add(c.add(Sum(c, bpg, aL), c.mult(Sum(c, bpg, sL), x)), Sum(c, bpg, Constant(|bpg|, c.red(-z)))) ==
      Sum(c, bpg, CalculateL(c, aL, sL, z, x))
  {
    SumScale(c, bpg, sL, x);
    SumAdd(c, bpg, aL, VScale(sL, x));
    var zs := Constant(|bpg|, c.red(-z));
    SumAdd(c, bpg, VAdd(aL, VScale(sL, x)), zs);
    LeftEntries(c, aL, sL, z, x);
    SumCong(c, bpg, VAdd(VAdd(aL, VScale(sL, x)), zs), CalculateL(c, aL, sL, z, x));
  }

  lemma LeftEntries<P(!new)>(c: Curve<P>, aL: seq<int>, sL: seq<int>, z: int, x: int)
    requires Laws(c) && |aL| == |sL|
    ensures EqVec(c, VAdd(VAdd(aL, VScale(sL, x)), Constant(|aL|, c.red(-z))), CalculateL(c, aL, sL, z, x))
  {
    LCong(c, aL, sL, z, x);
    var sum, l := VAdd(VAdd(aL, VScale(sL, x)), Constant(|aL|, c.red(-z))), CalculateL(c, aL, sL, z, x);
    var ideal := VAdd(Shift(aL, -z), VScale(sL, x));
    forall i | 0 <= i < |aL| ensures Eq(c, sum[i], l[i]) {
      assert Eq(c, l[i], ideal[i]);
      var a, s := aL[i], VScale(sL, x)[i];
      assert ideal[i] == a - z + s && sum[i] == a + s + c.red(-z);
      EqRed(c, -z);
      EqAdd(c, a + s, a + s, c.red(-z), -z);
    }
  }

  lemma RightSide<P(!new)>(c: Curve<P>, bph: seq<P>, y: seq<int>, aL: seq<int>, aR: seq<int>, sR: seq<int>,
                           w: seq<int>, vals: seq<int>, z: int, x: int)
    requires Laws(c) && |bph| == |y| == |aL| == |aR| == |sR| == |w| == |vals| && AllInvertible(c, y)
    requires EqVec(c, aR, Shift(aL, -1))
    requires forall i :: 0 <= i < |y| ==> Eq(c, vals[i], z * y[i] + w[i])
    ensures c.add(c.add(Sum(c, bph, aR), c.mult(Sum(c, bph, sR), x)), Sum(c, Primed(c, bph, y), vals)) ==
      Sum(c, Primed(c, bph, y), CalculateR(c, aR, sR, y, w, z, x))
  {
    var hp, a, s := Primed(c, bph, y), Had(aR, y), Had(sR, y);
    ChangeBase(c, bph, y, aR);
    ChangeBase(c, bph, y, sR);
    SumScale(c, hp, s, x);
    SumAdd(c, hp, a, VScale(s, x));
    SumAdd(c, hp, VAdd(a, VScale(s, x)), vals);
    RightEntries(c, y, aL, aR, sR, w, vals, z, x);
    SumCong(c, hp, VAdd(VAdd(a, VScale(s, x)), vals), CalculateR(c, aR, sR, y, w, z, x));
  }

  lemma RightEntries<P(!new)>(c: Curve<P>, y: seq<int>, aL: seq<int>, aR: seq<int>, sR: seq<int>, w: seq<int>,
                              vals: seq<int>, z: int, x: int)
    requires Laws(c) && |y| == |aL| == |aR| == |sR| == |w| == |vals|
    requires EqVec(c, aR, Shift(aL, -1))
    requires forall i :: 0 <= i < |y| ==> Eq(c, vals[i], z * y[i] + w[i])
    ensures EqVec(c, VAdd(VAdd(Had(aR, y), VScale(Had(sR, y), x)), vals), CalculateR(c, aR, sR, y, w, z, x))
  {
    RCong(c, aL, aR, sR, y, w, w, z, x);
    var sum, r := VAdd(VAdd(Had(aR, y), VScale(Had(sR, y), x)), vals), CalculateR(c, aR, sR, y, w, z, x);
    var ideal := VAdd(Right0(aL, y, w, z), VScale(Had(sR, y), x));
    forall i | 0 <= i < |y| ensures Eq(c, sum[i], r[i]) {
      assert Eq(c, r[i], ideal[i]);
      assert Shift(aL, z - 1)[i] == aL[i] + (z - 1) && Had(y, Shift(aL, z - 1))[i] == y[i] * (aL[i] + (z - 1));
      assert Eq(c, aR[i], Shift(aL, -1)[i]) && Had(aR, y)[i] == aR[i] * y[i];
      RightEntry(c, aR[i], aL[i], y[i], Had(sR, y)[i] * x, vals[i], w[i], z);
    }
  }

  lemma RightEntry<P(!new)>(c: Curve<P>, aR: int, a: int, y: int, s: int, val: int, w: int, z: int)
    requires Laws(c) && Eq(c, aR, a - 1) && Eq(c, val, z * y + w)
    ensures Eq(c, aR * y + s + val, y * (a + (z - 1)) + w + s)
  {
    EqMul(c, aR, a - 1, y, y);
    EqAdd(c, aR * y, (a - 1) * y, s, s);
    EqAdd(c, aR * y + s, (a - 1) * y + s, val, z * y + w);
    assert (a - 1) * y + z * y == y * (a + (z - 1));
  }

  /** The point the verifier rebuilds from A and S is the prover's commitment to l and r over G and H'. */
  lemma RebuiltP<P(!new)>(c: Curve<P>, bpg: seq<P>, bph: seq<P>, h: P, y: seq<int>, aL: seq<int>, aR: seq<int>,
                          sL: seq<int>, sR: seq<int>,
                          w: seq<int>, vals: seq<int>, z: int, x: int, alpha: int, rho: int, mu: int)
    requires Laws(c) && |bpg| == |bph| == |y| == |aL| == |aR| == |sL| == |sR| == |w| == |vals| && AllInvertible(c, y)
    requires EqVec(c, aR, Shift(aL, -1)) && Eq(c, mu, alpha + rho * x)
    requires forall i :: 0 <= i < |y| ==> Eq(c, vals[i], z * y[i] + w[i])
    ensures
      var a := c.add(Commit2(c, bpg, bph, aL, aR), c.mult(h, alpha));
      var s := c.add(Commit2(c, bpg, bph, sL, sR), c.mult(h, rho));
      c.add(c.add(c.add(c.add(a, c.mult(s, x)), Sum(c, bpg, Constant(|bpg|, c.red(-z)))),
                  Sum(c, Primed(c, bph, y), vals)), c.neg(c.mult(h, mu))) ==
      Commit2(c, bpg, Primed(c, bph, y), CalculateL(c, aL, sL, z, x), CalculateR(c, aR, sR, y, w, z, x))
  {
    var sumL, sumR := Sum(c, bpg, sL), Sum(c, bph, sR);
    MultDist(c, c.add(sumL, sumR), c.mult(h, rho), x);
    MultDist(c, sumL, sumR, x);
    Regroup(c, Sum(c, bpg, aL), Sum(c, bph, aR), c.mult(h, alpha), c.mult(sumL, x), c.mult(sumR, x),
            c.mult(c.mult(h, rho), x),
            Sum(c, bpg, Constant(|bpg|, c.red(-z))), Sum(c, Primed(c, bph, y), vals), c.neg(c.mult(h, mu)));
    LeftSide(c, bpg, aL, sL, z, x);
    RightSide(c, bph, y, aL, aR, sR, w, vals, z, x);
    BlindingCancels(c, h, alpha, rho, x, mu);
    AddZero(c, c.add(Sum(c, bpg, CalculateL(c, aL, sL, z, x)),
                     Sum(c, Primed(c, bph, y), CalculateR(c, aR, sR, y, w, z, x))));
  }
}
