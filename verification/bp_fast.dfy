/** The fast verifier: one multi-exponentiation instead of folding the generators. */
module FastVerifier {
  import opened PowersOfTwo
  import opened Scalars
  import opened CurveGroup
  import opened Vectors
  import opened Folding
  import opened InnerProductArgument

  // ---------- the folded generators as weighted sums ----------

  /** Weights of the generators: a challenge where the bit of the index is set, its inverse elsewhere. */
  ghost function SVec<P>(c: Curve<P>, k: nat, xs: seq<int>): (s: seq<int>)
    requires k <= |xs|
    ensures |s| == Two(k)
  {
    if k == 0 then [1]
    else VScale(SVec(c, k - 1, xs), c.inv(xs[k - 1])) + VScale(SVec(c, k - 1, xs), xs[k - 1])
  }

  ghost function TVec<P>(c: Curve<P>, k: nat, xs: seq<int>): (s: seq<int>)
    requires k <= |xs|
    ensures |s| == Two(k)
  {
    if k == 0 then [1]
    else VScale(TVec(c, k - 1, xs), xs[k - 1]) + VScale(TVec(c, k - 1, xs), c.inv(xs[k - 1]))
  }

  lemma SumHalves<P(!new)>(c: Curve<P>, m: nat, g: seq<P>, w: seq<int>, s: int, t: int)
    requires Laws(c) && |g| == 2 * m && |w| == m
    ensures Sum(c, Mix(c, g[..m], s, g[m..], t), w) == Sum(c, g, VScale(w, s) + VScale(w, t))
  {
    SumMix(c, g[..m], s, g[m..], t, w);
    SumScale(c, g[..m], w, s);
    SumScale(c, g[m..], w, t);
    SumConcat(c, g[..m], VScale(w, s), g[m..], VScale(w, t));
    assert g[..m] + g[m..] == g;
  }

  lemma SumOne<P(!new)>(c: Curve<P>, g: P)
    requires Laws(c)
    ensures Sum(c, [g], [1]) == g
  {
    assert [g][..0] == [] && [1][..0] == [];
    MultOne(c, g);
    AddZero(c, g);
  }

  /** The folded generators are the bit-product-weighted sums of the original ones. */
  lemma {:induction false} FoldedG<P(!new)>(c: Curve<P>, k: nat, g: seq<P>, xs: seq<int>)
    requires Laws(c) && |g| == Two(k) && k <= |xs|
    ensures FoldAllG(c, k, k, g, xs) == Sum(c, g, SVec(c, k, xs))
  {
    if k == 0 {
      assert g == [g[0]];
      SumOne(c, g[0]);
    } else {
      var m := Two(k - 1);
      FoldedG(c, k - 1, FoldG(c, m, g, xs[k - 1]), xs);
      SumHalves(c, m, g, SVec(c, k - 1, xs), c.inv(xs[k - 1]), xs[k - 1]);
    }
  }

  lemma {:induction false} FoldedH<P(!new)>(c: Curve<P>, k: nat, h: seq<P>, xs: seq<int>)
    requires Laws(c) && |h| == Two(k) && k <= |xs|
    ensures FoldAllH(c, k, k, h, xs) == Sum(c, h, TVec(c, k, xs))
  {
    if k == 0 {
      assert h == [h[0]];
      SumOne(c, h[0]);
    } else {
      var m := Two(k - 1);
      FoldedH(c, k - 1, FoldH(c, m, h, xs[k - 1]), xs);
      SumHalves(c, m, h, TVec(c, k - 1, xs), xs[k - 1], c.inv(xs[k - 1]));
    }
  }

  // ---------- the weights, bit by bit ----------

  /** Bit j of i. */
  function Bit(i: nat, j: nat): int {
    (i / Two(j)) % 2
  }

  lemma BitSplit(i: nat, t: nat)
    requires t > 0
    ensures var r := i % (2 * t);
      (r < t ==> (i / t) % 2 == 0 && i % t == r) && (r >= t ==> (i / t) % 2 == 1 && i % t == r - t)
  {
    var d := 2 * t;
    var q, r := i / d, i % d;
    var e := 2 * q;
    assert i == e * t + r by {
      assert i == q * d + r;
      assert q * d == q * (2 * t) == e * t;
    }
    SplitAt(i, t, q, r);
  }

  lemma SplitAt(i: int, t: int, q: int, r: int)
    requires t > 0 && i == (2 * q) * t + r && 0 <= r < 2 * t
    ensures (r < t ==> (i / t) % 2 == 0 && i % t == r) && (r >= t ==> (i / t) % 2 == 1 && i % t == r - t)
  {
    var e := 2 * q;
    assert (e + 1) * t == e * t + t;
    if r < t {
      QuotientUnique(t, i, e, r);
    } else {
      QuotientUnique(t, i, e + 1, r - t);
    }
  }

  /** One level of the weights, in terms of the index. */
  lemma WeightStep<P(!new)>(c: Curve<P>, j: nat, xs: seq<int>, i: nat)
    requires j < |xs|
    ensures i % Two(j + 1) < Two(j + 1) && i % Two(j) < Two(j)
    ensures SVec(c, j + 1, xs)[i % Two(j + 1)] ==
      SVec(c, j, xs)[i % Two(j)] * (if Bit(i, j) == 0 then c.inv(xs[j]) else xs[j])
    ensures TVec(c, j + 1, xs)[i % Two(j + 1)] ==
      TVec(c, j, xs)[i % Two(j)] * (if Bit(i, j) == 0 then xs[j] else c.inv(xs[j]))
  {
    BitSplit(i, Two(j));
  }

  /** The product over the j lowest bits of an index: a challenge where the bit is set, its inverse elsewhere. */
  ghost function SAt<P>(c: Curve<P>, j: nat, xs: seq<int>, i: nat): int
    requires j <= |xs|
  {
    if j == 0 then 1 else SAt(c, j - 1, xs, i) * (if Bit(i, j - 1) == 0 then c.inv(xs[j - 1]) else xs[j - 1])
  }

  ghost function TAt<P>(c: Curve<P>, j: nat, xs: seq<int>, i: nat): int
    requires j <= |xs|
  {
    if j == 0 then 1 else TAt(c, j - 1, xs, i) * (if Bit(i, j - 1) == 0 then xs[j - 1] else c.inv(xs[j - 1]))
  }

  ghost function SAll<P>(c: Curve<P>, v: nat, j: nat, xs: seq<int>): (s: seq<int>)
    requires j <= |xs|
    ensures |s| == v && forall i {:trigger s[i]} :: 0 <= i < v ==> s[i] == SAt(c, j, xs, i)
  {
    seq(v, i requires 0 <= i < v => SAt(c, j, xs, i))
  }

  ghost function TAll<P>(c: Curve<P>, v: nat, j: nat, xs: seq<int>): (s: seq<int>)
    requires j <= |xs|
    ensures |s| == v && forall i {:trigger s[i]} :: 0 <= i < v ==> s[i] == TAt(c, j, xs, i)
  {
    seq(v, i requires 0 <= i < v => TAt(c, j, xs, i))
  }

  /** The bit products are the weights the folds give. */
  lemma {:induction false} WeightsAt<P(!new)>(c: Curve<P>, k: nat, xs: seq<int>, i: nat) returns (s: int, t: int)
    requires k <= |xs|
    ensures i % Two(k) < Two(k)
    ensures s == SVec(c, k, xs)[i % Two(k)] == SAt(c, k, xs, i) && t == TVec(c, k, xs)[i % Two(k)] == TAt(c, k, xs, i)
  {
    if k == 0 {
      s, t := 1, 1;
    } else {
      var j := k - 1;
      var s', t' := WeightsAt(c, j, xs, i);
      WeightStep(c, j, xs, i);
      s := s' * if Bit(i, j) == 0 then c.inv(xs[j]) else xs[j];
      t := t' * if Bit(i, j) == 0 then xs[j] else c.inv(xs[j]);
    }
  }

  lemma WeightsAgree<P(!new)>(c: Curve<P>, k: nat, xs: seq<int>)
    requires k <= |xs|
    ensures SAll(c, Two(k), k, xs) == SVec(c, k, xs) && TAll(c, Two(k), k, xs) == TVec(c, k, xs)
  {
    forall i: nat | i < Two(k)
      ensures SAll(c, Two(k), k, xs)[i] == SVec(c, k, xs)[i] && TAll(c, Two(k), k, xs)[i] == TVec(c, k, xs)[i]
    {
      var s, t := WeightsAt(c, k, xs, i);
      SmallRemainder(i, Two(k));
    }
  }

  lemma {:induction false} WeightsInvert<P(!new)>(c: Curve<P>, k: nat, xs: seq<int>, i: nat)
    requires Laws(c) && k <= |xs| && forall j :: 0 <= j < k ==> c.red(xs[j]) != 0
    ensures Eq(c, SAt(c, k, xs, i) * TAt(c, k, xs, i), 1)
  {
    if k > 0 {
      WeightsInvert(c, k - 1, xs, i);
      var x := xs[k - 1];
      Inverse(c, x);
      assert x * c.inv(x) == c.inv(x) * x;
      var bit := Bit(i, k - 1) == 0;
      EqInverseProduct(c, SAt(c, k - 1, xs, i), TAt(c, k - 1, xs, i),
                       if bit then c.inv(x) else x, if bit then x else c.inv(x));
    }
  }

  lemma WeightShift<P(!new)>(c: Curve<P>, s: int, w: int, f: int, total: int)
    requires Laws(c) && Eq(c, s * (w * f), total)
    ensures Eq(c, c.red(s * f) * w, total)
  {
    EqRed(c, s * f);
    EqMul(c, c.red(s * f), s * f, w, w);
    assert (s * f) * w == s * (w * f);
  }

  /** The inner loop: the product over the bits of `i`, highest first. */
  method Weight<P(!new)>(c: Curve<P>, k: nat, xs: seq<int>, i: nat) returns (si: int)
    requires Laws(c) && k <= |xs|
    ensures Eq(c, si, SAt(c, k, xs, i))
  {
    si := 1;
    var j := k - 1;
    while j >= 0
      invariant -1 <= j < k
      invariant Eq(c, si * SAt(c, j + 1, xs, i), SAt(c, k, xs, i))
    {
      var chal := xs[j];
      if Bit(i, j) == 0 {
        chal := c.inv(chal);
      }
      WeightShift(c, si, SAt(c, j, xs, i), chal, SAt(c, k, xs, i));
      si := c.red(si * chal);
      j := j - 1;
    }
  }

  lemma SmallRemainder(i: nat, t: nat)
    requires i < t
    ensures i % t == i
  {
  }

  /** The scalar vectors of the multi-exponentiation. */
  method Weights<P(!new)>(c: Curve<P>, k: nat, xs: seq<int>, v: nat) returns (s: seq<int>, sinv: seq<int>)
    requires Laws(c) && k <= |xs| && forall j :: 0 <= j < k ==> c.red(xs[j]) != 0
    ensures EqVec(c, s, SAll(c, v, k, xs)) && EqVec(c, sinv, TAll(c, v, k, xs))
  {
    s, sinv := [], [];
    for i := 0 to v
      invariant |s| == |sinv| == i
      invariant forall x :: 0 <= x < i ==> Eq(c, s[x], SAt(c, k, xs, x)) && Eq(c, sinv[x], TAt(c, k, xs, x))
    {
      var si := Weight(c, k, xs, i);
      InverseWeight(c, k, xs, i, si);
      s, sinv := s + [si], sinv + [c.inv(si)];
    }
  }

  lemma InverseWeight<P(!new)>(c: Curve<P>, k: nat, xs: seq<int>, i: nat, si: int)
    requires Laws(c) && k <= |xs| && forall j :: 0 <= j < k ==> c.red(xs[j]) != 0
    requires Eq(c, si, SAt(c, k, xs, i))
    ensures Eq(c, c.inv(si), TAt(c, k, xs, i))
  {
    WeightsInvert(c, k, xs, i);
    var s, t := SAt(c, k, xs, i), TAt(c, k, xs, i);
    EqMul(c, si, s, t, t);
    HasInverse(c, si, t);
    Inverse(c, si);
    EqInverse(c, si, c.inv(si), t);
  }

  // ---------- the two sides of the final check ----------

  lemma FoldPSum<P(!new)>(c: Curve<P>, x: int, l: P, r: P, p: P, tmp: P)
    requires Laws(c)
    ensures var x2 := c.red(x * x);
      FoldP(c, x, l, r, c.add(p, tmp)) == c.add(p, c.add(c.add(c.mult(l, x2), c.mult(r, c.inv(x2))), tmp))
  {
    var x2 := c.red(x * x);
    var a, b := c.mult(l, x2), c.mult(r, c.inv(x2));
    AddComm(c, a, c.add(p, tmp));
    AddAssoc(c, c.add(p, tmp), a, b);
    AddAssoc(c, p, tmp, c.add(a, b));
    AddComm(c, tmp, c.add(a, b));
  }

  lemma WeightedOpening<P(!new)>(c: Curve<P>, g: seq<P>, w: seq<int>, s: seq<int>, a: int)
    requires Laws(c) && |g| == |w| && EqVec(c, s, w)
    ensures Sum(c, g, ScalarVectorMul(c, s, a)) == c.mult(Sum(c, g, w), a)
  {
    var m := ScalarVectorMul(c, s, a);
    forall i | 0 <= i < |s| ensures Eq(c, m[i], VScale(w, a)[i]) {
      EqRed(c, s[i] * a);
      EqMul(c, s[i], w[i], a, a);
    }
    SumCong(c, g, m, VScale(w, a));
    SumScale(c, g, w, a);
  }

  /** x_j^2*L_j + x_j^-2*R_j, summed from the highest level down. */
  method CrossSum<P(!new)>(c: Curve<P>, k: nat, p: P, l: seq<P>, r: seq<P>, xs: seq<int>) returns (tmp1: P)
    requires Laws(c) && k <= |l| && k <= |r| && k <= |xs|
    ensures c.add(p, tmp1) == FoldAllP(c, k, p, l, r, xs)
  {
    tmp1 := c.zero;
    AddZero(c, p);
    var j := k - 1;
    while j >= 0
      invariant -1 <= j < k
      invariant FoldAllP(c, j + 1, c.add(p, tmp1), l, r, xs) == FoldAllP(c, k, p, l, r, xs)
    {
      var x2 := c.red(xs[j] * xs[j]);
      var x2i := c.inv(x2);
      FoldPSum(c, xs[j], l[j], r[j], p, tmp1);
      tmp1 := c.add(c.add(c.mult(l[j], x2), c.mult(r[j], x2i)), tmp1);
      j := j - 1;
    }
  }

  /** The verdict of the fast verifier, for any number of generators and levels. */
  ghost predicate FastVerdict<P>(c: Curve<P>, cc: int, p: P, u: P, g: seq<P>, h: seq<P>, ipp: InnerProdArg<P>)
    requires |g| == |h| && Leveled(ipp)
  {
    var ux, j := c.mult(u, c.hash1(p)), Levels(ipp);
    ChallengesMatch(c, p, ipp) &&
    c.Equal(FoldAllP(c, j, c.add(p, c.mult(ux, cc)), ipp.l, ipp.r, ipp.challenges), FastPoint(c, g, h, ipp, ux))
  }

  /** The generators weighted with bit products, opened to the two scalars. */
  ghost function FastPoint<P>(c: Curve<P>, g: seq<P>, h: seq<P>, ipp: InnerProdArg<P>, ux: P): P
    requires |g| == |h| && Leveled(ipp)
  {
    var j, xs := Levels(ipp), ipp.challenges;
    Opened(c, Sum(c, g, SAll(c, |g|, j, xs)), Sum(c, h, TAll(c, |h|, j, xs)), ipp.a, ipp.b, ux)
  }

  /** With a level for every halving of the generators the two verifiers give the same verdict. */
  lemma FastIsFolding<P(!new)>(c: Curve<P>, k: nat, cc: int, p: P, u: P, g: seq<P>, h: seq<P>, ipp: InnerProdArg<P>)
    requires Laws(c) && |g| == |h| == Two(k) && Leveled(ipp) && Levels(ipp) == k
    ensures FastVerdict(c, cc, p, u, g, h, ipp) <==> Verdict(c, k, cc, p, u, g, h, ipp)
  {
    FoldedG(c, k, g, ipp.challenges);
    FoldedH(c, k, h, ipp.challenges);
    WeightsAgree(c, k, ipp.challenges);
  }

  /** InnerProductVerifyFast gives this verdict on every proof, and so the one of the folding verifier on every proof
      with k levels over 2^k generators. */
  method InnerProductVerifyFast<P(!new)>(c: Curve<P>, cc: int, p: P, u: P, g: seq<P>, h: seq<P>, ipp: InnerProdArg<P>,
                                         v: nat)
    returns (ok: bool)
    requires Laws(c) && |g| == |h| == v && Leveled(ipp) && Invertible(c, Levels(ipp), ipp.l, ipp.r)
    ensures ok <==> FastVerdict(c, cc, p, u, g, h, ipp)
    ensures v == Two(Levels(ipp)) ==> (ok <==> Verdict(c, Levels(ipp), cc, p, u, g, h, ipp))
  {
    if v == Two(Levels(ipp)) { FastIsFolding(c, Levels(ipp), cc, p, u, g, h, ipp); }
    var chal1 := c.hash1(p);
    var ux := c.mult(u, chal1);
    var curIt := |ipp.challenges| - 1;
    if ipp.challenges[curIt] != chal1 {
      return false;
    }
    var j := curIt - 1;
    while j >= 0
      invariant -1 <= j < curIt
      invariant PairsMatch(c, ipp, j + 1)
    {
      if !PairMatches(c, ipp, j) {
        return false;
      }
      MatchOneMore(c, ipp, j);
      j := j - 1;
    }
    forall i | 0 <= i < Levels(ipp) ensures c.red(ipp.challenges[i]) != 0 { assert PairMatches(c, ipp, i); }
    ok := FinalCheck(c, cc, p, ux, g, h, ipp, v);
  }

  /** Both sides of the final check. */
  method FinalCheck<P(!new)>(c: Curve<P>, cc: int, p: P, ux: P, g: seq<P>, h: seq<P>, ipp: InnerProdArg<P>, v: nat)
    returns (ok: bool)
    requires Laws(c) && |g| == |h| == v && Leveled(ipp)
    requires forall j :: 0 <= j < Levels(ipp) ==> c.red(ipp.challenges[j]) != 0
    ensures ok <==> c.Equal(FoldAllP(c, Levels(ipp), c.add(p, c.mult(ux, cc)), ipp.l, ipp.r, ipp.challenges),
      FastPoint(c, g, h, ipp, ux))
  {
    var levels := |ipp.challenges| - 1;
    var pprime := c.add(p, c.mult(ux, cc));
    var tmp1 := CrossSum(c, levels, pprime, ipp.l, ipp.r, ipp.challenges);
    var rhs := c.add(pprime, tmp1);
    var s, sinv := Weights(c, levels, ipp.challenges, v);
    WeightedOpening(c, g, SAll(c, v, levels, ipp.challenges), s, ipp.a);
    WeightedOpening(c, h, TAll(c, v, levels, ipp.challenges), sinv, ipp.b);
    var ccalc := c.red(ipp.a * ipp.b);
    var lhs := TwoVectorCommit(c, g, h, ScalarVectorMul(c, s, ipp.a), ScalarVectorMul(c, sinv, ipp.b));
    lhs := c.add(lhs, c.mult(ux, ccalc));
    ok := c.Equal(rhs, lhs);
  }
}
