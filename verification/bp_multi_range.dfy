/** multi_range_proof.go: one proof that m committed values all lie in [0, 2^(V/m)). */
module MultiRangeProofs {
  import opened PowersOfTwo
  import opened Scalars
  import opened CurveGroup
  import opened Vectors
  import opened BitVectors
  import opened RangePolynomial
  import opened RangeProofCore
  import opened RangeProofs

  datatype MultiRangeProof<P> = MultiRangeProof(comms: seq<P>, core: Core<P>)

  // ---------- bits of all values ----------

  /** The n lowest bits. */
  function Low(v: nat, n: nat): (r: seq<int>)
    ensures |r| == n && forall i :: 0 <= i < n ==> r[i] == 0 || r[i] == 1
  {
    if n == 0 then [] else [v % 2] + Low(v / 2, n - 1)
  }

  lemma {:induction false} LowBits(v: nat, n: nat)
    requires n > 0
    ensures |Bits(v, n)| >= n && Bits(v, n)[..n] == Low(v, n)
    ensures v < Two(n) ==> Value(Low(v, n)) == v
    decreases n
  {
    BitsOk(v, n);
    if n == 1 {
      assert Low(v, 1) == [v % 2] + Low(v / 2, 0) == [v % 2];
      assert Low(v, 1)[1..] == [];
    } else {
      LowBits(v / 2, n - 1);
      assert Bits(v, n) == [v % 2] + Bits(v / 2, n - 1);
      assert Low(v, n)[1..] == Low(v / 2, n - 1);
    }
  }

  ghost predicate Naturals(values: seq<int>) {
    forall j :: 0 <= j < |values| ==> values[j] >= 0
  }

  /** The concatenated bits of the values. */
  function AllLow(values: seq<int>, n: nat): (r: seq<int>)
    requires forall j :: 0 <= j < |values| ==> values[j] >= 0
    ensures AllBits(r)
  {
    if values == [] then [] else
      var m := |values| - 1;
      AllLow(values[..m], n) + Low(values[m], n)
  }

  lemma {:induction false} AllLowLength(values: seq<int>, n: nat)
    requires Naturals(values)
    ensures |AllLow(values, n)| == |values| * n
  {
    if values != [] {
      AllLowLength(values[..|values| - 1], n);
      assert |values| * n == (|values| - 1) * n + n;
    }
  }

  /** z^(2+j) * 2^n, one block per value. */
  function MRPWeights<P>(c: Curve<P>, n: nat, m: nat, z: int): seq<int> {
    if m == 0 then [] else
      MRPWeights(c, n, m - 1, z) + ScalarVectorMul(c, PowerVector(c, n, 2), c.red(Pow(z, 1 + m)))
  }

  lemma {:induction false} MRPWeightsLength<P>(c: Curve<P>, n: nat, m: nat, z: int)
    ensures |MRPWeights(c, n, m, z)| == m * n
  {
    if m > 0 {
      MRPWeightsLength(c, n, m - 1, z);
      assert m * n == (m - 1) * n + n;
    }
  }

  /** z^2 * z^j, as the commitments are weighted. */
  function ZWeights<P>(c: Curve<P>, m: nat, z: int): (w: seq<int>)
    ensures |w| == m && forall j {:trigger w[j]} :: 0 <= j < m ==> w[j] == c.red(z * z) * c.red(Pow(z, j))
  {
    seq(m, j requires 0 <= j < m => c.red(z * z) * c.red(Pow(z, j)))
  }

  /** z^(2+j), as the blindings are weighted. */
  function GWeights<P>(c: Curve<P>, m: nat, z: int): (w: seq<int>)
    ensures |w| == m && forall j {:trigger w[j]} :: 0 <= j < m ==> w[j] == c.red(Pow(z, 2 + j))
  {
    seq(m, j requires 0 <= j < m => c.red(Pow(z, 2 + j)))
  }

  function MRPVals(y: seq<int>, w: seq<int>, z: int): (r: seq<int>)
    requires |y| == |w|
    ensures |r| == |y| && forall i {:trigger r[i]} :: 0 <= i < |y| ==> r[i] == z * y[i] + w[i]
  {
    seq(|y|, i requires 0 <= i < |y| => z * y[i] + w[i])
  }

  // ---------- the weights add up ----------

  lemma ZWeightOk<P(!new)>(c: Curve<P>, z: int, j: nat)
    requires Laws(c)
    ensures Eq(c, c.red(z * z) * c.red(Pow(z, j)), Pow(z, 2 + j)) && Eq(c, c.red(Pow(z, 2 + j)), Pow(z, 2 + j))
  {
    EqRed(c, z * z);
    EqRed(c, Pow(z, j));
    EqRed(c, Pow(z, 2 + j));
    EqMul(c, c.red(z * z), z * z, c.red(Pow(z, j)), Pow(z, j));
    PowAdd(z, 2, j);
    Cube(z);
  }

  /** One block of the weights against its bits, and its total. */
  lemma BlockOk<P(!new)>(c: Curve<P>, n: nat, v: nat, zp: int, zi: int)
    requires Laws(c) && n > 0 && v < Two(n) && Eq(c, zp, zi)
    ensures Eq(c, Dot(Low(v, n), ScalarVectorMul(c, PowerVector(c, n, 2), zp)), v * zi)
  {
    BlockWeights(c, n, zp, zi);
    LowBits(v, n);
    DotCong(c, Low(v, n), Low(v, n), ScalarVectorMul(c, PowerVector(c, n, 2), zp), VScale(Twos(n), zi));
    DotScaleRight(Low(v, n), Twos(n), zi);
    DotTwos(Low(v, n));
  }

  lemma BlockTotal<P(!new)>(c: Curve<P>, n: nat, zp: int, zi: int)
    requires Laws(c) && Eq(c, zp, zi)
    ensures Eq(c, Total(ScalarVectorMul(c, PowerVector(c, n, 2), zp)), (Two(n) - 1) * zi)
  {
    BlockWeights(c, n, zp, zi);
    TotalCong(c, ScalarVectorMul(c, PowerVector(c, n, 2), zp), VScale(Twos(n), zi));
    TotalScale(Twos(n), zi);
    TotalTwos(n);
  }

  lemma BlockWeights<P(!new)>(c: Curve<P>, n: nat, zp: int, zi: int)
    requires Laws(c) && Eq(c, zp, zi)
    ensures EqVec(c, ScalarVectorMul(c, PowerVector(c, n, 2), zp), VScale(Twos(n), zi))
  {
    var w, ideal := ScalarVectorMul(c, PowerVector(c, n, 2), zp), VScale(Twos(n), zi);
    forall i | 0 <= i < n ensures Eq(c, w[i], ideal[i]) {
      WeightOk(c, i, zp, zi);
      assert Twos(n)[i] == Two(i) && PowerVector(c, n, 2)[i] == c.red(Pow(2, i));
    }
  }

  ghost predicate InRange(values: seq<int>, n: nat) {
    forall j :: 0 <= j < |values| ==> 0 <= values[j] < Two(n)
  }

  /** One more value: its block of bits against its block of weights. */
  lemma AllDotSnoc<P(!new)>(c: Curve<P>, n: nat, values: seq<int>, m: nat, z: int, a: seq<int>, w: seq<int>,
                            b: seq<int>, u: seq<int>)
    requires Laws(c) && n > 0 && |values| == m + 1 && 0 <= values[m] < Two(n) && |a| == |w|
    requires b == Low(values[m], n) && u == ScalarVectorMul(c, PowerVector(c, n, 2), c.red(Pow(z, 2 + m)))
    requires Eq(c, Dot(a, w), Dot(values[..m], ZWeights(c, m, z)))
    ensures Eq(c, Dot(a + b, w + u), Dot(values, ZWeights(c, m + 1, z)))
  {
    var zi := Pow(z, 2 + m);
    var e, zw := ValuesSnoc(c, values, m, z);
    var d, f := Dot(a, w), Dot(b, u);
    assert Eq(c, zw, zi) && Eq(c, f, values[m] * zi) by {
      ZWeightOk(c, z, m);
      BlockOk(c, n, values[m], c.red(zi), zi);
    }
    AllDotStep(c, d, e, f, values[m], zw, zi);
    DotConcat(a, w, b, u);
  }

  lemma ValuesSnoc<P(!new)>(c: Curve<P>, values: seq<int>, m: nat, z: int) returns (e: int, zw: int)
    requires |values| == m + 1
    ensures e == Dot(values[..m], ZWeights(c, m, z)) && zw == c.red(z * z) * c.red(Pow(z, m))
    ensures Dot(values, ZWeights(c, m + 1, z)) == e + values[m] * zw
  {
    e, zw := Dot(values[..m], ZWeights(c, m, z)), c.red(z * z) * c.red(Pow(z, m));
    assert ZWeights(c, m + 1, z)[..m] == ZWeights(c, m, z);
    assert ZWeights(c, m + 1, z)[m] == zw;
  }

  lemma {:induction false} AllDot<P(!new)>(c: Curve<P>, n: nat, values: seq<int>, z: int)
    requires Laws(c) && n > 0 && InRange(values, n)
    ensures |AllLow(values, n)| == |MRPWeights(c, n, |values|, z)|
    ensures Eq(c, Dot(AllLow(values, n), MRPWeights(c, n, |values|, z)), Dot(values, ZWeights(c, |values|, z)))
  {
    if values != [] {
      var m := |values| - 1;
      AllDot(c, n, values[..m], z);
      var a, w := AllLow(values[..m], n), MRPWeights(c, n, m, z);
      var b, u := Low(values[m], n), ScalarVectorMul(c, PowerVector(c, n, 2), c.red(Pow(z, 2 + m)));
      AllDotSnoc(c, n, values, m, z, a, w, b, u);
    }
  }

  lemma AllDotStep<P(!new)>(c: Curve<P>, d: int, d': int, e: int, v: int, zw: int, zi: int)
    requires Laws(c) && Eq(c, d, d') && Eq(c, e, v * zi) && Eq(c, zw, zi)
    ensures Eq(c, d + e, d' + v * zw)
  {
    EqMul(c, v, v, zw, zi);
    EqAdd(c, d, d', e, v * zw);
  }

  lemma {:induction false} TotalConcat(a: seq<int>, b: seq<int>)
    ensures Total(a + b) == Total(a) + Total(b)
  {
    if |b| == 0 {
      assert a + b == a;
    } else {
      var m := |b| - 1;
      TotalConcat(a, b[..m]);
      assert (a + b)[..|a + b| - 1] == a + b[..m];
    }
  }

  lemma {:induction false} AllTotal<P(!new)>(c: Curve<P>, n: nat, m: nat, z: int, p: int) returns (t: int, zs: int)
    requires Laws(c) && p == Two(n) - 1
    ensures t == Total(MRPWeights(c, n, m, z)) && zs == ZSum(z, m) && Eq(c, z * t, zs * p)
  {
    t, zs := Total(MRPWeights(c, n, m, z)), ZSum(z, m);
    if m == 0 {
      assert z * 0 == 0 && 0 * p == 0;
    } else {
      var t', zs' := AllTotal(c, n, m - 1, z, p);
      var zi := Pow(z, 1 + m);
      var w, u := MRPWeights(c, n, m - 1, z), ScalarVectorMul(c, PowerVector(c, n, 2), c.red(zi));
      var tu := Total(u);
      assert t == t' + tu by { TotalConcat(w, u); }
      assert zs == zs' + z * zi;
      AllTotalStep(c, z, t', tu, zs', zi, p) by {
        EqRed(c, zi);
        BlockTotal(c, n, c.red(zi), zi);
      }
    }
  }

  lemma AllTotalStep<P(!new)>(c: Curve<P>, z: int, t: int, u: int, zs: int, zi: int, p: int)
    requires Laws(c) && Eq(c, z * t, zs * p) && Eq(c, u, p * zi)
    ensures Eq(c, z * (t + u), (zs + z * zi) * p)
  {
    EqMul(c, z, z, u, p * zi);
    EqAdd(c, z * t, zs * p, z * u, z * (p * zi));
    assert z * (t + u) == z * t + z * u;
    assert (zs + z * zi) * p == zs * p + z * (p * zi);
  }
}
