/** The loops of the aggregated range proof. */
module MultiRangeLoops {
  import opened PowersOfTwo
  import opened Scalars
  import opened CurveGroup
  import opened Vectors
  import opened RangeProofCore
  import opened RangeProofs
  import opened MultiRangeProofs

  method DeltaMRP<P(!new)>(c: Curve<P>, y: seq<int>, z: int, m: nat, n: nat) returns (r: int)
    requires Laws(c)
    ensures r == DeltaOf(c, y, z, m, n)
  {
    var sum := VectorSum(c, y);
    var z2 := c.red(z * z);
    var t1 := c.red(z - z2);
    var t2 := c.red(t1 * sum);
    var t3 := DeltaTail(c, z, m, n);
    r := c.red(t2 - t3);
    assert Eq(c, t2, (z - z * z) * Total(y)) by { DeltaFirst(c, z, sum, Total(y)); }
    ghost var p, q := (z - z * z) * Total(y), ZSum(z, m) * (Two(n) - 1);
    EqAdd(c, t2, p, t3, q);
  }

  /** The loop of DeltaMRP: z^3 + ... + z^(2+m) times <1,2^n>. */
  method DeltaTail<P(!new)>(c: Curve<P>, z: int, m: nat, n: nat) returns (t3: int)
    requires Laws(c)
    ensures Eq(c, t3, ZSum(z, m) * (Two(n) - 1))
  {
    var po2sum := c.red(Pow(2, n)) - 1;
    PowerOfTwoSum(c, n);
    t3 := 0;
    for j := 0 to m
      invariant Eq(c, t3, ZSum(z, j) * (Two(n) - 1))
    {
      var zp := c.red(Pow(z, 3 + j));
      DeltaStep(c, t3, ZSum(z, j), Pow(z, 3 + j), po2sum, Two(n) - 1);
      t3 := c.red(t3 + c.red(zp * po2sum));
    }
  }

  lemma DeltaStep<P(!new)>(c: Curve<P>, t3: int, zs: int, zi: int, po2sum: int, p: int)
    requires Laws(c) && Eq(c, t3, zs * p) && Eq(c, po2sum, p)
    ensures Eq(c, c.red(t3 + c.red(c.red(zi) * po2sum)), (zs + zi) * p)
  {
    EqRed(c, zi);
    EqMul(c, c.red(zi), zi, po2sum, p);
    EqRed(c, c.red(zi) * po2sum);
    EqAdd(c, t3, zs * p, c.red(c.red(zi) * po2sum), zi * p);
    EqRed(c, t3 + c.red(c.red(zi) * po2sum));
    assert (zs + zi) * p == zs * p + zi * p;
  }

  /** The loop that adds up the weighted values: every term and the running sum are reduced. */
  method WeightedValues<P(!new)>(c: Curve<P>, values: seq<int>, z: int) returns (vz2: int)
    requires Laws(c)
    ensures vz2 == c.red(Dot(values, ZWeights(c, |values|, z)))
  {
    vz2 := 0;
    Reduced(c, 0);
    var z2, m := c.red(z * z), |values|;
    var powers := PowerVector(c, m, z);
    ghost var zw := ZWeights(c, m, z);
    for j := 0 to m
      invariant vz2 == c.red(Dot(values[..j], zw[..j]))
    {
      var t := powers[j] * (values[j] * z2);
      assert t == values[j] * zw[j] by { Reorder(powers[j], values[j], z2); }
      DotStep(c, values, zw, j, vz2, t);
      vz2 := c.red(vz2 + t);
    }
    assert values[..m] == values && zw[..m] == zw;
  }

  lemma Reorder(p: int, v: int, z2: int)
    ensures p * (v * z2) == v * (z2 * p)
  {
    assert p * (v * z2) == (p * v) * z2 == v * (p * z2);
  }

  /** One more term of a running, reduced inner product. */
  lemma DotStep<P(!new)>(c: Curve<P>, a: seq<int>, w: seq<int>, j: nat, r: int, t: int)
    requires Laws(c) && |a| == |w| && j < |a| && r == c.red(Dot(a[..j], w[..j])) && t == a[j] * w[j]
    ensures c.red(r + t) == c.red(Dot(a[..j + 1], w[..j + 1]))
  {
    assert a[..j + 1][..j] == a[..j] && w[..j + 1][..j] == w[..j];
    var d := Dot(a[..j], w[..j]);
    EqRed(c, d);
    EqAdd(c, r, d, t, t);
  }

  /** The loop that adds up the weighted blindings. */
  method WeightedBlindings<P(!new)>(c: Curve<P>, gammas: seq<int>, z: int) returns (total: int)
    requires Laws(c)
    ensures total == c.red(Dot(gammas, GWeights(c, |gammas|, z)))
  {
    total := 0;
    Reduced(c, 0);
    ghost var gw := GWeights(c, |gammas|, z);
    for j := 0 to |gammas|
      invariant total == c.red(Dot(gammas[..j], gw[..j]))
    {
      var t := gammas[j] * c.red(Pow(z, 2 + j));
      DotStep(c, gammas, gw, j, total, t);
      total := c.red(total + t);
    }
    assert gammas[..|gammas|] == gammas && gw[..|gammas|] == gw;
  }

  /** CommPowers: the commitments weighted with z^2 * z^j. */
  method CommPowers<P>(c: Curve<P>, comms: seq<P>, z: int) returns (sum: P)
    ensures sum == Sum(c, comms, ZWeights(c, |comms|, z))
  {
    sum := c.zero;
    var powers := PowerVector(c, |comms|, z);
    var z2 := c.red(z * z);
    ghost var zw := ZWeights(c, |comms|, z);
    for j := 0 to |comms|
      invariant sum == Sum(c, comms[..j], zw[..j])
    {
      assert comms[..j + 1][..j] == comms[..j] && zw[..j + 1][..j] == zw[..j];
      sum := c.add(sum, c.mult(comms[j], z2 * powers[j]));
    }
    assert comms[..|comms|] == comms && zw[..|comms|] == zw;
  }

  /** zPowersTimesTwoVec: filled block by block. */
  method FillWeights<P>(c: Curve<P>, n: nat, m: nat, z: int) returns (w: seq<int>)
    ensures w == MRPWeights(c, n, m, z)
  {
    var po2 := PowerVector(c, n, 2);
    w := [];
    for j := 0 to m
      invariant w == MRPWeights(c, n, j, z)
    {
      var zp := c.red(Pow(z, 2 + j));
      ghost var block := ScalarVectorMul(c, po2, zp);
      ghost var before := w;
      for i := 0 to n
        invariant w == before + block[..i]
      {
        w := w + [c.red(po2[i] * zp)];
      }
      assert block[..n] == block;
    }
  }

  lemma PrefixWeights<P>(c: Curve<P>, n: nat, m: nat, j: nat, z: int)
    requires j <= m
    ensures j * n <= m * n == |MRPWeights(c, n, m, z)| && MRPWeights(c, n, m, z)[..j * n] == MRPWeights(c, n, j, z)
    decreases m
  {
    MRPWeightsLength(c, n, m, z);
    MRPWeightsLength(c, n, j, z);
    assert j * n + (m - j) * n == m * n;
    if j < m {
      PrefixWeights(c, n, m - 1, j, z);
    }
  }

  lemma BlockOfWeights<P>(c: Curve<P>, n: nat, m: nat, j: nat, i: nat, z: int)
    requires j < m && i < n
    ensures j * n + i < m * n == |MRPWeights(c, n, m, z)|
    ensures MRPWeights(c, n, m, z)[j * n + i] == c.red(c.red(Pow(2, i)) * c.red(Pow(z, 2 + j)))
  {
    PrefixWeights(c, n, m, j + 1, z);
    MRPWeightsLength(c, n, j, z);
    assert (j + 1) * n == j * n + n;
    var w := MRPWeights(c, n, j + 1, z);
    assert w[j * n + i] == ScalarVectorMul(c, PowerVector(c, n, 2), c.red(Pow(z, 2 + j)))[i];
    assert MRPWeights(c, n, m, z)[j * n + i] == MRPWeights(c, n, m, z)[..(j + 1) * n][j * n + i];
  }

  lemma SumStep<P>(c: Curve<P>, hp: seq<P>, vals: seq<int>, t: nat)
    requires |hp| == |vals| && t < |hp|
    ensures Sum(c, hp[..t + 1], vals[..t + 1]) == c.add(Sum(c, hp[..t], vals[..t]), c.mult(hp[t], vals[t]))
  {
    assert hp[..t + 1][..t] == hp[..t] && vals[..t + 1][..t] == vals[..t];
  }

  /** The scalar of one generator. */
  lemma BlockVal<P>(c: Curve<P>, y: seq<int>, w: seq<int>, z: int, m: nat, n: nat, j: nat, i: nat)
    requires |y| == |w| == m * n && w == MRPWeights(c, n, m, z) && j < m && i < n
    ensures j * n + i < m * n
    ensures MRPVals(y, w, z)[j * n + i] == z * y[j * n + i] + c.red(c.red(Pow(z, 2 + j)) * c.red(Pow(2, i)))
  {
    BlockOfWeights(c, n, m, j, i, z);
    assert c.red(Pow(z, 2 + j)) * c.red(Pow(2, i)) == c.red(Pow(2, i)) * c.red(Pow(z, 2 + j));
  }

  lemma NextBlock(j: nat, m: nat, n: nat)
    requires j < m
    ensures (j + 1) * n == j * n + n <= m * n
  {
    assert (j + 1) * n + (m - j - 1) * n == m * n;
  }

  /** The inner loop of tmp2: the block of one value. */
  method SumBlock<P>(c: Curve<P>, hp: seq<P>, y: seq<int>, z: int, m: nat, n: nat, j: nat, po2: seq<int>, sum: P,
                     ghost w: seq<int>, ghost vals: seq<int>)
    returns (tmp2: P)
    requires |hp| == |y| == |w| == m * n && w == MRPWeights(c, n, m, z) && vals == MRPVals(y, w, z) && j < m
    requires po2 == PowerVector(c, n, 2)
    requires j * n + n <= m * n && sum == Sum(c, hp[..j * n], vals[..j * n])
    ensures tmp2 == Sum(c, hp[..j * n + n], vals[..j * n + n])
  {
    tmp2 := sum;
    for i := 0 to n
      invariant tmp2 == Sum(c, hp[..j * n + i], vals[..j * n + i])
    {
      var t := j * n + i;
      var zp := c.red(Pow(z, 2 + j));
      var val := z * y[t] + c.red(zp * po2[i]);
      assert val == vals[t] by { BlockVal(c, y, w, z, m, n, j, i); }
      SumStep(c, hp, vals, t);
      tmp2 := c.add(tmp2, c.mult(hp[t], val));
    }
  }

  /** tmp2 of the aggregated verifier: a loop over the values and, inside, over their bits. */
  method SumBlocks<P>(c: Curve<P>, hp: seq<P>, y: seq<int>, z: int, m: nat, n: nat, ghost w: seq<int>) returns (tmp2: P)
    requires |hp| == |y| == |w| == m * n && w == MRPWeights(c, n, m, z)
    ensures tmp2 == Sum(c, hp, MRPVals(y, w, z))
  {
    tmp2 := c.zero;
    var po2 := PowerVector(c, n, 2);
    ghost var vals := MRPVals(y, w, z);
    assert hp[..0] == [] && vals[..0] == [];
    for j := 0 to m
      invariant j * n <= m * n && tmp2 == Sum(c, hp[..j * n], vals[..j * n])
    {
      NextBlock(j, m, n);
      tmp2 := SumBlock(c, hp, y, z, m, n, j, po2, tmp2, w, vals);
    }
    assert hp[..m * n] == hp && vals[..m * n] == vals;
  }
}
