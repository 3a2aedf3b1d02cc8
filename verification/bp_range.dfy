/** range_proof.go: a proof that one committed value lies in [0, 2^V). */
module RangeProofs {
  import opened PowersOfTwo
  import opened Scalars
  import opened CurveGroup
  import opened Vectors
  import opened InnerProductArgument
  import opened BitVectors
  import opened RangePolynomial
  import opened RangeCommitments
  import opened RangeProofCore

  datatype RangeProof<P> = RangeProof(comm: P, core: Core<P>)

  /** z^2 * 2^n, reduced as the code reduces it. */
  function RPWeights<P>(c: Curve<P>, l: nat, z: int): (w: seq<int>)
    ensures |w| == l
  {
    ScalarVectorMul(c, PowerVector(c, l, 2), c.red(Pow(z, 2)))
  }

  /** The scalars of the second generators in the verifier. */
  function RPVals<P>(c: Curve<P>, y: seq<int>, z: int): (r: seq<int>)
    ensures |r| == |y|
    ensures forall i {:trigger r[i]} :: 0 <= i < |y| ==> r[i] == z * y[i] + (z * z) * PowerVector(c, |y|, 2)[i]
  {
    seq(|y|, i requires 0 <= i < |y| => z * y[i] + (z * z) * PowerVector(c, |y|, 2)[i])
  }

  method Delta<P(!new)>(c: Curve<P>, y: seq<int>, z: int, l: nat) returns (r: int)
    requires Laws(c)
    ensures r == DeltaOf(c, y, z, 1, l)
  {
    var sum := VectorSum(c, y);
    var z2 := c.red(z * z);
    var t1 := c.red(z - z2);
    var t2 := c.red(t1 * sum);
    var z3 := c.red(z2 * z);
    var po2sum := c.red(Pow(2, l)) - 1;
    var t3 := c.red(z3 * po2sum);
    r := c.red(t2 - t3);
    assert Eq(c, t2 - t3, (z - z * z) * Total(y) - ZSum(z, 1) * (Two(l) - 1)) by {
      DeltaFirst(c, z, sum, Total(y));
      DeltaSecond(c, z, l);
      EqAdd(c, t2, (z - z * z) * Total(y), t3, ZSum(z, 1) * (Two(l) - 1));
    }
  }

  lemma DeltaFirst<P(!new)>(c: Curve<P>, z: int, sum: int, total: int)
    requires Laws(c) && sum == c.red(total)
    ensures Eq(c, c.red(c.red(z - c.red(z * z)) * sum), (z - z * z) * total)
  {
    EqRed(c, z * z);
    EqAdd(c, z, z, c.red(z * z), z * z);
    EqRed(c, z - c.red(z * z));
    EqRed(c, total);
    EqMul(c, c.red(z - c.red(z * z)), z - z * z, sum, total);
    EqRed(c, c.red(z - c.red(z * z)) * sum);
  }

  lemma PowerOfTwoSum<P(!new)>(c: Curve<P>, l: nat)
    requires Laws(c)
    ensures Eq(c, c.red(Pow(2, l)) - 1, Two(l) - 1)
  {
    PowTwo(l);
    EqRed(c, Pow(2, l));
    EqAdd(c, c.red(Pow(2, l)), Two(l), 1, 1);
  }

  lemma DeltaSecond<P(!new)>(c: Curve<P>, z: int, l: nat)
    requires Laws(c)
    ensures Eq(c, c.red(c.red(c.red(z * z) * z) * (c.red(Pow(2, l)) - 1)), ZSum(z, 1) * (Two(l) - 1))
  {
    var z2 := c.red(z * z);
    EqRed(c, z * z);
    EqMul(c, z2, z * z, z, z);
    EqRed(c, z2 * z);
    PowerOfTwoSum(c, l);
    EqMul(c, c.red(z2 * z), z * z * z, c.red(Pow(2, l)) - 1, Two(l) - 1);
    EqRed(c, c.red(z2 * z) * (c.red(Pow(2, l)) - 1));
    assert ZSum(z, 1) == Pow(z, 3) == z * z * z by { Cube(z); }
  }

  lemma Cube(z: int)
    ensures ZSum(z, 1) == Pow(z, 3) == z * z * z && Pow(z, 2) == z * z
  {
    assert ZSum(z, 0) == 0;
    assert Pow(z, 0) == 1 && Pow(z, 1) == z && Pow(z, 2) == z * z;
    assert Pow(z, 3) == z * (z * z) == z * z * z;
  }

  // ---------- prover and verifier ----------

  function RPInputs<P>(c: Curve<P>, e: Params<P>, v: nat, gamma: int, r: Randomness): (i: Inputs)
    requires |e.bpg| == |e.bph| == |Bits(v, e.v)| == |r.sL| == |r.sR| == e.v
    ensures Sized(e, i) && i.r == r
  {
    var aL := Bits(v, e.v);
    var aR := VectorAddScalar(c, aL, -1);
    var z := c.hash1(Blinded(c, e, r.sL, r.sR, r.rho));
    var y := PowerVector(c, e.v, c.hash1(Blinded(c, e, aL, aR, r.alpha)));
    RPFeed(c, e.v, v, gamma, r, aL, aR, y, z)
  }

  /** Weights, constant term and blinding, once the first two challenges are known. */
  function RPFeed<P>(c: Curve<P>, l: nat, v: int, gamma: int, r: Randomness, aL: seq<int>, aR: seq<int>, y: seq<int>,
                     z: int): Inputs {
    var z2 := c.red(Pow(z, 2));
    Inputs(r, aL, aR, RPWeights(c, l, z), c.red(v * z2 + DeltaOf(c, y, z, 1, l)), c.red(z2 * gamma), false)
  }

  /** RPProve up to the second challenge. */
  method RPPrepare<P(!new)>(c: Curve<P>, e: Params<P>, v: nat, aL: seq<int>, gamma: int, r: Randomness)
    returns (i: Inputs, a: P, s: P, y: seq<int>, z: int)
    requires Laws(c) && |e.bpg| == |e.bph| == |aL| == |r.sL| == |r.sR| == e.v && aL == Bits(v, e.v)
    ensures i == RPInputs(c, e, v, gamma, r)
    ensures a == AOf(c, e, i) && s == SOf(c, e, i) && y == YOf(c, e, i) && z == ZOf(c, e, i)
  {
    var aR := VectorAddScalar(c, aL, -1);
    a := CommitBlinded(c, e, aL, aR, r.alpha);
    s := CommitBlinded(c, e, r.sL, r.sR, r.rho);
    y, z := PowerVector(c, e.v, c.hash1(a)), c.hash1(s);
    var delta := Delta(c, y, z, e.v);
    var z2 := c.red(Pow(z, 2));
    i := Inputs(r, aL, aR, ScalarVectorMul(c, PowerVector(c, e.v, 2), z2), c.red(v * z2 + delta), c.red(z2 * gamma),
                false);
  }

  /** The proof for a value that fits. */
  function RPProof<P>(c: Curve<P>, k: nat, e: Params<P>, v: nat, gamma: int, r: Randomness): RangeProof<P>
    requires |e.bpg| == |e.bph| == |Bits(v, e.v)| == |r.sL| == |r.sR| == e.v == Two(k)
  {
    RangeProof(Pair(c, e.g, e.h, v, gamma), ProofOf(c, k, e, RPInputs(c, e, v, gamma, r)))
  }

  lemma SmallPower<P(!new)>(c: Curve<P>, l: nat)
    requires Laws(c) && Two(l) < c.n
    ensures c.red(Pow(2, l)) == Two(l)
  {
    PowTwo(l);
    Reduced(c, Two(l));
    QuotientUnique(c.n, Two(l), 0, Two(l));
  }

  /** The bits of a value, if it passes the range test and they fill the vectors exactly: values outside [0, 2^l] are
      refused, and 2^l itself passes that test but has l + 1 bits. */
  method CheckedBits<P(!new)>(c: Curve<P>, v: int, l: nat) returns (bits: Outcome<seq<int>>)
    requires Laws(c) && 0 < l && Two(l) < c.n
    ensures bits.Done? <==> 0 <= v < Two(l)
    ensures bits.Done? ==> bits.value == Bits(v, l) && |bits.value| == l
  {
    if v < 0 {
      return Panic;
    }
    BitsOk(v, l);
    SmallPower(c, l);
    if v > c.red(Pow(2, l)) {
      return Panic;
    }
    var aL := BitVector(v, l);
    if |aL| != l {
      return Panic;
    }
    return Done(aL);
  }

  method RPBuild<P(!new)>(c: Curve<P>, e: Params<P>, v: nat, aL: seq<int>, gamma: int, r: Randomness, ghost k: nat)
    returns (rp: RangeProof<P>)
    requires Laws(c) && |e.bpg| == |e.bph| == |aL| == |r.sL| == |r.sR| == e.v == Two(k) && aL == Bits(v, e.v)
    ensures rp == RPProof(c, k, e, v, gamma, r)
  {
    var comm := c.add(c.mult(e.g, v), c.mult(e.h, gamma));
    var i, a, s, y, z := RPPrepare(c, e, v, aL, gamma, r);
    var core := FinishProof(c, e, i, a, s, y, z, k);
    rp := RangeProof(comm, core);
  }

  /** RPProve makes a proof exactly for the values in [0, 2^V). */
  method RPProve<P(!new)>(c: Curve<P>, e: Params<P>, v: int, gamma: int, r: Randomness, ghost k: nat)
    returns (result: Outcome<RangeProof<P>>)
    requires Laws(c) && ValidParams(c, k, e) && |r.sL| == |r.sR| == e.v
    ensures result.Done? <==> 0 <= v < Two(e.v)
    ensures result.Done? ==> |Bits(v, e.v)| == e.v && result.value == RPProof(c, k, e, v, gamma, r)
  {
    var bits := CheckedBits(c, v, e.v);
    if bits.Panic? {
      return Panic;
    }
    var rp := RPBuild(c, e, v, bits.value, gamma, r, k);
    return Done(rp);
  }

  /** The verdict of RPVerify. */
  ghost predicate RPAccepts<P>(c: Curve<P>, e: Params<P>, rp: RangeProof<P>)
    requires |e.bpg| == |e.bph| == e.v && Leveled(rp.core.ipp)
  {
    var y, z := PowerVector(c, e.v, rp.core.cy), rp.core.cz;
    CoreAccepts(c, e, rp.core, c.mult(rp.comm, z * z), DeltaOf(c, y, z, 1, e.v), RPVals(c, y, z))
  }

  /** that*G + tau*H against z^2*V + delta*G + x*T1 + x^2*T2 */
  method RPCheckCommitment<P(!new)>(c: Curve<P>, e: Params<P>, rp: RangeProof<P>, y: seq<int>) returns (ok: bool)
    requires Laws(c)
    ensures ok <==>
      CommitmentHolds(c, e, rp.core, c.mult(rp.comm, rp.core.cz * rp.core.cz), DeltaOf(c, y, rp.core.cz, 1, e.v))
  {
    var cz, cx := rp.core.cz, rp.core.cx;
    var delta := Delta(c, y, cz, e.v);
    var lhs := c.add(c.mult(e.g, rp.core.th), c.mult(e.h, rp.core.tau));
    var comm, d, t1, t2 := c.mult(rp.comm, cz * cz), c.mult(e.g, delta), c.mult(rp.core.t1, cx),
      c.mult(rp.core.t2, cx * cx);
    var rhs := c.add(c.add(c.add(comm, d), t1), t2);
    MoveLast(c, comm, d, t1, t2);
    ok := c.Equal(lhs, rhs);
  }

  lemma MoveLast<P(!new)>(c: Curve<P>, comm: P, d: P, t1: P, t2: P)
    requires Laws(c)
    ensures c.add(c.add(c.add(comm, d), t1), t2) == c.add(c.add(c.add(d, t1), t2), comm)
  {
    AddAssoc(c, comm, d, t1);
    AddAssoc(c, comm, c.add(d, t1), t2);
    AddComm(c, comm, c.add(c.add(d, t1), t2));
  }

  method RPVerify<P(!new)>(c: Curve<P>, e: Params<P>, rp: RangeProof<P>) returns (ok: bool)
    requires Laws(c) && |e.bpg| == |e.bph| == e.v && Challenged(c, rp.core)
    ensures ok <==> RPAccepts(c, e, rp)
  {
    var core := rp.core;
    if c.hash1(core.a) != core.cy || c.hash1(core.s) != core.cz || c.hash2(core.t1, core.t2) != core.cx {
      return false;
    }
    var y := PowerVector(c, e.v, rp.core.cy);
    ok := RPCheckCommitment(c, e, rp, y);
    if ok {
      ok := CheckArgument(c, e, rp.core, y, RPVals(c, y, rp.core.cz));
    }
  }

  /** What RPProve feeds into the proof, given the challenges that come out. */
  ghost predicate RPFed<P>(c: Curve<P>, l: nat, v: int, gamma: int, i: Inputs, y: seq<int>, z: int) {
    && |i.aL| == l && AllBits(i.aL) && Value(i.aL) == v
    && i.aR == VectorAddScalar(c, i.aL, -1) && i.w == RPWeights(c, l, z)
    && i.t0 == c.red(v * c.red(Pow(z, 2)) + DeltaOf(c, y, z, 1, l)) && i.gz == c.red(c.red(Pow(z, 2)) * gamma)
  }

  lemma RPFedOk<P(!new)>(c: Curve<P>, e: Params<P>, v: nat, gamma: int, r: Randomness, i: Inputs)
    requires |e.bpg| == |e.bph| == |Bits(v, e.v)| == |r.sL| == |r.sR| == e.v && 0 < e.v && v < Two(e.v)
    requires i == RPInputs(c, e, v, gamma, r)
    ensures RPFed(c, e.v, v, gamma, i, YOf(c, e, i), ZOf(c, e, i))
  {
    BitsOk(v, e.v);
  }

  /** The premises of the common completeness lemma. */
  lemma RPReady<P(!new)>(c: Curve<P>, l: nat, v: int, gamma: int, i: Inputs, y: seq<int>, z: int)
    requires Laws(c) && RPFed(c, l, v, gamma, i, y, z) && |y| == l
    ensures Ready(c, i, y, z, v * (z * z), gamma * (z * z), DeltaOf(c, y, z, 1, l), RPVals(c, y, z))
  {
    RPConstants(c, l, v, i.aL, y, i.w, z);
    ComplementBits(c, i.aL);
    RPValsOk(c, y, z);
    RPBlinding(c, z, gamma);
  }

  /** Completeness: the proof for every value in [0, 2^V) is accepted, whatever the random scalars. */
  lemma RPComplete<P(!new)>(c: Curve<P>, k: nat, e: Params<P>, v: int, gamma: int, r: Randomness)
    requires Laws(c) && ValidParams(c, k, e) && |r.sL| == |r.sR| == e.v && 0 <= v < Two(e.v)
    requires |Bits(v, e.v)| == e.v && Challenged(c, RPProof(c, k, e, v, gamma, r).core)
    ensures var rp := RPProof(c, k, e, v, gamma, r); Leveled(rp.core.ipp) && RPAccepts(c, e, rp)
  {
    var i, rp := RPInputs(c, e, v, gamma, r), RPProof(c, k, e, v, gamma, r);
    var y, z := PowerVector(c, e.v, rp.core.cy), rp.core.cz;
    RPFedOk(c, e, v, gamma, r, i);
    RPReady(c, e.v, v, gamma, i, y, z);
    PairScale(c, e.g, e.h, v, gamma, z * z);
    CoreComplete(c, k, e, i, v * (z * z), gamma * (z * z), DeltaOf(c, y, z, 1, e.v), RPVals(c, y, z), rp.core);
  }

  lemma RPBlinding<P(!new)>(c: Curve<P>, z: int, gamma: int)
    requires Laws(c)
    ensures Eq(c, c.red(c.red(Pow(z, 2)) * gamma), gamma * (z * z)) && Eq(c, gamma * c.red(Pow(z, 2)), gamma * (z * z))
  {
    Cube(z);
    EqRed(c, z * z);
    EqMul(c, c.red(z * z), z * z, gamma, gamma);
    EqRed(c, c.red(z * z) * gamma);
    assert (z * z) * gamma == gamma * (z * z) && gamma * c.red(z * z) == c.red(z * z) * gamma;
  }

  lemma ComplementBits<P(!new)>(c: Curve<P>, aL: seq<int>)
    requires Laws(c)
    ensures EqVec(c, VectorAddScalar(c, aL, -1), Shift(aL, -1))
  {
    forall i | 0 <= i < |aL| ensures Eq(c, VectorAddScalar(c, aL, -1)[i], Shift(aL, -1)[i]) {
      EqRed(c, aL[i] - 1);
    }
  }

  lemma RPWeightsOk<P(!new)>(c: Curve<P>, l: nat, z: int)
    requires Laws(c)
    ensures EqVec(c, RPWeights(c, l, z), VScale(Twos(l), z * z))
  {
    forall i | 0 <= i < l ensures Eq(c, RPWeights(c, l, z)[i], VScale(Twos(l), z * z)[i]) {
      WeightOk(c, i, c.red(Pow(z, 2)), z * z) by {
        Cube(z);
        EqRed(c, Pow(z, 2));
      }
      assert Twos(l)[i] == Two(i) && PowerVector(c, l, 2)[i] == c.red(Pow(2, i));
    }
  }

  lemma WeightOk<P(!new)>(c: Curve<P>, i: nat, zp: int, zi: int)
    requires Laws(c) && Eq(c, zp, zi)
    ensures Eq(c, c.red(c.red(Pow(2, i)) * zp), Two(i) * zi)
  {
    PowTwo(i);
    EqRed(c, Pow(2, i));
    EqMul(c, c.red(Pow(2, i)), Two(i), zp, zi);
    EqRed(c, c.red(Pow(2, i)) * zp);
  }

  lemma RPValsOk<P(!new)>(c: Curve<P>, y: seq<int>, z: int)
    requires Laws(c)
    ensures ValsFor(c, RPVals(c, y, z), y, RPWeights(c, |y|, z), z)
  {
    var vals, w := RPVals(c, y, z), RPWeights(c, |y|, z);
    forall i | 0 <= i < |y| ensures Eq(c, vals[i], z * y[i] + w[i]) {
      var po2 := PowerVector(c, |y|, 2)[i];
      RPBlinding(c, z, po2);
      EqRed(c, po2 * c.red(Pow(z, 2)));
      EqAdd(c, z * y[i], z * y[i], w[i], po2 * (z * z));
      assert po2 * (z * z) == (z * z) * po2;
    }
  }

  lemma RPDot<P(!new)>(c: Curve<P>, l: nat, v: int, aL: seq<int>, w: seq<int>, z: int)
    requires Laws(c) && |aL| == |w| == l && Value(aL) == v && w == RPWeights(c, l, z)
    ensures Eq(c, Dot(aL, w), v * (z * z))
  {
    RPWeightsOk(c, l, z);
    DotCong(c, aL, aL, w, VScale(Twos(l), z * z));
    DotScaleRight(aL, Twos(l), z * z);
    DotTwos(aL);
  }

  lemma RPTotal<P(!new)>(c: Curve<P>, l: nat, w: seq<int>, z: int)
    requires Laws(c) && w == RPWeights(c, l, z)
    ensures Eq(c, z * Total(w), ZSum(z, 1) * (Two(l) - 1))
  {
    RPWeightsOk(c, l, z);
    TotalCong(c, w, VScale(Twos(l), z * z));
    TotalScale(Twos(l), z * z);
    TotalTwos(l);
    CubeTimes(c, z, Total(w), Two(l) - 1);
  }

  lemma CubeTimes<P(!new)>(c: Curve<P>, z: int, t: int, p: int)
    requires Laws(c) && Eq(c, t, p * (z * z))
    ensures Eq(c, z * t, ZSum(z, 1) * p)
  {
    EqMul(c, z, z, t, p * (z * z));
    Cube(z);
    assert z * (p * (z * z)) == (z * z * z) * p;
  }

  lemma RPConstants<P(!new)>(c: Curve<P>, l: nat, v: int, aL: seq<int>, y: seq<int>, w: seq<int>, z: int)
    requires Laws(c) && |aL| == |y| == |w| == l && AllBits(aL) && Value(aL) == v && w == RPWeights(c, l, z)
    ensures Constants(c, aL, y, w, z, c.red(v * c.red(Pow(z, 2)) + DeltaOf(c, y, z, 1, l)), v * (z * z),
                      DeltaOf(c, y, z, 1, l))
  {
    ConstantsMatch(c, aL, y, w, z, v * c.red(Pow(z, 2)), v * (z * z), 1, l) by {
      RPDot(c, l, v, aL, w, z);
      RPTotal(c, l, w, z);
      RPBlinding(c, z, v);
    }
  }

  lemma {:induction false} TotalScale(a: seq<int>, s: int)
    ensures Total(VScale(a, s)) == Total(a) * s
  {
    if |a| > 0 {
      var m := |a| - 1;
      TotalScale(a[..m], s);
      assert VScale(a, s)[..m] == VScale(a[..m], s);
      assert (Total(a[..m]) + a[m]) * s == Total(a[..m]) * s + a[m] * s;
    }
  }
}
