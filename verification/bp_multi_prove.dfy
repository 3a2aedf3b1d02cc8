/** Prover, verifier and completeness of the aggregated range proof. */
module MultiRangeArgument {
  import opened PowersOfTwo
  import opened Scalars
  import opened CurveGroup
  import opened Vectors
  import opened InnerProductArgument
  import opened FastVerifier
  import opened BitVectors
  import opened RangePolynomial
  import opened RangeCommitments
  import opened RangeProofCore
  import opened RangeProofs
  import opened MultiRangeProofs
  import opened MultiRangeLoops

  // ---------- commitments and bits of all values ----------

  /** The values MRPProve does not panic on. The guard lets 2^n through; its extra bit lands in the next value's
      first slot, where it is overwritten, so that only a last value of 2^n runs over the end of the vectors. */
  predicate Proved(values: seq<int>, n: nat) {
    (forall j :: 0 <= j < |values| ==> 0 <= values[j] <= Two(n)) && (|values| > 0 ==> values[|values| - 1] < Two(n))
  }

  method WriteSlots(slots: seq<int>, base: nat, bits: seq<int>) returns (r: seq<int>)
    requires base + |bits| <= |slots|
    ensures r == slots[..base] + bits + slots[base + |bits|..]
  {
    r := slots;
    for i := 0 to |bits|
      invariant r == slots[..base] + bits[..i] + slots[base + i..]
    {
      r := r[base + i := bits[i]];
    }
  }

  lemma {:induction false} BitsOfPower(n: nat)
    ensures |Bits(Two(n), n)| == n + 1
  {
    if n > 0 {
      BitsOfPower(n - 1);
    }
  }

  lemma BitCount(v: nat, n: nat)
    requires n > 0 && v <= Two(n)
    ensures |Bits(v, n)| == if v < Two(n) then n else n + 1
  {
    BitsOk(v, n);
    BitsOfPower(n);
  }

  /** The slots hold the bits of the values done so far. */
  ghost predicate Filled(done: seq<int>, n: nat, slots: seq<int>) {
    Naturals(done) && AllLow(done, n) <= slots
  }

  /** One turn of the loop of MRPProve: the bits of the next value go to the slots from j*n on. */
  method FillValue(v: nat, n: nat, j: nat, m: nat, slots: seq<int>, ghost done: seq<int>)
    returns (r: seq<int>, fits: bool)
    requires n > 0 && |done| == j < m && v <= Two(n) && |slots| == m * n && Filled(done, n, slots)
    ensures fits <==> j < m - 1 || v < Two(n)
    ensures fits ==> |r| == |slots| && Filled(done + [v], n, r)
  {
    var aL := BitVector(v, n);
    BitCount(v, n);
    AllLowLength(done, n);
    NextBlock(j, m, n);
    if j < m - 1 { NextBlock(j + 1, m, n); }
    fits := j * n + |aL| <= |slots|;
    r := slots;
    if fits {
      r := WriteSlots(slots, j * n, aL);
      FillStep(done, v, n, slots, aL, r, j * n);
    }
  }

  lemma FillStep(done: seq<int>, v: nat, n: nat, slots: seq<int>, aL: seq<int>, r: seq<int>, base: nat)
    requires n > 0 && Filled(done, n, slots) && base == |AllLow(done, n)|
    requires aL == Bits(v, n) && base + |aL| <= |slots| && r == slots[..base] + aL + slots[base + |aL|..]
    ensures |r| == |slots| && Filled(done + [v], n, r)
  {
    LowBits(v, n);
    AllLowSnoc(done, v, n);
    WrittenPrefix(AllLow(done, n), slots, aL, r, n);
  }

  lemma AllLowSnoc(done: seq<int>, v: nat, n: nat)
    requires Naturals(done)
    ensures Naturals(done + [v]) && AllLow(done + [v], n) == AllLow(done, n) + Low(v, n)
  {
    assert (done + [v])[..|done|] == done;
  }

  lemma WrittenPrefix(low: seq<int>, slots: seq<int>, bits: seq<int>, r: seq<int>, n: nat)
    requires low <= slots && n <= |bits| && |low| + |bits| <= |slots|
    requires r == slots[..|low|] + bits + slots[|low| + |bits|..]
    ensures |r| == |slots| && low + bits[..n] <= r
  {
    assert r[..|low| + n] == low + bits[..n];
  }

  /** The bits of all values, each tested against the range [0, bound] first. */
  method ConcatBits(values: seq<int>, n: nat, bound: int, total: nat) returns (out: Outcome<seq<int>>)
    requires n > 0 && bound == Two(n) && total == |values| * n
    ensures out.Done? <==> Proved(values, n)
    ensures out.Done? ==> Naturals(values) && out.value == AllLow(values, n)
  {
    var slots := seq(total, _ => 0);
    var j := 0;
    ghost var done: seq<int> := [];
    while j < |values|
      invariant 0 <= j <= |values| && |slots| == total && done == values[..j] && Filled(done, n, slots)
      invariant forall x :: 0 <= x < j ==> 0 <= values[x] <= Two(n)
      invariant j == |values| && j > 0 ==> values[j - 1] < Two(n)
    {
      var v := values[j];
      if v < 0 || v > bound {
        return Panic;
      }
      var fits;
      slots, fits := FillValue(v, n, j, |values|, slots, done);
      if !fits {
        return Panic;
      }
      done := done + [v];
      j := j + 1;
    }
    FilledAll(values, done, n, slots);
    return Done(slots);
  }

  lemma FilledAll(values: seq<int>, done: seq<int>, n: nat, slots: seq<int>)
    requires done == values[..|values|] && Filled(done, n, slots) && |slots| == |values| * n
    ensures Naturals(values) && slots == AllLow(values, n)
  {
    assert done == values;
    AllLowLength(values, n);
  }

  /** A commitment to every value. */
  method CommitAll<P>(c: Curve<P>, e: Params<P>, values: seq<int>, gammas: seq<int>) returns (comms: seq<P>)
    requires |values| == |gammas|
    ensures comms == Commitments(c, e, values, gammas)
  {
    comms := [];
    for j := 0 to |values|
      invariant comms == Commitments(c, e, values, gammas)[..j]
    {
      comms := comms + [c.add(c.mult(e.g, values[j]), c.mult(e.h, gammas[j]))];
    }
  }

  // ---------- prover ----------

  /** Weights, constant term and blinding, once the first two challenges are known. */
  function MRPFeed<P>(c: Curve<P>, n: nat, values: seq<int>, gammas: seq<int>, r: Randomness, aL: seq<int>,
                      aR: seq<int>, y: seq<int>, z: int): Inputs
    requires |gammas| == |values|
  {
    var m := |values|;
    Inputs(r, aL, aR, MRPWeights(c, n, m, z), c.red(c.red(Dot(values, ZWeights(c, m, z))) + DeltaOf(c, y, z, m, n)),
           c.red(Dot(gammas, GWeights(c, m, z))), true)
  }

  predicate MRPSized<P>(e: Params<P>, n: nat, values: seq<int>, gammas: seq<int>, r: Randomness) {
    |e.bpg| == |e.bph| == |r.sL| == |r.sR| == e.v == |values| * n && |gammas| == |values|
  }

  function MRPInputs<P>(c: Curve<P>, e: Params<P>, n: nat, values: seq<int>, gammas: seq<int>,
                        r: Randomness): (i: Inputs)
    requires MRPSized(e, n, values, gammas, r) && forall j :: 0 <= j < |values| ==> values[j] >= 0
    ensures Sized(e, i) && i.r == r
  {
    AllLowLength(values, n);
    var aL := AllLow(values, n);
    var aR := VectorAddScalar(c, aL, -1);
    var z := c.hash1(Blinded(c, e, r.sL, r.sR, r.rho));
    MRPWeightsLength(c, n, |values|, z);
    var y := PowerVector(c, e.v, c.hash1(Blinded(c, e, aL, aR, r.alpha)));
    MRPFeed(c, n, values, gammas, r, aL, aR, y, z)
  }

  function Commitments<P>(c: Curve<P>, e: Params<P>, values: seq<int>, gammas: seq<int>): (r: seq<P>)
    requires |values| == |gammas|
    ensures |r| == |values|
    ensures forall j {:trigger r[j]} :: 0 <= j < |values| ==> r[j] == Pair(c, e.g, e.h, values[j], gammas[j])
  {
    seq(|values|, j requires 0 <= j < |values| => Pair(c, e.g, e.h, values[j], gammas[j]))
  }

  function MRPProof<P>(c: Curve<P>, k: nat, e: Params<P>, n: nat, values: seq<int>, gammas: seq<int>,
                       r: Randomness): MultiRangeProof<P>
    requires MRPSized(e, n, values, gammas, r) && e.v == Two(k) && forall j :: 0 <= j < |values| ==> values[j] >= 0
  {
    MultiRangeProof(Commitments(c, e, values, gammas), ProofOf(c, k, e, MRPInputs(c, e, n, values, gammas, r)))
  }

  /** MRPProve from the bits to the second challenge. */
  method MRPPrepare<P(!new)>(c: Curve<P>, e: Params<P>, n: nat, values: seq<int>, gammas: seq<int>, r: Randomness,
                             aL: seq<int>, aR: seq<int>)
    returns (i: Inputs, a: P, s: P, y: seq<int>, z: int)
    requires Laws(c) && MRPSized(e, n, values, gammas, r) && Naturals(values)
    requires aL == AllLow(values, n) && aR == VectorAddScalar(c, aL, -1)
    ensures i == MRPInputs(c, e, n, values, gammas, r)
    ensures a == AOf(c, e, i) && s == SOf(c, e, i) && y == YOf(c, e, i) && z == ZOf(c, e, i)
  {
    AllLowLength(values, n);
    a := CommitBlinded(c, e, aL, aR, r.alpha);
    s := CommitBlinded(c, e, r.sL, r.sR, r.rho);
    y, z := PowerVector(c, e.v, c.hash1(a)), c.hash1(s);
    i := MRPWeigh(c, n, values, gammas, r, aL, aR, y, z);
  }

  method MRPWeigh<P(!new)>(c: Curve<P>, n: nat, values: seq<int>, gammas: seq<int>, r: Randomness, aL: seq<int>,
                           aR: seq<int>, y: seq<int>, z: int)
    returns (i: Inputs)
    requires Laws(c) && |gammas| == |values|
    ensures i == MRPFeed(c, n, values, gammas, r, aL, aR, y, z)
  {
    var w := FillWeights(c, n, |values|, z);
    var vz2 := WeightedValues(c, values, z);
    var delta := DeltaMRP(c, y, z, |values|, n);
    var gz := WeightedBlindings(c, gammas, z);
    i := Inputs(r, aL, aR, w, c.red(vz2 + delta), gz, true);
  }

  method MRPBuild<P(!new)>(c: Curve<P>, e: Params<P>, n: nat, values: seq<int>, gammas: seq<int>, r: Randomness,
                           comms: seq<P>, aL: seq<int>, aR: seq<int>, ghost k: nat)
    returns (proof: MultiRangeProof<P>)
    requires Laws(c) && MRPSized(e, n, values, gammas, r) && e.v == Two(k) && Naturals(values)
    requires comms == Commitments(c, e, values, gammas)
    requires aL == AllLow(values, n) && aR == VectorAddScalar(c, aL, -1)
    ensures proof == MRPProof(c, k, e, n, values, gammas, r)
  {
    var i, a, s, y, z := MRPPrepare(c, e, n, values, gammas, r, aL, aR);
    var core := FinishProof(c, e, i, a, s, y, z, k);
    proof := MultiRangeProof(comms, core);
  }

  /** MRPProve panics when the number of values does not divide the number of bits and on the values Proved rules
      out. */
  method MRPProve<P(!new)>(c: Curve<P>, e: Params<P>, values: seq<int>, gammas: seq<int>, r: Randomness, ghost k: nat)
    returns (result: Outcome<MultiRangeProof<P>>)
    requires Laws(c) && ValidParams(c, k, e) && |r.sL| == |r.sR| == e.v && |gammas| == |values|
    ensures result.Done? <==> |values| > 0 && e.v % |values| == 0 && Proved(values, e.v / |values|)
    ensures result.Done? ==> MRPSized(e, e.v / |values|, values, gammas, r) && Naturals(values)
    ensures result.Done? ==> result.value == MRPProof(c, k, e, e.v / |values|, values, gammas, r)
  {
    var m := |values|;
    if m == 0 || e.v % m != 0 {
      return Panic;
    }
    var bitsPerValue := e.v / m;
    Division(e.v, m);
    TwoMonotone(bitsPerValue, e.v);
    SmallPower(c, bitsPerValue);
    var bits := ConcatBits(values, bitsPerValue, c.red(Pow(2, bitsPerValue)), e.v);
    if bits.Panic? {
      return Panic;
    }
    var aL := bits.value;
    var aR := VectorAddScalar(c, aL, -1);
    var comms := CommitAll(c, e, values, gammas);
    var proof := MRPBuild(c, e, bitsPerValue, values, gammas, r, comms, aL, aR, k);
    return Done(proof);
  }

  lemma Division(v: nat, m: nat)
    requires v > 0 && m > 0 && v % m == 0
    ensures m * (v / m) == v && 0 < v / m <= v
  {
    var q := v / m;
    assert m * q == v;
    QuotientBound(v, m, q);
  }

  lemma QuotientBound(v: nat, m: nat, q: int)
    requires v > 0 && m > 0 && m * q == v
    ensures 0 < q <= v
  {
    assert q > 0;
    assert (m - 1) * q >= 0;
    assert (m - 1) * q == m * q - q;
  }

  // ---------- verifier ----------

  /** The scalars of the second generators: those that no value has a bit for are left out of the sum. */
  ghost function VerifierVals<P>(c: Curve<P>, n: nat, m: nat, y: seq<int>, z: int): (r: seq<int>)
    requires m * n <= |y|
    ensures |r| == |y|
  {
    ValsOf(c, n, m, y[..m * n], z) + Zeros(|y| - m * n)
  }

  function Zeros(l: nat): (r: seq<int>)
    ensures |r| == l && forall i {:trigger r[i]} :: 0 <= i < l ==> r[i] == 0
  {
    seq(l, _ => 0)
  }

  lemma {:induction false} SumZeros<P(!new)>(c: Curve<P>, g: seq<P>)
    requires Laws(c)
    ensures Sum(c, g, Zeros(|g|)) == c.zero
  {
    if g != [] {
      var n := |g| - 1;
      assert Zeros(|g|)[..n] == Zeros(n);
      SumZeros(c, g[..n]);
      MultZero(c, g[n]);
      AddZero(c, c.zero);
    }
  }

  /** Generators with scalar 0 do not count. */
  lemma SumPadded<P(!new)>(c: Curve<P>, g: seq<P>, a: seq<int>, rest: seq<P>)
    requires Laws(c) && |a| == |g|
    ensures Sum(c, g + rest, a + Zeros(|rest|)) == Sum(c, g, a)
  {
    SumConcat(c, g, a, rest, Zeros(|rest|));
    SumZeros(c, rest);
    AddZero(c, Sum(c, g, a));
  }

  ghost predicate MRPAccepts<P>(c: Curve<P>, e: Params<P>, n: nat, proof: MultiRangeProof<P>)
    requires |e.bpg| == |e.bph| == e.v && |proof.comms| * n <= e.v && Leveled(proof.core.ipp)
  {
    var y, z, m := PowerVector(c, e.v, proof.core.cy), proof.core.cz, |proof.comms|;
    CoreAccepts(c, e, proof.core, Sum(c, proof.comms, ZWeights(c, m, z)), DeltaOf(c, y, z, m, n),
                VerifierVals(c, n, m, y, z))
  }

  method MRPCheckCommitment<P(!new)>(c: Curve<P>, e: Params<P>, n: nat, proof: MultiRangeProof<P>, y: seq<int>)
    returns (ok: bool)
    requires Laws(c)
    ensures ok <==> CommitmentHolds(c, e, proof.core, Sum(c, proof.comms, ZWeights(c, |proof.comms|, proof.core.cz)),
      DeltaOf(c, y, proof.core.cz, |proof.comms|, n))
  {
    var comm := CommPowers(c, proof.comms, proof.core.cz);
    var delta := DeltaMRP(c, y, proof.core.cz, |proof.comms|, n);
    ok := CompareCommitment(c, e, proof.core, comm, delta);
  }

  method CompareCommitment<P>(c: Curve<P>, e: Params<P>, core: Core<P>, comm: P, delta: int) returns (ok: bool)
    ensures ok <==> CommitmentHolds(c, e, core, comm, delta)
  {
    var lhs := c.add(c.mult(e.g, core.th), c.mult(e.h, core.tau));
    var rhs := c.add(c.add(c.add(c.mult(e.g, delta), c.mult(core.t1, core.cx)), c.mult(core.t2, core.cx * core.cx)),
                     comm);
    ok := c.Equal(lhs, rhs);
  }

  method MRPRebuild<P(!new)>(c: Curve<P>, e: Params<P>, core: Core<P>, y: seq<int>, m: nat, n: nat)
    returns (hp: seq<P>, p: P)
    requires Laws(c) && |e.bpg| == |e.bph| == e.v && m * n <= e.v && y == PowerVector(c, e.v, core.cy)
    ensures hp == HPrimeOf(c, e, core) && p == PointOf(c, e, core, VerifierVals(c, n, m, y, core.cz))
  {
    var tmp1 := SumNegated(c, e.bpg, core.cz);
    hp := MakeHPrime(c, e.bph, y);
    var tmp2 := SumUsed(c, hp, y, core.cz, m, n);
    p := c.add(c.add(c.add(c.add(core.a, c.mult(core.s, core.cx)), tmp1), tmp2), c.neg(c.mult(e.h, core.mu)));
  }

  lemma UsedSum<P(!new)>(c: Curve<P>, hp: seq<P>, y: seq<int>, z: int, m: nat, n: nat, used: nat)
    requires Laws(c) && |hp| == |y| && used == m * n <= |y|
    ensures Sum(c, hp, VerifierVals(c, n, m, y, z)) == Sum(c, hp[..used], ValsOf(c, n, m, y[..used], z))
  {
    assert hp == hp[..used] + hp[used..];
    SumPadded(c, hp[..used], ValsOf(c, n, m, y[..used], z), hp[used..]);
  }

  method SumUsed<P(!new)>(c: Curve<P>, hp: seq<P>, y: seq<int>, z: int, m: nat, n: nat) returns (tmp2: P)
    requires Laws(c) && |hp| == |y| && m * n <= |y|
    ensures tmp2 == Sum(c, hp, VerifierVals(c, n, m, y, z))
  {
    var used := m * n;
    MRPWeightsLength(c, n, m, z);
    tmp2 := SumBlocks(c, hp[..used], y[..used], z, m, n, MRPWeights(c, n, m, z));
    UsedSum(c, hp, y, z, m, n, used);
  }

  method MRPCheckArgument<P(!new)>(c: Curve<P>, e: Params<P>, core: Core<P>, y: seq<int>, m: nat, n: nat)
    returns (ok: bool)
    requires Laws(c) && |e.bpg| == |e.bph| == e.v && m * n <= e.v
    requires y == PowerVector(c, e.v, core.cy) && Challenged(c, core)
    ensures ok <==> ArgumentHolds(c, e, core, VerifierVals(c, n, m, y, core.cz))
  {
    var hp, p := MRPRebuild(c, e, core, y, m, n);
    ok := InnerProductVerifyFast(c, core.th, p, e.u, e.bpg, hp, core.ipp, e.v);
  }

  lemma QuotientFits(v: nat, m: nat)
    requires m > 0
    ensures m * (v / m) <= v
  {
  }

  /** MRPVerify panics on a proof without commitments; the number of commitments need not divide the number of bits. */
  method MRPVerify<P(!new)>(c: Curve<P>, e: Params<P>, proof: MultiRangeProof<P>) returns (result: Outcome<bool>)
    requires Laws(c) && |e.bpg| == |e.bph| == e.v && Challenged(c, proof.core)
    ensures result.Done? <==> proof.comms != []
    ensures result.Done? ==>
      var n := e.v / |proof.comms|;
      |proof.comms| * n <= e.v && (result.value <==> MRPAccepts(c, e, n, proof))
  {
    var m := |proof.comms|;
    if m == 0 {
      return Panic;
    }
    var bitsPerValue := e.v / m;
    QuotientFits(e.v, m);
    var ok := MRPCheck(c, e, proof, bitsPerValue);
    return Done(ok);
  }

  method MRPCheck<P(!new)>(c: Curve<P>, e: Params<P>, proof: MultiRangeProof<P>, n: nat) returns (ok: bool)
    requires Laws(c) && |e.bpg| == |e.bph| == e.v && Challenged(c, proof.core)
    requires |proof.comms| * n <= e.v
    ensures ok <==> MRPAccepts(c, e, n, proof)
  {
    var core := proof.core;
    if c.hash1(core.a) != core.cy || c.hash1(core.s) != core.cz || c.hash2(core.t1, core.t2) != core.cx {
      return false;
    }
    var y := PowerVector(c, e.v, core.cy);
    ok := MRPCheckCommitment(c, e, n, proof, y);
    if ok {
      ok := MRPCheckArgument(c, e, core, y, |proof.comms|, n);
    }
  }

  // ---------- completeness ----------

  lemma BlindingsMatch<P(!new)>(c: Curve<P>, gammas: seq<int>, z: int)
    requires Laws(c)
    ensures Eq(c, c.red(Dot(gammas, GWeights(c, |gammas|, z))), Dot(gammas, ZWeights(c, |gammas|, z)))
  {
    var gw, zw := GWeights(c, |gammas|, z), ZWeights(c, |gammas|, z);
    forall j | 0 <= j < |gammas| ensures Eq(c, gw[j], zw[j]) {
      ZWeightOk(c, z, j);
    }
    DotCong(c, gammas, gammas, gw, zw);
    EqRed(c, Dot(gammas, gw));
  }

  lemma MRPConstants<P(!new)>(c: Curve<P>, n: nat, values: seq<int>, aL: seq<int>, y: seq<int>, w: seq<int>, z: int,
                              cv: int)
    requires Laws(c) && n > 0 && InRange(values, n) && aL == AllLow(values, n) && w == MRPWeights(c, n, |values|, z)
    requires |y| == |aL| == |w|
    requires cv == Dot(values, ZWeights(c, |values|, z))
    ensures Constants(c, aL, y, w, z, c.red(c.red(cv) + DeltaOf(c, y, z, |values|, n)), cv,
                      DeltaOf(c, y, z, |values|, n))
  {
    ConstantsMatch(c, aL, y, w, z, c.red(cv), cv, |values|, n) by {
      AllDot(c, n, values, z);
      var t, zs := AllTotal(c, n, |values|, z, Two(n) - 1);
      EqRed(c, cv);
    }
  }

  /** The scalars of the verifier and the sums the commitments stand for. */
  ghost function ValueSum<P>(c: Curve<P>, values: seq<int>, z: int): int {
    Dot(values, ZWeights(c, |values|, z))
  }

  ghost function ValsOf<P>(c: Curve<P>, n: nat, m: nat, y: seq<int>, z: int): (r: seq<int>)
    requires |y| == m * n
    ensures |r| == |y|
  {
    MRPWeightsLength(c, n, m, z);
    MRPVals(y, MRPWeights(c, n, m, z), z)
  }

  lemma ReadyConstants<P(!new)>(c: Curve<P>, n: nat, values: seq<int>, i: Inputs, y: seq<int>, z: int, delta: int)
    requires Laws(c) && n > 0 && InRange(values, n) && |y| == |values| * n && delta == DeltaOf(c, y, z, |values|, n)
    requires i.aL == AllLow(values, n) && i.w == MRPWeights(c, n, |values|, z)
    requires i.t0 == c.red(c.red(ValueSum(c, values, z)) + delta)
    ensures |i.aL| == |i.w| == |y| && Constants(c, i.aL, y, i.w, z, i.t0, ValueSum(c, values, z), delta)
  {
    assert |i.aL| == |i.w| == |y| by {
      AllLowLength(values, n);
      MRPWeightsLength(c, n, |values|, z);
    }
    MRPConstants(c, n, values, i.aL, y, i.w, z, ValueSum(c, values, z));
  }

  lemma ReadyVals<P(!new)>(c: Curve<P>, n: nat, m: nat, y: seq<int>, z: int)
    requires |y| == m * n
    ensures ValsFor(c, ValsOf(c, n, m, y, z), y, MRPWeights(c, n, m, z), z)
  {
    MRPWeightsLength(c, n, m, z);
  }

  /** The inputs MRPProve feeds into the common part lead to an accepted proof. */
  lemma MRPReady<P(!new)>(c: Curve<P>, n: nat, values: seq<int>, gammas: seq<int>, i: Inputs, y: seq<int>, z: int,
                          delta: int)
    requires Laws(c) && n > 0 && |gammas| == |values| && InRange(values, n) && |y| == |values| * n
    requires delta == DeltaOf(c, y, z, |values|, n)
    requires i.aL == AllLow(values, n) && i.aR == VectorAddScalar(c, i.aL, -1) && i.w == MRPWeights(c, n, |values|, z)
    requires i.t0 == c.red(c.red(ValueSum(c, values, z)) + delta)
    requires i.gz == c.red(Dot(gammas, GWeights(c, |values|, z)))
    ensures Ready(c, i, y, z, ValueSum(c, values, z), ValueSum(c, gammas, z), delta, ValsOf(c, n, |values|, y, z))
  {
    ReadyConstants(c, n, values, i, y, z, delta);
    ReadyVals(c, n, |values|, y, z);
    assert Eq(c, i.gz, ValueSum(c, gammas, z)) by { BlindingsMatch(c, gammas, z); }
    assert EqVec(c, i.aR, Shift(i.aL, -1)) by { ComplementBits(c, i.aL); }
  }

  lemma MRPFedOk<P(!new)>(c: Curve<P>, e: Params<P>, n: nat, values: seq<int>, gammas: seq<int>, r: Randomness,
                          i: Inputs, y: seq<int>, z: int)
    requires MRPSized(e, n, values, gammas, r) && Naturals(values) && i == MRPInputs(c, e, n, values, gammas, r)
    requires y == YOf(c, e, i) && z == ZOf(c, e, i)
    ensures i.aL == AllLow(values, n) && i.aR == VectorAddScalar(c, i.aL, -1) && i.w == MRPWeights(c, n, |values|, z)
    ensures i.t0 == c.red(c.red(ValueSum(c, values, z)) + DeltaOf(c, y, z, |values|, n))
    ensures i.gz == c.red(Dot(gammas, GWeights(c, |values|, z)))
  {
    FirstChallenges(c, e, n, values, gammas, r, i);
  }

  /** The challenges the inputs were made with are those of the proof. */
  lemma FirstChallenges<P(!new)>(c: Curve<P>, e: Params<P>, n: nat, values: seq<int>, gammas: seq<int>, r: Randomness,
                                 i: Inputs)
    requires MRPSized(e, n, values, gammas, r) && Naturals(values) && i == MRPInputs(c, e, n, values, gammas, r)
    ensures i == MRPFeed(c, n, values, gammas, r, AllLow(values, n), VectorAddScalar(c, AllLow(values, n), -1),
                         YOf(c, e, i), ZOf(c, e, i))
  {
    AllLowLength(values, n);
    var aL := AllLow(values, n);
    var aR := VectorAddScalar(c, aL, -1);
    assert i.aL == aL && i.aR == aR && i.r == r;
    assert AOf(c, e, i) == Blinded(c, e, aL, aR, r.alpha) && SOf(c, e, i) == Blinded(c, e, r.sL, r.sR, r.rho);
  }

  lemma MRPPremises<P(!new)>(c: Curve<P>, e: Params<P>, n: nat, values: seq<int>, gammas: seq<int>, r: Randomness,
                             i: Inputs, y: seq<int>, z: int)
    requires Laws(c) && n > 0 && MRPSized(e, n, values, gammas, r) && InRange(values, n)
    requires i == MRPInputs(c, e, n, values, gammas, r)
    requires y == YOf(c, e, i) && z == ZOf(c, e, i)
    ensures Ready(c, i, y, z, ValueSum(c, values, z), ValueSum(c, gammas, z), DeltaOf(c, y, z, |values|, n),
                  ValsOf(c, n, |values|, y, z))
  {
    MRPReady(c, n, values, gammas, i, y, z, DeltaOf(c, y, z, |values|, n)) by {
      MRPFedOk(c, e, n, values, gammas, r, i, y, z);
    }
  }

  lemma ValsAll<P(!new)>(c: Curve<P>, n: nat, m: nat, y: seq<int>, z: int)
    requires |y| == m * n
    ensures VerifierVals(c, n, m, y, z) == ValsOf(c, n, m, y, z)
  {
    assert y[..m * n] == y;
  }

  /** The common part of the verifier on an honest proof. */
  lemma MRPCoreComplete<P(!new)>(c: Curve<P>, k: nat, e: Params<P>, n: nat, values: seq<int>, gammas: seq<int>,
                                 r: Randomness,
                                 i: Inputs, proof: MultiRangeProof<P>, y: seq<int>, z: int)
    requires Laws(c) && MRPSized(e, n, values, gammas, r) && e.v == Two(k) && n > 0 && InRange(values, n)
    requires i == MRPInputs(c, e, n, values, gammas, r) && proof == MRPProof(c, k, e, n, values, gammas, r)
    requires y == YOf(c, e, i) && z == ZOf(c, e, i) && Challenged(c, proof.core)
    ensures Leveled(proof.core.ipp) && |proof.comms| == |values|
    ensures CoreAccepts(c, e, proof.core, Sum(c, proof.comms, ZWeights(c, |values|, z)), DeltaOf(c, y, z, |values|, n),
      ValsOf(c, n, |values|, y, z))
  {
    CoreComplete(c, k, e, i, ValueSum(c, values, z), ValueSum(c, gammas, z), DeltaOf(c, y, z, |values|, n),
                 ValsOf(c, n, |values|, y, z), proof.core) by {
      MRPPremises(c, e, n, values, gammas, r, i, y, z);
    }
    SumOfPairs(c, e.g, e.h, proof.comms, values, gammas, ZWeights(c, |values|, z));
  }

  /** Completeness: for every m dividing V and all values in [0, 2^(V/m)), the aggregated proof is accepted. */
  lemma MRPComplete<P(!new)>(c: Curve<P>, k: nat, e: Params<P>, n: nat, values: seq<int>, gammas: seq<int>,
                             r: Randomness)
    requires Laws(c) && MRPSized(e, n, values, gammas, r) && e.v == Two(k) && InRange(values, n)
    requires Challenged(c, MRPProof(c, k, e, n, values, gammas, r).core)
    ensures var proof := MRPProof(c, k, e, n, values, gammas, r);
      Leveled(proof.core.ipp) && |proof.comms| * n == e.v && MRPAccepts(c, e, n, proof)
  {
    assert n != 0;
    var i, proof := MRPInputs(c, e, n, values, gammas, r), MRPProof(c, k, e, n, values, gammas, r);
    var y, z := YOf(c, e, i), ZOf(c, e, i);
    MRPCoreComplete(c, k, e, n, values, gammas, r, i, proof, y, z);
    ValsAll(c, n, |values|, y, z);
  }
}
