/** Values of 2^n, which the guard of MRPProve lets through: what the verifier says of the proof. */
module EdgeValues {
  import opened PowersOfTwo
  import opened Scalars
  import opened CurveGroup
  import opened Vectors
  import opened InnerProductArgument
  import opened RangeCommitments
  import opened RangeProofCore
  import opened MultiRangeProofs
  import opened MultiRangeArgument
  import SmallCurve

  // ---------- the bits of a value are those of its remainder ----------

  lemma HalfRemainder(v: nat, t: nat)
    requires t > 0
    ensures (v % (2 * t)) % 2 == v % 2 && (v % (2 * t)) / 2 == (v / 2) % t
  {
    var q, r := v / (2 * t), v % (2 * t);
    assert v == 2 * (q * t) + r by { assert q * (2 * t) == 2 * (q * t); }
    QuotientUnique(t, v / 2, q, r / 2);
  }

  lemma {:induction false} LowOfRemainder(v: nat, n: nat)
    ensures Low(v % Two(n), n) == Low(v, n)
  {
    if n > 0 {
      HalfRemainder(v, Two(n - 1));
      LowOfRemainder(v / 2, n - 1);
    }
  }

  /** The values without what their n lowest bits do not show: a 2^n becomes 0, smaller values stay. */
  function Lowered(values: seq<int>, n: nat): (r: seq<int>)
    ensures |r| == |values| && forall j {:trigger r[j]} :: 0 <= j < |values| ==> r[j] == values[j] % Two(n)
  {
    seq(|values|, j requires 0 <= j < |values| => values[j] % Two(n))
  }

  /** What is lost: 2^n at the places of a 2^n, nothing elsewhere. */
  function Excess(values: seq<int>, n: nat): (r: seq<int>)
    ensures |r| == |values| && forall j {:trigger r[j]} :: 0 <= j < |values| ==> r[j] == values[j] - values[j] % Two(n)
  {
    seq(|values|, j requires 0 <= j < |values| => values[j] - values[j] % Two(n))
  }

  lemma LoweredInRange(values: seq<int>, n: nat)
    ensures InRange(Lowered(values, n), n) && Naturals(Lowered(values, n))
  {
  }

  lemma ProvedExcess(values: seq<int>, n: nat, j: nat)
    requires Proved(values, n) && j < |values|
    ensures Excess(values, n)[j] == if values[j] == Two(n) then Two(n) else 0
    ensures Lowered(values, n)[j] == if values[j] == Two(n) then 0 else values[j]
  {
    RemainderAtMost(values[j], Two(n));
  }

  lemma RemainderAtMost(v: nat, t: nat)
    requires v <= t && t > 0
    ensures v % t == if v == t then 0 else v
  {
    if v == t { QuotientUnique(t, v, 1, 0); } else { QuotientUnique(t, v, 0, v); }
  }

  lemma {:induction false} AllLowOfLowered(values: seq<int>, n: nat)
    requires Naturals(values)
    ensures Naturals(Lowered(values, n)) && AllLow(Lowered(values, n), n) == AllLow(values, n)
  {
    LoweredInRange(values, n);
    if values != [] {
      var m := |values| - 1;
      AllLowOfLowered(values[..m], n);
      assert Lowered(values, n)[..m] == Lowered(values[..m], n);
      LowOfRemainder(values[m], n);
    }
  }

  lemma SplitSum<P(!new)>(c: Curve<P>, values: seq<int>, n: nat, z: int)
    ensures ValueSum(c, values, z) == ValueSum(c, Lowered(values, n), z) + ValueSum(c, Excess(values, n), z)
  {
    DotAddLeft(ZWeights(c, |values|, z), Lowered(values, n), Excess(values, n));
    assert VAdd(Lowered(values, n), Excess(values, n)) == values;
  }

  // ---------- the proof does not see the excess ----------

  /** Inputs that differ in the constant term only. */
  predicate Alike<P>(e: Params<P>, i: Inputs, i': Inputs) {
    Sized(e, i) && Sized(e, i') && i' == i.(t0 := i'.t0)
  }

  lemma SameChallenges<P(!new)>(c: Curve<P>, e: Params<P>, i: Inputs, i': Inputs)
    requires Alike(e, i, i')
    ensures AOf(c, e, i') == AOf(c, e, i) && SOf(c, e, i') == SOf(c, e, i)
    ensures YOf(c, e, i') == YOf(c, e, i) && ZOf(c, e, i') == ZOf(c, e, i)
  {
  }

  lemma SameCoefficients<P(!new)>(c: Curve<P>, e: Params<P>, i: Inputs, i': Inputs)
    requires Alike(e, i, i')
    ensures T1Of(c, e, i') == T1Of(c, e, i) && T2Of(c, e, i') == T2Of(c, e, i) && XOf(c, e, i') == XOf(c, e, i)
  {
    SameChallenges(c, e, i, i');
  }

  lemma SameVectors<P(!new)>(c: Curve<P>, e: Params<P>, i: Inputs, i': Inputs)
    requires Alike(e, i, i')
    ensures LeftOf(c, e, i') == LeftOf(c, e, i) && RightOf(c, e, i') == RightOf(c, e, i)
  {
    SameChallenges(c, e, i, i');
    SameCoefficients(c, e, i, i');
  }

  lemma SameArgument<P(!new)>(c: Curve<P>, k: nat, e: Params<P>, i: Inputs, i': Inputs)
    requires Alike(e, i, i') && e.v == Two(k) && i.direct
    ensures ThOf(c, e, i') == ThOf(c, e, i) && IPPOf(c, k, e, i') == IPPOf(c, k, e, i)
  {
    SameChallenges(c, e, i, i');
    SameVectors(c, e, i, i');
  }

  /** Where the value of t is taken from the two vectors, a proof does not depend on the constant term. */
  lemma TermUnused<P(!new)>(c: Curve<P>, k: nat, e: Params<P>, i: Inputs, i': Inputs)
    requires Alike(e, i, i') && e.v == Two(k) && i.direct
    ensures ProofOf(c, k, e, i') == ProofOf(c, k, e, i)
  {
    SameChallenges(c, e, i, i');
    SameCoefficients(c, e, i, i');
    SameArgument(c, k, e, i, i');
  }

  lemma InputsOfLowered<P(!new)>(c: Curve<P>, e: Params<P>, n: nat, values: seq<int>, gammas: seq<int>, r: Randomness)
    requires MRPSized(e, n, values, gammas, r) && Naturals(values)
    ensures Naturals(Lowered(values, n)) && MRPSized(e, n, Lowered(values, n), gammas, r)
    ensures var i, i' := MRPInputs(c, e, n, values, gammas, r), MRPInputs(c, e, n, Lowered(values, n), gammas, r);
      i.direct && Alike(e, i, i')
  {
    AllLowOfLowered(values, n);
  }

  /** The proof for any values is, up to the commitments, the proof for their n lowest bits. */
  lemma SameCore<P(!new)>(c: Curve<P>, k: nat, e: Params<P>, n: nat, values: seq<int>, gammas: seq<int>, r: Randomness)
    requires MRPSized(e, n, values, gammas, r) && e.v == Two(k) && Naturals(values)
    ensures Naturals(Lowered(values, n)) && MRPSized(e, n, Lowered(values, n), gammas, r)
    ensures MRPProof(c, k, e, n, values, gammas, r).core == MRPProof(c, k, e, n, Lowered(values, n), gammas, r).core
  {
    InputsOfLowered(c, e, n, values, gammas, r);
    TermUnused(c, k, e, MRPInputs(c, e, n, values, gammas, r), MRPInputs(c, e, n, Lowered(values, n), gammas, r));
  }

  // ---------- the verdict ----------

  /** The point the commitment equation compares. */
  function Claimed<P>(c: Curve<P>, e: Params<P>, core: Core<P>): P {
    Pair(c, e.g, e.h, core.th, core.tau)
  }

  lemma ShiftPair<P(!new)>(c: Curve<P>, g: P, h: P, t: P, l: P, a: int, b: int, d: int)
    requires Laws(c) && l == c.add(t, Pair(c, g, h, a, b))
    ensures c.add(t, Pair(c, g, h, a + d, b)) == c.add(l, c.mult(g, d))
  {
    PairOfG(c, g, h, d);
    PairAdd(c, g, h, a, b, d, 0);
    AddAssoc(c, t, Pair(c, g, h, a, b), c.mult(g, d));
  }

  /** What the commitment part adds up to, against the point the prover sends. */
  lemma CommitmentShifted<P(!new)>(c: Curve<P>, e: Params<P>, core: Core<P>, comm: P, delta: int, cv: int, cg: int,
                                   d: int)
    requires Laws(c) && comm == Pair(c, e.g, e.h, cv + d, cg)
    requires Claimed(c, e, core) ==
      c.add(TPart(c, e.g, e.h, delta, core.t1, core.t2, core.cx), Pair(c, e.g, e.h, cv, cg))
    ensures CommitmentHolds(c, e, core, comm, delta) <==>
      c.Equal(Claimed(c, e, core), c.add(Claimed(c, e, core), c.mult(e.g, d)))
  {
    ShiftPair(c, e.g, e.h, TPart(c, e.g, e.h, delta, core.t1, core.t2, core.cx), Claimed(c, e, core), cv, cg, d);
  }

  /** The parts of the verdict on the proof for the n lowest bits. */
  lemma LoweredAccepted<P(!new)>(c: Curve<P>, k: nat, e: Params<P>, n: nat, low: seq<int>, gammas: seq<int>,
                                 r: Randomness, core: Core<P>, y: seq<int>, z: int)
    requires Laws(c) && MRPSized(e, n, low, gammas, r) && e.v == Two(k) && n > 0 && InRange(low, n)
    requires core == MRPProof(c, k, e, n, low, gammas, r).core && Challenged(c, core)
    requires y == PowerVector(c, e.v, core.cy) && z == core.cz
    ensures HashesMatch(c, core) && |y| == |low| * n && ArgumentHolds(c, e, core, ValsOf(c, n, |low|, y, z))
    ensures Claimed(c, e, core) ==
      c.add(TPart(c, e.g, e.h, DeltaOf(c, y, z, |low|, n), core.t1, core.t2, core.cx),
            Pair(c, e.g, e.h, ValueSum(c, low, z), ValueSum(c, gammas, z)))
  {
    var i := MRPInputs(c, e, n, low, gammas, r);
    PartsOf(c, k, e, i, core);
    var delta := DeltaOf(c, y, z, |low|, n);
    MRPPremises(c, e, n, low, gammas, r, i, y, z);
    var cv, cg, vals := ValueSum(c, low, z), ValueSum(c, gammas, z), ValsOf(c, n, |low|, y, z);
    CoreComplete(c, k, e, i, cv, cg, delta, vals, core);
    CommitmentExact(c, k, e, i, cv, cg, delta, vals, core);
  }

  lemma CommitmentsSum<P(!new)>(c: Curve<P>, e: Params<P>, values: seq<int>, gammas: seq<int>, n: nat, z: int)
    requires Laws(c) && |values| == |gammas|
    ensures Sum(c, Commitments(c, e, values, gammas), ZWeights(c, |values|, z)) ==
      Pair(c, e.g, e.h, ValueSum(c, Lowered(values, n), z) + ValueSum(c, Excess(values, n), z),
           ValueSum(c, gammas, z))
  {
    SumOfPairs(c, e.g, e.h, Commitments(c, e, values, gammas), values, gammas, ZWeights(c, |values|, z));
    SplitSum(c, values, n, z);
  }

  /** Everything but the commitment equation holds. */
  lemma RestHolds<P(!new)>(c: Curve<P>, k: nat, e: Params<P>, n: nat, values: seq<int>, gammas: seq<int>,
                           r: Randomness, core: Core<P>, y: seq<int>, z: int)
    requires Laws(c) && MRPSized(e, n, values, gammas, r) && e.v == Two(k) && Naturals(values) && n > 0
    requires core == MRPProof(c, k, e, n, values, gammas, r).core && Challenged(c, core)
    requires y == PowerVector(c, e.v, core.cy) && z == core.cz
    ensures HashesMatch(c, core) && ArgumentHolds(c, e, core, VerifierVals(c, n, |values|, y, z))
    ensures Claimed(c, e, core) ==
      c.add(TPart(c, e.g, e.h, DeltaOf(c, y, z, |values|, n), core.t1, core.t2, core.cx),
            Pair(c, e.g, e.h, ValueSum(c, Lowered(values, n), z), ValueSum(c, gammas, z)))
  {
    SameCore(c, k, e, n, values, gammas, r);
    LoweredInRange(values, n);
    LoweredAccepted(c, k, e, n, Lowered(values, n), gammas, r, core, y, z);
    ValsAll(c, n, |values|, y, z);
  }

  lemma EquationShifted<P(!new)>(c: Curve<P>, e: Params<P>, n: nat, values: seq<int>, gammas: seq<int>, core: Core<P>,
                                 z: int, delta: int)
    requires Laws(c) && |values| == |gammas|
    requires Claimed(c, e, core) ==
      c.add(TPart(c, e.g, e.h, delta, core.t1, core.t2, core.cx),
            Pair(c, e.g, e.h, ValueSum(c, Lowered(values, n), z), ValueSum(c, gammas, z)))
    ensures CommitmentHolds(c, e, core, Sum(c, Commitments(c, e, values, gammas), ZWeights(c, |values|, z)), delta) <==>
      c.Equal(Claimed(c, e, core), c.add(Claimed(c, e, core), c.mult(e.g, ValueSum(c, Excess(values, n), z))))
  {
    CommitmentsSum(c, e, values, gammas, n, z);
    CommitmentShifted(c, e, core, Sum(c, Commitments(c, e, values, gammas), ZWeights(c, |values|, z)), delta,
                      ValueSum(c, Lowered(values, n), z), ValueSum(c, gammas, z), ValueSum(c, Excess(values, n), z));
  }

  /** The point the prover sends stays where it is, as far as Equal can tell, when the excess is added. */
  ghost predicate Unmoved<P>(c: Curve<P>, e: Params<P>, core: Core<P>, excess: int) {
    c.Equal(Claimed(c, e, core), c.add(Claimed(c, e, core), c.mult(e.g, excess)))
  }

  /** For all values, in range or not: the verifier accepts the proof that MRPProve makes exactly if the excess,
      weighted as the commitments are, does not move the point that the prover sends. */
  lemma MRPVerdict<P(!new)>(c: Curve<P>, k: nat, e: Params<P>, n: nat, values: seq<int>, gammas: seq<int>,
                            r: Randomness, proof: MultiRangeProof<P>)
    requires Laws(c) && MRPSized(e, n, values, gammas, r) && e.v == Two(k) && Naturals(values)
    requires proof == MRPProof(c, k, e, n, values, gammas, r) && Challenged(c, proof.core)
    ensures |proof.comms| * n == e.v
    ensures MRPAccepts(c, e, n, proof) <==> Unmoved(c, e, proof.core, ValueSum(c, Excess(values, n), proof.core.cz))
  {
    assert n != 0;
    var core, m := proof.core, |values|;
    var y, z := PowerVector(c, e.v, core.cy), core.cz;
    RestHolds(c, k, e, n, values, gammas, r, core, y, z);
    EquationShifted(c, e, n, values, gammas, core, z, DeltaOf(c, y, z, m, n));
  }

  // ---------- groups in which points can be told apart ----------

  /** Equal is equality, and the order of g is that of the group. */
  ghost predicate Exact<P(!new)>(c: Curve<P>, g: P) {
    && (forall p, q :: c.Equal(p, q) ==> p == q)
    && (forall s: int :: c.mult(g, s) == c.zero ==> c.red(s) == 0)
  }

  lemma Cancelled<P(!new)>(c: Curve<P>, l: P, d: P)
    requires Laws(c) && c.add(l, d) == l
    ensures d == c.zero
  {
    AddComm(c, l, d);
    AddAssoc(c, d, l, c.neg(l));
    AddZero(c, l);
    AddZero(c, d);
  }

  lemma UnmovedExactly<P(!new)>(c: Curve<P>, e: Params<P>, core: Core<P>, excess: int)
    requires Laws(c) && Exact(c, e.g)
    ensures Unmoved(c, e, core, excess) <==> c.red(excess) == 0
  {
    var l, d := Claimed(c, e, core), c.mult(e.g, excess);
    if c.red(excess) == 0 {
      Reduced(c, 0);
      MultCong(c, e.g, excess, 0);
      MultZero(c, e.g);
      AddZero(c, l);
    } else if c.Equal(l, c.add(l, d)) {
      Cancelled(c, l, d);
      assert false;
    }
  }

  /** In such a group the verifier accepts exactly if the weighted excess is a multiple of the order. */
  lemma MRPVerdictExact<P(!new)>(c: Curve<P>, k: nat, e: Params<P>, n: nat, values: seq<int>, gammas: seq<int>,
                                 r: Randomness, proof: MultiRangeProof<P>)
    requires Laws(c) && Exact(c, e.g) && MRPSized(e, n, values, gammas, r) && e.v == Two(k) && Naturals(values)
    requires proof == MRPProof(c, k, e, n, values, gammas, r) && Challenged(c, proof.core)
    ensures |proof.comms| * n == e.v
    ensures MRPAccepts(c, e, n, proof) <==> c.red(ValueSum(c, Excess(values, n), proof.core.cz)) == 0
  {
    MRPVerdict(c, k, e, n, values, gammas, r, proof);
    UnmovedExactly(c, e, proof.core, ValueSum(c, Excess(values, n), proof.core.cz));
  }

  // ---------- one value of 2^n ----------

  /** Exactly the value in place j is 2^n. */
  ghost predicate OneEdge(values: seq<int>, n: nat, j: nat) {
    j < |values| && forall i :: 0 <= i < |values| ==> (values[i] == Two(n) <==> i == j)
  }

  lemma {:induction false} DotOnly(a: seq<int>, w: seq<int>, j: nat)
    requires |a| == |w| && forall i :: 0 <= i < |a| && i != j ==> a[i] == 0
    ensures Dot(a, w) == if j < |a| then a[j] * w[j] else 0
  {
    if |a| > 0 {
      var m := |a| - 1;
      DotOnly(a[..m], w[..m], j);
      if m != j { assert a[m] * w[m] == 0; }
    }
  }

  /** A product of scalars that are no multiples of the order is none either. */
  lemma NoZeroDivisor<P(!new)>(c: Curve<P>, x: int, y: int)
    requires Laws(c) && c.red(x) != 0 && c.red(y) != 0
    ensures c.red(x * y) != 0
  {
    Inverse(c, x);
    Inverse(c, y);
    EqInverseProduct(c, x, c.inv(x), y, c.inv(y));
    HasInverse(c, x * y, c.inv(x) * c.inv(y));
  }

  lemma {:induction false} PowNonZero<P(!new)>(c: Curve<P>, z: int, j: nat)
    requires Laws(c) && c.red(z) != 0
    ensures c.red(Pow(z, j)) != 0
  {
    if j == 0 {
      Reduced(c, 1);
    } else {
      PowNonZero(c, z, j - 1);
      NoZeroDivisor(c, z, Pow(z, j - 1));
    }
  }

  lemma EdgeSum<P(!new)>(c: Curve<P>, values: seq<int>, n: nat, j: nat, z: int)
    requires Laws(c) && Proved(values, n) && OneEdge(values, n, j)
    ensures Eq(c, ValueSum(c, Excess(values, n), z), Two(n) * Pow(z, 2 + j))
  {
    var d, w := Excess(values, n), ZWeights(c, |values|, z);
    forall i | 0 <= i < |d| ensures d[i] == if i == j then Two(n) else 0 { ProvedExcess(values, n, i); }
    DotOnly(d, w, j);
    ZWeightOk(c, z, j);
    EqMul(c, Two(n), Two(n), w[j], Pow(z, 2 + j));
  }

  lemma Factor(m: nat, n: nat, v: nat)
    requires m > 0 && m * n == v
    ensures n <= v
  {
    assert m * n == n + (m - 1) * n;
  }

  lemma PowerInOrder<P(!new)>(c: Curve<P>, n: nat, v: nat)
    requires Laws(c) && n <= v && Two(v) < c.n
    ensures c.red(Two(n)) != 0
  {
    TwoMonotone(n, v);
    QuotientUnique(c.n, Two(n), 0, Two(n));
    Reduced(c, Two(n));
  }

  lemma EdgeNonZero<P(!new)>(c: Curve<P>, values: seq<int>, n: nat, j: nat, z: int, v: nat)
    requires Laws(c) && Proved(values, n) && OneEdge(values, n, j) && n <= v && Two(v) < c.n && c.red(z) != 0
    ensures c.red(ValueSum(c, Excess(values, n), z)) != 0
  {
    EdgeSum(c, values, n, j, z);
    PowerInOrder(c, n, v);
    PowNonZero(c, z, 2 + j);
    NoZeroDivisor(c, Two(n), Pow(z, 2 + j));
  }

  /** A list with exactly one 2^n in it, where MRPProve makes a proof: the verifier refuses the proof, whatever the
      random scalars. */
  lemma OneEdgeRefused<P(!new)>(c: Curve<P>, k: nat, e: Params<P>, n: nat, values: seq<int>, gammas: seq<int>,
                                r: Randomness, proof: MultiRangeProof<P>, j: nat)
    requires Laws(c) && Exact(c, e.g) && ValidParams(c, k, e) && MRPSized(e, n, values, gammas, r)
    requires Naturals(values) && Proved(values, n) && OneEdge(values, n, j)
    requires proof == MRPProof(c, k, e, n, values, gammas, r) && Challenged(c, proof.core)
    requires c.red(proof.core.cz) != 0
    ensures |proof.comms| * n == e.v && !MRPAccepts(c, e, n, proof)
  {
    Factor(|values|, n, e.v);
    EdgeNonZero(c, values, n, j, proof.core.cz, e.v);
    MRPVerdictExact(c, k, e, n, values, gammas, r, proof);
  }

  // ---------- at an input ----------

  lemma ResiduesExact()
    ensures Exact(SmallCurve.Residues(), 1)
  {
    var c := SmallCurve.Residues();
    forall s: int | c.mult(1, s) == c.zero ensures c.red(s) == 0 { assert SmallCurve.Times(1, s) == s % 5; }
  }

  /** Over the residues every proof has invertible challenges. */
  lemma ResiduesChallenged(k: nat, e: Params<SmallCurve.Residue>, i: Inputs, core: Core<SmallCurve.Residue>)
    requires Sized(e, i) && e.v == Two(k) && core == ProofOf(SmallCurve.Residues(), k, e, i)
    ensures Challenged(SmallCurve.Residues(), core) && SmallCurve.Residues().red(core.cz) != 0
  {
    var c := SmallCurve.Residues();
    SmallCurve.LawsHaveAnInstance();
    PartsOf(c, k, e, i, core);
    assert Leveled(core.ipp);
  }

  lemma SmallValid(e: Params<SmallCurve.Residue>)
    requires |e.bpg| == |e.bph| == e.v == 2
    ensures ValidParams(SmallCurve.Residues(), 1, e) && Proved([2, 0], 1) && OneEdge([2, 0], 1, 0)
  {
    assert Two(0) == 1 && Two(1) == 2 && Two(2) == 4;
  }

  /** The values 2 and 0: MRPProve makes a proof, the verifier refuses it, for all generators but g, all blindings and
      all random scalars. */
  lemma EdgeInput(e: Params<SmallCurve.Residue>, gammas: seq<int>, r: Randomness)
    requires |e.bpg| == |e.bph| == e.v == |gammas| == |r.sL| == |r.sR| == 2 && e.g == 1
    ensures Laws(SmallCurve.Residues()) && ValidParams(SmallCurve.Residues(), 1, e)
    ensures Proved([2, 0], 1) && MRPSized(e, 1, [2, 0], gammas, r)
    ensures var proof := MRPProof(SmallCurve.Residues(), 1, e, 1, [2, 0], gammas, r);
      Challenged(SmallCurve.Residues(), proof.core) && !MRPAccepts(SmallCurve.Residues(), e, 1, proof)
  {
    var c, values := SmallCurve.Residues(), [2, 0];
    SmallCurve.LawsHaveAnInstance();
    ResiduesExact();
    SmallValid(e);
    var proof := MRPProof(c, 1, e, 1, values, gammas, r);
    ResiduesChallenged(1, e, MRPInputs(c, e, 1, values, gammas, r), proof.core);
    OneEdgeRefused(c, 1, e, 1, values, gammas, r, proof, 0);
  }
}
