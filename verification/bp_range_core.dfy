/** What single and aggregated range proofs share: the proof built from the bits and their weights, and its check. */
module RangeProofCore {
  import opened PowersOfTwo
  import opened Scalars
  import opened CurveGroup
  import opened Vectors
  import opened Folding
  import opened InnerProductArgument
  import opened FastVerifier
  import opened RangePolynomial
  import opened RangeCommitments

  /** The generators and the number of bits they serve. */
  datatype Params<P> = Params(bpg: seq<P>, bph: seq<P>, u: P, g: P, h: P, v: nat)

  /** There are as many generators of each kind as bits, a power of two, and the largest value fits the group order. */
  ghost predicate ValidParams<P>(c: Curve<P>, k: nat, e: Params<P>) {
    |e.bpg| == |e.bph| == e.v == Two(k) && Two(e.v) < c.n
  }

  /** The random scalars the prover draws. */
  datatype Randomness = Randomness(alpha: int, rho: int, tau1: int, tau2: int, sL: seq<int>, sR: seq<int>)

  datatype Core<P> = Core(a: P, s: P, t1: P, t2: P, tau: int, th: int, mu: int, ipp: InnerProdArg<P>, cy: int, cz: int,
                          cx: int)

  function Blinded<P>(c: Curve<P>, e: Params<P>, l: seq<int>, r: seq<int>, blind: int): P
    requires |e.bpg| == |e.bph| == |l| == |r|
  {
    c.add(Commit2(c, e.bpg, e.bph, l, r), c.mult(e.h, blind))
  }

  /** The inputs of the common part of the provers: bits aL and aR = aL - 1, their weights w, the constant term t0 of
      t and the blinding gz of the commitments. The value of t at x is taken from its coefficients or, if `direct`,
      from the two vectors. */
  datatype Inputs = Inputs(r: Randomness, aL: seq<int>, aR: seq<int>, w: seq<int>, t0: int, gz: int, direct: bool)

  predicate Sized<P>(e: Params<P>, i: Inputs) {
    |e.bpg| == |e.bph| == e.v == |i.aL| == |i.aR| == |i.w| == |i.r.sL| == |i.r.sR|
  }

  function AOf<P>(c: Curve<P>, e: Params<P>, i: Inputs): P
    requires Sized(e, i)
  {
    Blinded(c, e, i.aL, i.aR, i.r.alpha)
  }

  function SOf<P>(c: Curve<P>, e: Params<P>, i: Inputs): P
    requires Sized(e, i)
  {
    Blinded(c, e, i.r.sL, i.r.sR, i.r.rho)
  }

  function YOf<P>(c: Curve<P>, e: Params<P>, i: Inputs): (y: seq<int>)
    requires Sized(e, i)
    ensures |y| == e.v
  {
    PowerVector(c, e.v, c.hash1(AOf(c, e, i)))
  }

  function ZOf<P>(c: Curve<P>, e: Params<P>, i: Inputs): int
    requires Sized(e, i)
  {
    c.hash1(SOf(c, e, i))
  }

  function T1Of<P>(c: Curve<P>, e: Params<P>, i: Inputs): int
    requires Sized(e, i)
  {
    T1(c, i.aL, i.aR, i.r.sL, i.r.sR, YOf(c, e, i), i.w, ZOf(c, e, i))
  }

  function T2Of<P>(c: Curve<P>, e: Params<P>, i: Inputs): int
    requires Sized(e, i)
  {
    T2(c, i.r.sL, i.r.sR, YOf(c, e, i))
  }

  function XOf<P>(c: Curve<P>, e: Params<P>, i: Inputs): int
    requires Sized(e, i)
  {
    c.hash2(Pair(c, e.g, e.h, T1Of(c, e, i), i.r.tau1), Pair(c, e.g, e.h, T2Of(c, e, i), i.r.tau2))
  }

  function LeftOf<P>(c: Curve<P>, e: Params<P>, i: Inputs): (l: seq<int>)
    requires Sized(e, i)
    ensures |l| == e.v
  {
    CalculateL(c, i.aL, i.r.sL, ZOf(c, e, i), XOf(c, e, i))
  }

  function RightOf<P>(c: Curve<P>, e: Params<P>, i: Inputs): (l: seq<int>)
    requires Sized(e, i)
    ensures |l| == e.v
  {
    CalculateR(c, i.aR, i.r.sR, YOf(c, e, i), i.w, ZOf(c, e, i), XOf(c, e, i))
  }

  function ThOf<P>(c: Curve<P>, e: Params<P>, i: Inputs): int
    requires Sized(e, i)
  {
    if i.direct then c.red(Dot(LeftOf(c, e, i), RightOf(c, e, i)))
    else That(c, i.t0, T1Of(c, e, i), T2Of(c, e, i), XOf(c, e, i))
  }

  function IPPOf<P>(c: Curve<P>, k: nat, e: Params<P>, i: Inputs): InnerProdArg<P>
    requires Sized(e, i) && e.v == Two(k)
  {
    var hp := Primed(c, e.bph, YOf(c, e, i));
    Prove(c, k, Commit2(c, e.bpg, hp, LeftOf(c, e, i), RightOf(c, e, i)), e.u, e.bpg, hp, LeftOf(c, e, i),
          RightOf(c, e, i))
  }

  /** A proof from its parts. */
  function Assemble<P>(c: Curve<P>, e: Params<P>, i: Inputs, a: P, s: P, t1: int, t2: int, th: int,
                       ipp: InnerProdArg<P>, z: int, x: int): Core<P>
  {
    Core(a, s, Pair(c, e.g, e.h, t1, i.r.tau1), Pair(c, e.g, e.h, t2, i.r.tau2),
         Taux(c, i.r.tau1, i.r.tau2, x, i.gz), th, c.red(i.r.alpha + i.r.rho * x), ipp, c.hash1(a), z, x)
  }

  /** The proof both provers build from their inputs. */
  function ProofOf<P>(c: Curve<P>, k: nat, e: Params<P>, i: Inputs): Core<P>
    requires Sized(e, i) && e.v == Two(k)
  {
    Assemble(c, e, i, AOf(c, e, i), SOf(c, e, i), T1Of(c, e, i), T2Of(c, e, i), ThOf(c, e, i), IPPOf(c, k, e, i),
             ZOf(c, e, i), XOf(c, e, i))
  }

  /** The challenges of the proof are invertible. */
  ghost predicate Challenged<P>(c: Curve<P>, core: Core<P>) {
    c.red(c.hash1(core.a)) != 0 && Leveled(core.ipp) && Invertible(c, Levels(core.ipp), core.ipp.l, core.ipp.r)
  }

  /** The point the inner product argument is about, rebuilt from the proof. */
  function Rebuilt<P>(c: Curve<P>, e: Params<P>, core: Core<P>, tmp1: P, tmp2: P): P {
    c.add(c.add(c.add(c.add(core.a, c.mult(core.s, core.cx)), tmp1), tmp2), c.neg(c.mult(e.h, core.mu)))
  }

  ghost predicate HashesMatch<P>(c: Curve<P>, core: Core<P>) {
    core.cy == c.hash1(core.a) && core.cz == c.hash1(core.s) && core.cx == c.hash2(core.t1, core.t2)
  }

  /** that*G + taux*H against the commitments. */
  ghost predicate CommitmentHolds<P>(c: Curve<P>, e: Params<P>, core: Core<P>, comm: P, delta: int) {
    c.Equal(Pair(c, e.g, e.h, core.th, core.tau), c.add(TPart(c, e.g, e.h, delta, core.t1, core.t2, core.cx), comm))
  }

  function HPrimeOf<P>(c: Curve<P>, e: Params<P>, core: Core<P>): seq<P>
    requires |e.bph| == e.v
  {
    Primed(c, e.bph, PowerVector(c, e.v, core.cy))
  }

  ghost function PointOf<P>(c: Curve<P>, e: Params<P>, core: Core<P>, vals: seq<int>): P
    requires |e.bpg| == |e.bph| == e.v == |vals|
  {
    Rebuilt(c, e, core, Sum(c, e.bpg, Constant(e.v, c.red(-core.cz))), Sum(c, HPrimeOf(c, e, core), vals))
  }

  /** The inner product argument for the rebuilt point. */
  ghost predicate ArgumentHolds<P>(c: Curve<P>, e: Params<P>, core: Core<P>, vals: seq<int>)
    requires |e.bpg| == |e.bph| == e.v == |vals| && Leveled(core.ipp)
  {
    FastVerdict(c, core.th, PointOf(c, e, core, vals), e.u, e.bpg, HPrimeOf(c, e, core), core.ipp)
  }

  /** The verdict on a proof whose commitment part is `comm`, with delta and the weights `vals` of the second
      generators. */
  ghost predicate CoreAccepts<P>(c: Curve<P>, e: Params<P>, core: Core<P>, comm: P, delta: int, vals: seq<int>)
    requires |e.bpg| == |e.bph| == e.v == |vals| && Leveled(core.ipp)
  {
    HashesMatch(c, core) && CommitmentHolds(c, e, core, comm, delta) && ArgumentHolds(c, e, core, vals)
  }

  lemma PowersInvertible<P(!new)>(c: Curve<P>, l: nat, y: int)
    requires Laws(c) && c.red(y) != 0
    ensures AllInvertible(c, PowerVector(c, l, y))
  {
    forall i | 0 <= i < l ensures c.red(PowerVector(c, l, y)[i]) != 0 {
      Inverse(c, y);
      EqIff(c, y * c.inv(y), 1);
      PowInverse(c.n, y, c.inv(y), i);
      EqIff(c, Pow(y, i) * Pow(c.inv(y), i), 1);
      HasInverse(c, Pow(y, i), Pow(c.inv(y), i));
      EqRed(c, Pow(y, i));
    }
  }

  /** The constant term of t is what the commitments and delta add up to. */
  ghost predicate Constants<P>(c: Curve<P>, aL: seq<int>, y: seq<int>, w: seq<int>, z: int, t0: int, cv: int,
                               delta: int)
    requires |aL| == |y| == |w|
  {
    Eq(c, t0, cv + delta) && Eq(c, t0, Dot(Shift(aL, -z), Right0(aL, y, w, z)))
  }

  ghost predicate ValsFor<P>(c: Curve<P>, vals: seq<int>, y: seq<int>, w: seq<int>, z: int) {
    |vals| == |y| == |w| && forall i :: 0 <= i < |y| ==> Eq(c, vals[i], z * y[i] + w[i])
  }

  /** The rebuilt point of an honest proof is the prover's commitment. */
  lemma RebuiltHonest<P(!new)>(c: Curve<P>, e: Params<P>, i: Inputs, vals: seq<int>, y: seq<int>, z: int, core: Core<P>)
    requires Laws(c) && Sized(e, i) && |vals| == |y| == e.v
    requires core.a == AOf(c, e, i) && core.s == SOf(c, e, i) && core.mu == c.red(i.r.alpha + i.r.rho * core.cx)
    requires EqVec(c, i.aR, Shift(i.aL, -1)) && AllInvertible(c, y) && ValsFor(c, vals, y, i.w, z)
    ensures Rebuilt(c, e, core, Sum(c, e.bpg, Constant(e.v, c.red(-z))), Sum(c, Primed(c, e.bph, y), vals)) ==
      Commit2(c, e.bpg, Primed(c, e.bph, y), CalculateL(c, i.aL, i.r.sL, z, core.cx),
              CalculateR(c, i.aR, i.r.sR, y, i.w, z, core.cx))
  {
    var tmp1, tmp2 := Sum(c, e.bpg, Constant(e.v, c.red(-z))), Sum(c, Primed(c, e.bph, y), vals);
    var l, r := CalculateL(c, i.aL, i.r.sL, z, core.cx), CalculateR(c, i.aR, i.r.sR, y, i.w, z, core.cx);
    assert Rebuilt(c, e, core, tmp1, tmp2) == Commit2(c, e.bpg, Primed(c, e.bph, y), l, r) by {
      EqRed(c, i.r.alpha + i.r.rho * core.cx);
      RebuiltP(c, e.bpg, e.bph, e.h, y, i.aL, i.aR, i.r.sL, i.r.sR, i.w, vals, z, core.cx, i.r.alpha, i.r.rho, core.mu);
    }
  }

  /** Inputs from which an accepted proof comes: the committed values cv with blinding cg, delta, and the verifier's
      scalars. */
  ghost predicate Ready<P>(c: Curve<P>, i: Inputs, y: seq<int>, z: int, cv: int, cg: int, delta: int, vals: seq<int>) {
    && |i.aL| == |i.aR| == |i.w| == |y|
    && EqVec(c, i.aR, Shift(i.aL, -1)) && Eq(c, i.gz, cg)
    && Constants(c, i.aL, y, i.w, z, i.t0, cv, delta) && ValsFor(c, vals, y, i.w, z)
  }

  /** Both provers send the value of t at x, which is the inner product of the two vectors. */
  lemma ValueHonest<P(!new)>(c: Curve<P>, e: Params<P>, i: Inputs, cv: int, cg: int, delta: int, vals: seq<int>)
    requires Laws(c) && Sized(e, i) && Ready(c, i, YOf(c, e, i), ZOf(c, e, i), cv, cg, delta, vals)
    ensures ThOf(c, e, i) == That(c, i.t0, T1Of(c, e, i), T2Of(c, e, i), XOf(c, e, i))
    ensures ThOf(c, e, i) == c.red(Dot(LeftOf(c, e, i), RightOf(c, e, i)))
  {
    ThatIsInnerProduct(c, i.aL, i.aR, i.r.sL, i.r.sR, YOf(c, e, i), i.w, i.w, ZOf(c, e, i), XOf(c, e, i), i.t0);
  }

  lemma PointHonest<P(!new)>(c: Curve<P>, e: Params<P>, i: Inputs, cv: int, cg: int, delta: int, vals: seq<int>,
                             core: Core<P>)
    requires Laws(c) && Sized(e, i) && Ready(c, i, YOf(c, e, i), ZOf(c, e, i), cv, cg, delta, vals)
    requires core.a == AOf(c, e, i) && core.s == SOf(c, e, i) && core.mu == c.red(i.r.alpha + i.r.rho * core.cx)
    requires core.cy == c.hash1(core.a) && core.cz == ZOf(c, e, i) && core.cx == XOf(c, e, i) && c.red(core.cy) != 0
    ensures PointOf(c, e, core, vals) == Commit2(c, e.bpg, HPrimeOf(c, e, core), LeftOf(c, e, i), RightOf(c, e, i))
  {
    PowersInvertible(c, e.v, core.cy);
    RebuiltHonest(c, e, i, vals, YOf(c, e, i), ZOf(c, e, i), core);
  }

  lemma ArgumentHonest<P(!new)>(c: Curve<P>, k: nat, e: Params<P>, left: seq<int>, right: seq<int>, hp: seq<P>, p: P,
                                th: int, ipp: InnerProdArg<P>)
    requires Laws(c) && |e.bpg| == |e.bph| == |hp| == Two(k) == |left| == |right|
    requires p == Commit2(c, e.bpg, hp, left, right) && th == c.red(Dot(left, right))
    requires ipp == Prove(c, k, p, e.u, e.bpg, hp, left, right) && Invertible(c, k, ipp.l, ipp.r)
    ensures Leveled(ipp) && Levels(ipp) == k && FastVerdict(c, th, p, e.u, e.bpg, hp, ipp)
  {
    EqRed(c, Dot(left, right));
    InnerProductComplete(c, k, th, p, e.u, e.bpg, hp, left, right);
    FastIsFolding(c, k, th, p, e.u, e.bpg, hp, ipp);
  }

  lemma PartsOf<P(!new)>(c: Curve<P>, k: nat, e: Params<P>, i: Inputs, core: Core<P>)
    requires Sized(e, i) && e.v == Two(k) && core == ProofOf(c, k, e, i)
    ensures core.a == AOf(c, e, i) && core.s == SOf(c, e, i) && core.mu == c.red(i.r.alpha + i.r.rho * core.cx)
    ensures core.cy == c.hash1(core.a) && core.cz == ZOf(c, e, i) && core.cx == XOf(c, e, i)
  {
  }

  /** The inner product argument of such a proof holds for the rebuilt point. */
  lemma ArgumentComplete<P(!new)>(c: Curve<P>, k: nat, e: Params<P>, i: Inputs, cv: int, cg: int, delta: int,
                                  vals: seq<int>, core: Core<P>)
    requires Laws(c) && Sized(e, i) && e.v == Two(k) && Ready(c, i, YOf(c, e, i), ZOf(c, e, i), cv, cg, delta, vals)
    requires core == ProofOf(c, k, e, i) && Challenged(c, core)
    ensures Leveled(core.ipp) && ArgumentHolds(c, e, core, vals)
  {
    ArgumentHonest(c, k, e, LeftOf(c, e, i), RightOf(c, e, i), HPrimeOf(c, e, core), PointOf(c, e, core, vals), core.th,
                   core.ipp) by {
      ValueHonest(c, e, i, cv, cg, delta, vals);
      PartsOf(c, k, e, i, core);
      PointHonest(c, e, i, cv, cg, delta, vals, core);
    }
  }

  /** The commitment equation of such a proof, as an equality of points. */
  lemma CommitmentExact<P(!new)>(c: Curve<P>, k: nat, e: Params<P>, i: Inputs, cv: int, cg: int, delta: int,
                                 vals: seq<int>, core: Core<P>)
    requires Laws(c) && Sized(e, i) && e.v == Two(k) && Ready(c, i, YOf(c, e, i), ZOf(c, e, i), cv, cg, delta, vals)
    requires core == ProofOf(c, k, e, i)
    ensures Pair(c, e.g, e.h, core.th, core.tau) ==
      c.add(TPart(c, e.g, e.h, delta, core.t1, core.t2, core.cx), Pair(c, e.g, e.h, cv, cg))
  {
    ValueHonest(c, e, i, cv, cg, delta, vals);
    CommitmentCheck(c, e.g, e.h, i.t0, T1Of(c, e, i), T2Of(c, e, i), i.r.tau1, i.r.tau2, core.cx, delta, cv, i.gz, cg);
  }

  /** A proof built from the bits of the committed values is accepted. */
  lemma CoreComplete<P(!new)>(c: Curve<P>, k: nat, e: Params<P>, i: Inputs, cv: int, cg: int, delta: int,
                              vals: seq<int>, core: Core<P>)
    requires Laws(c) && Sized(e, i) && e.v == Two(k) && Ready(c, i, YOf(c, e, i), ZOf(c, e, i), cv, cg, delta, vals)
    requires core == ProofOf(c, k, e, i) && Challenged(c, core)
    ensures Leveled(core.ipp) && CoreAccepts(c, e, core, Pair(c, e.g, e.h, cv, cg), delta, vals)
  {
    ArgumentComplete(c, k, e, i, cv, cg, delta, vals, core);
    CommitmentExact(c, k, e, i, cv, cg, delta, vals, core);
  }

  // ---------- delta ----------

  /** z^3 + z^4 + ... + z^(2+m) */
  function ZSum(z: int, m: nat): int {
    if m == 0 then 0 else ZSum(z, m - 1) + Pow(z, 2 + m)
  }

  /** delta(y,z) for m values of n bits each: (z - z^2)<1,y> - sum of z^(3+j)<1,2^n>. */
  function DeltaOf<P>(c: Curve<P>, y: seq<int>, z: int, m: nat, n: nat): int {
    c.red((z - z * z) * Total(y) - ZSum(z, m) * (Two(n) - 1))
  }

  /** If the weights of the bits add up to the committed value and to delta, the constant term matches. */
  lemma ConstantsMatch<P(!new)>(c: Curve<P>, aL: seq<int>, y: seq<int>, w: seq<int>, z: int, cv': int, cv: int, m: nat,
                                n: nat)
    requires Laws(c) && |aL| == |y| == |w| && AllBits(aL) && Eq(c, cv', cv)
    requires Eq(c, Dot(aL, w), cv) && Eq(c, z * Total(w), ZSum(z, m) * (Two(n) - 1))
    ensures Constants(c, aL, y, w, z, c.red(cv' + DeltaOf(c, y, z, m, n)), cv, DeltaOf(c, y, z, m, n))
  {
    var d, dw, ty, tw := ConstantTerm(aL, y, w, z);
    var py, zt, zs := (z - z * z) * ty, z * tw, ZSum(z, m) * (Two(n) - 1);
    assert DeltaOf(c, y, z, m, n) == c.red(py - zs);
    ConstantsGlue(c, cv', cv, dw, py, zt, zs, d);
  }

  lemma ConstantsGlue<P(!new)>(c: Curve<P>, cv': int, cv: int, dw: int, py: int, zt: int, zs: int, d: int)
    requires Laws(c) && Eq(c, cv', cv) && Eq(c, dw, cv) && Eq(c, zt, zs) && d == dw + py - zt
    ensures var delta := c.red(py - zs); Eq(c, c.red(cv' + delta), cv + delta) && Eq(c, c.red(cv' + delta), d)
  {
    var delta := c.red(py - zs);
    EqRed(c, py - zs);
    EqAdd(c, cv', cv, delta, delta);
    EqRed(c, cv' + delta);
    EqAdd(c, dw, cv, py, py);
    EqAdd(c, dw + py, cv + py, zt, zs);
    EqAdd(c, cv, cv, delta, py - zs);
  }

  // ---------- the loops of prover and verifier ----------

  method MakeHPrime<P>(c: Curve<P>, bph: seq<P>, y: seq<int>) returns (hp: seq<P>)
    requires |bph| == |y|
    ensures hp == Primed(c, bph, y)
  {
    hp := [];
    for i := 0 to |bph|
      invariant hp == Primed(c, bph, y)[..i]
    {
      hp := hp + [c.mult(bph[i], c.inv(y[i]))];
    }
  }

  /** tmp1: every generator of the first kind times -z. */
  method SumNegated<P>(c: Curve<P>, bpg: seq<P>, z: int) returns (tmp1: P)
    ensures tmp1 == Sum(c, bpg, Constant(|bpg|, c.red(-z)))
  {
    tmp1 := c.zero;
    var zneg := c.red(-z);
    ghost var zs := Constant(|bpg|, zneg);
    for i := 0 to |bpg|
      invariant tmp1 == Sum(c, bpg[..i], zs[..i])
    {
      assert bpg[..i + 1][..i] == bpg[..i] && zs[..i + 1][..i] == zs[..i];
      tmp1 := c.add(tmp1, c.mult(bpg[i], zneg));
    }
    assert bpg[..|bpg|] == bpg && zs[..|bpg|] == zs;
  }

  /** tmp2: the second generators, divided by the powers of y, times the given scalars. */
  method SumPrimed<P>(c: Curve<P>, hp: seq<P>, vals: seq<int>) returns (tmp2: P)
    requires |hp| == |vals|
    ensures tmp2 == Sum(c, hp, vals)
  {
    tmp2 := c.zero;
    for i := 0 to |hp|
      invariant tmp2 == Sum(c, hp[..i], vals[..i])
    {
      assert hp[..i + 1][..i] == hp[..i] && vals[..i + 1][..i] == vals[..i];
      tmp2 := c.add(tmp2, c.mult(hp[i], vals[i]));
    }
    assert hp[..|hp|] == hp && vals[..|hp|] == vals;
  }

  method CommitBlinded<P>(c: Curve<P>, e: Params<P>, l: seq<int>, r: seq<int>, blind: int) returns (p: P)
    requires |e.bpg| == |e.bph| == |l| == |r|
    ensures p == Blinded(c, e, l, r, blind)
  {
    p := TwoVectorCommit(c, e.bpg, e.bph, l, r);
    p := c.add(p, c.mult(e.h, blind));
  }

  lemma CoefficientsAre<P(!new)>(c: Curve<P>, e: Params<P>, i: Inputs, y: seq<int>, z: int)
    requires Sized(e, i) && y == YOf(c, e, i) && z == ZOf(c, e, i)
    ensures var r0, l0, r1 := R0(c, i.aR, y, i.w, z), VectorAddScalar(c, i.aL, -z), VectorHadamard(c, i.r.sR, y);
      && |i.r.sL| == |r0| == |l0| == |r1|
      && T1Of(c, e, i) == c.red(c.red(Dot(i.r.sL, r0)) + c.red(Dot(l0, r1)))
      && T2Of(c, e, i) == c.red(Dot(i.r.sL, r1))
  {
    assert T1Of(c, e, i) == T1(c, i.aL, i.aR, i.r.sL, i.r.sR, y, i.w, z);
    assert T2Of(c, e, i) == T2(c, i.r.sL, i.r.sR, y);
  }

  /** The commitments to the coefficients of t and the challenge they give. */
  method CommitPolynomial<P(!new)>(c: Curve<P>, e: Params<P>, i: Inputs, y: seq<int>, z: int)
    returns (t1: int, t2: int, p1: P, p2: P, x: int)
    requires Laws(c) && Sized(e, i) && y == YOf(c, e, i) && z == ZOf(c, e, i)
    ensures t1 == T1Of(c, e, i) && t2 == T2Of(c, e, i) && x == XOf(c, e, i)
    ensures p1 == Pair(c, e.g, e.h, t1, i.r.tau1) && p2 == Pair(c, e.g, e.h, t2, i.r.tau2)
  {
    CoefficientsAre(c, e, i, y, z);
    t1, t2 := Coefficients(c, i.r.sL, R0(c, i.aR, y, i.w, z), VectorAddScalar(c, i.aL, -z),
                           VectorHadamard(c, i.r.sR, y));
    p1, p2 := c.add(c.mult(e.g, t1), c.mult(e.h, i.r.tau1)), c.add(c.mult(e.g, t2), c.mult(e.h, i.r.tau2));
    x := c.hash2(p1, p2);
  }

  /** The coefficients of t from the parts of l and r. */
  method Coefficients<P(!new)>(c: Curve<P>, sL: seq<int>, r0: seq<int>, l0: seq<int>, r1: seq<int>)
    returns (t1: int, t2: int)
    requires Laws(c) && |sL| == |r0| == |l0| == |r1|
    ensures t1 == c.red(c.red(Dot(sL, r0)) + c.red(Dot(l0, r1))) && t2 == c.red(Dot(sL, r1))
  {
    var t11 := InnerProduct(c, sL, r0);
    var t12 := InnerProduct(c, l0, r1);
    t1 := c.red(t11 + t12);
    t2 := InnerProduct(c, sL, r1);
  }

  /** The inner product of the two vectors and the argument for it. */
  method Argue<P(!new)>(c: Curve<P>, e: Params<P>, y: seq<int>, left: seq<int>, right: seq<int>, ghost k: nat)
    returns (that: int, ipp: InnerProdArg<P>)
    requires Laws(c) && |e.bpg| == |e.bph| == Two(k) == |y| == |left| == |right|
    ensures that == c.red(Dot(left, right))
    ensures var hp := Primed(c, e.bph, y);
      ipp == Prove(c, k, Commit2(c, e.bpg, hp, left, right), e.u, e.bpg, hp, left, right)
  {
    that := InnerProduct(c, left, right);
    var hp := MakeHPrime(c, e.bph, y);
    var p := TwoVectorCommit(c, e.bpg, hp, left, right);
    ipp := InnerProductProve(c, left, right, that, p, e.u, e.bpg, hp, k);
  }

  /** The value of t at x, and the argument for the inner product. */
  method ArgueFor<P(!new)>(c: Curve<P>, e: Params<P>, i: Inputs, y: seq<int>, z: int, t1: int, t2: int, x: int,
                           ghost k: nat) returns (th: int, ipp: InnerProdArg<P>)
    requires Laws(c) && Sized(e, i) && e.v == Two(k) && y == YOf(c, e, i) && z == ZOf(c, e, i)
    requires t1 == T1Of(c, e, i) && t2 == T2Of(c, e, i) && x == XOf(c, e, i)
    ensures th == ThOf(c, e, i) && ipp == IPPOf(c, k, e, i)
  {
    th, ipp := Argue(c, e, y, CalculateL(c, i.aL, i.r.sL, z, x), CalculateR(c, i.aR, i.r.sR, y, i.w, z, x), k);
    if !i.direct {
      th := That(c, i.t0, t1, t2, x);
    }
  }

  /** From the first challenges on, both provers run the same code. */
  method FinishProof<P(!new)>(c: Curve<P>, e: Params<P>, i: Inputs, a: P, s: P, y: seq<int>, z: int, ghost k: nat)
    returns (core: Core<P>)
    requires Laws(c) && Sized(e, i) && e.v == Two(k)
    requires a == AOf(c, e, i) && s == SOf(c, e, i) && y == YOf(c, e, i) && z == ZOf(c, e, i)
    ensures core == ProofOf(c, k, e, i)
  {
    var t1, t2, p1, p2, x := CommitPolynomial(c, e, i, y, z);
    var th, ipp := ArgueFor(c, e, i, y, z, t1, t2, x, k);
    core := Core(a, s, p1, p2, Taux(c, i.r.tau1, i.r.tau2, x, i.gz), th, c.red(i.r.alpha + i.r.rho * x), ipp,
                 c.hash1(a), z, x);
    assert core == Assemble(c, e, i, a, s, t1, t2, th, ipp, z, x);
  }

  lemma PointIs<P(!new)>(c: Curve<P>, e: Params<P>, core: Core<P>, vals: seq<int>, hp: seq<P>, tmp1: P, tmp2: P)
    requires |e.bpg| == |e.bph| == e.v == |vals| == |hp| && hp == HPrimeOf(c, e, core)
    requires tmp1 == Sum(c, e.bpg, Constant(|e.bpg|, c.red(-core.cz))) && tmp2 == Sum(c, hp, vals)
    ensures PointOf(c, e, core, vals) ==
      c.add(c.add(c.add(c.add(core.a, c.mult(core.s, core.cx)), tmp1), tmp2), c.neg(c.mult(e.h, core.mu)))
  {
    assert PointOf(c, e, core, vals) == Rebuilt(c, e, core, tmp1, tmp2);
  }

  /** H' and the point P of the verifiers. */
  method RebuildPoint<P(!new)>(c: Curve<P>, e: Params<P>, core: Core<P>, y: seq<int>, vals: seq<int>)
    returns (hp: seq<P>, p: P)
    requires |e.bpg| == |e.bph| == e.v == |vals| && y == PowerVector(c, e.v, core.cy)
    ensures hp == HPrimeOf(c, e, core) && p == PointOf(c, e, core, vals)
  {
    var tmp1 := SumNegated(c, e.bpg, core.cz);
    hp := MakeHPrime(c, e.bph, y);
    var tmp2 := SumPrimed(c, hp, vals);
    PointIs(c, e, core, vals, hp, tmp1, tmp2);
    p := c.add(c.add(c.add(c.add(core.a, c.mult(core.s, core.cx)), tmp1), tmp2), c.neg(c.mult(e.h, core.mu)));
  }

  /** The last part of both verifiers. */
  method CheckArgument<P(!new)>(c: Curve<P>, e: Params<P>, core: Core<P>, y: seq<int>, vals: seq<int>)
    returns (ok: bool)
    requires Laws(c) && |e.bpg| == |e.bph| == e.v == |vals|
    requires y == PowerVector(c, e.v, core.cy) && Challenged(c, core)
    ensures ok <==> ArgumentHolds(c, e, core, vals)
  {
    var hp, p := RebuildPoint(c, e, core, y, vals);
    ok := InnerProductVerifyFast(c, core.th, p, e.u, e.bpg, hp, core.ipp, e.v);
  }
}
