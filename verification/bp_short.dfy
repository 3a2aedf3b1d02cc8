/** Proofs with another number of levels than the generators have halvings: where the two verifiers part. */
module ShortProofs {
  import opened PowersOfTwo
  import opened CurveGroup
  import opened Folding
  import opened InnerProductArgument
  import opened FastVerifier

  /** Generators that are all zero, but for the second one. */
  function Spike<P>(c: Curve<P>, n: nat, q: P): (g: seq<P>)
    ensures |g| == n && forall i :: 0 <= i < n ==> g[i] == if i == 1 then q else c.zero
  {
    seq(n, i => if i == 1 then q else c.zero)
  }

  function Repeated(n: nat, x: int): (xs: seq<int>)
    ensures |xs| == n && forall i :: 0 <= i < n ==> xs[i] == x
  {
    seq(n, _ => x)
  }

  /** A proof of j levels with zero points everywhere, opening to 1 and 0. */
  function ZeroProof<P>(c: Curve<P>, j: nat): InnerProdArg<P> {
    var points := Spike(c, j, c.zero);
    InnerProdArg(points, points, 1, 0, Repeated(j, c.hash2(c.zero, c.zero)) + [c.hash1(c.zero)])
  }

  lemma ZeroProofMatches<P>(c: Curve<P>, j: nat)
    ensures Leveled(ZeroProof(c, j)) && Levels(ZeroProof(c, j)) == j && ChallengesMatch(c, c.zero, ZeroProof(c, j))
  {
  }

  lemma Zeros<P(!new)>(c: Curve<P>, s: int, t: int)
    requires Laws(c)
    ensures c.add(c.mult(c.zero, s), c.mult(c.zero, t)) == c.zero && c.mult(c.zero, s) == c.zero
  {
    ZeroMult(c, s);
    ZeroMult(c, t);
    AddZero(c, c.zero);
  }

  lemma {:induction false} FoldZeroP<P(!new)>(c: Curve<P>, j: nat, l: seq<P>, xs: seq<int>)
    requires Laws(c) && j <= |l| && j <= |xs| && forall i :: 0 <= i < j ==> l[i] == c.zero
    ensures FoldAllP(c, j, c.zero, l, l, xs) == c.zero
  {
    if j > 0 {
      var x2 := c.red(xs[j - 1] * xs[j - 1]);
      Zeros(c, x2, c.inv(x2));
      AddZero(c, c.zero);
      FoldZeroP(c, j - 1, l, xs);
    }
  }

  /** With fewer levels than halvings the second generator never gets to the first place. */
  lemma {:induction false} FoldSpikeG<P(!new)>(c: Curve<P>, k: nat, j: nat, q: P, xs: seq<int>)
    requires Laws(c) && j < k && j <= |xs|
    ensures FoldAllG(c, k, j, Spike(c, Two(k), q), xs) == c.zero
    decreases j
  {
    if j > 0 {
      var m := Two(k - 1);
      assert Two(k - 2) >= 1 && m >= 2;
      var q' := FoldSpike(c, m, q, xs[j - 1]);
      FoldSpikeG(c, k - 1, j - 1, q', xs);
    } else {
      assert Two(k) >= 2;
    }
  }

  lemma FoldSpike<P(!new)>(c: Curve<P>, m: nat, q: P, x: int) returns (q': P)
    requires Laws(c) && m >= 2
    ensures FoldG(c, m, Spike(c, 2 * m, q), x) == Spike(c, m, q')
  {
    var f := FoldG(c, m, Spike(c, 2 * m, q), x);
    q' := f[1];
    Zeros(c, c.inv(x), x);
  }

  lemma {:induction false} FoldZeroH<P(!new)>(c: Curve<P>, k: nat, j: nat, xs: seq<int>)
    requires Laws(c) && j <= k && j <= |xs|
    ensures FoldAllH(c, k, j, Spike(c, Two(k), c.zero), xs) == c.zero
    decreases j
  {
    if j > 0 {
      var m, x := Two(k - 1), xs[j - 1];
      Zeros(c, x, c.inv(x));
      assert FoldH(c, m, Spike(c, 2 * m, c.zero), x) == Spike(c, m, c.zero);
      FoldZeroH(c, k - 1, j - 1, xs);
    }
  }

  lemma {:induction false} SumSpike<P(!new)>(c: Curve<P>, n: nat, q: P, w: seq<int>)
    requires Laws(c) && |w| == n
    ensures Sum(c, Spike(c, n, q), w) == if n > 1 then c.mult(q, w[1]) else c.zero
  {
    if n > 0 {
      SumSpike(c, n - 1, q, w[..n - 1]);
      assert Spike(c, n, q)[..n - 1] == Spike(c, n - 1, q);
      ZeroMult(c, w[n - 1]);
      AddZero(c, c.zero);
      AddZero(c, c.mult(q, w[n - 1]));
      if n > 2 { AddZero(c, c.mult(q, w[1])); }
    }
  }

  lemma OpenedAtOne<P(!new)>(c: Curve<P>, g: P)
    requires Laws(c)
    ensures Opened(c, g, c.zero, 1, 0, c.zero) == g
  {
    MultOne(c, g);
    ZeroMult(c, 0);
    ZeroMult(c, c.red(0));
    AddZero(c, g);
  }

  /** What the two verdicts come down to on such a proof: one point against zero. */
  lemma FoldingOnZeroProof<P(!new)>(c: Curve<P>, k: nat, j: nat, q: P)
    requires Laws(c) && j < k
    ensures Leveled(ZeroProof(c, j))
    ensures Verdict(c, k, 0, c.zero, c.zero, Spike(c, Two(k), q), Spike(c, Two(k), c.zero), ZeroProof(c, j))
  {
    var ipp := ZeroProof(c, j);
    ZeroProofMatches(c, j);
    Zeros(c, c.hash1(c.zero), 0);
    AddZero(c, c.zero);
    FoldZeroP(c, j, ipp.l, ipp.challenges);
    FoldSpikeG(c, k, j, q, ipp.challenges);
    FoldZeroH(c, k, j, ipp.challenges);
    OpenedAtOne(c, c.zero);
  }

  lemma FastOnZeroProof<P(!new)>(c: Curve<P>, n: nat, j: nat, q: P, r: P)
    requires Laws(c) && j <= |ZeroProof(c, j).challenges|
    requires r == if n > 1 then c.mult(q, SAt(c, j, ZeroProof(c, j).challenges, 1)) else c.zero
    ensures Leveled(ZeroProof(c, j))
    ensures FastVerdict(c, 0, c.zero, c.zero, Spike(c, n, q), Spike(c, n, c.zero), ZeroProof(c, j)) <==>
      c.Equal(c.zero, r)
  {
    var ipp := ZeroProof(c, j);
    ZeroProofMatches(c, j);
    Zeros(c, c.hash1(c.zero), 0);
    AddZero(c, c.zero);
    FoldZeroP(c, j, ipp.l, ipp.challenges);
    assert Sum(c, Spike(c, n, q), SAll(c, n, j, ipp.challenges)) == r by {
      SumSpike(c, n, q, SAll(c, n, j, ipp.challenges));
    }
    assert Sum(c, Spike(c, n, c.zero), TAll(c, n, j, ipp.challenges)) == c.zero by {
      SumSpike(c, n, c.zero, TAll(c, n, j, ipp.challenges));
      if n > 1 { ZeroMult(c, TAll(c, n, j, ipp.challenges)[1]); }
    }
    OpenedAtOne(c, r);
  }

  /** Too few levels: the folding verifier accepts what the fast one refuses. */
  lemma ShortDiffers<P(!new)>(c: Curve<P>, k: nat, j: nat, r: P) returns (q: P)
    requires Laws(c) && j < k && !c.Equal(c.zero, r) && c.red(c.hash2(c.zero, c.zero)) != 0
    ensures Leveled(ZeroProof(c, j)) && Levels(ZeroProof(c, j)) == j
    ensures Verdict(c, k, 0, c.zero, c.zero, Spike(c, Two(k), q), Spike(c, Two(k), c.zero), ZeroProof(c, j))
    ensures !FastVerdict(c, 0, c.zero, c.zero, Spike(c, Two(k), q), Spike(c, Two(k), c.zero), ZeroProof(c, j))
  {
    var xs := ZeroProof(c, j).challenges;
    var s, t := SAt(c, j, xs, 1), TAt(c, j, xs, 1);
    q := c.mult(r, t);
    WeightsInvert(c, j, xs, 1);
    assert c.mult(q, s) == r by {
      assert t * s == s * t;
      Cancel(c, r, t, s);
    }
    assert Two(k - 1) >= 1;
    FoldingOnZeroProof(c, k, j, q);
    FastOnZeroProof(c, Two(k), j, q, r);
  }

  /** Too many levels: the fast verifier accepts a proof on which the folding one runs out of generators. */
  lemma LongDiffers<P(!new)>(c: Curve<P>, k: nat, j: nat)
    requires Laws(c) && j > k
    ensures Leveled(ZeroProof(c, j)) && Levels(ZeroProof(c, j)) == j
    ensures var g := Spike(c, Two(k), c.zero);
      !Verdict(c, k, 0, c.zero, c.zero, g, g, ZeroProof(c, j)) &&
        FastVerdict(c, 0, c.zero, c.zero, g, g, ZeroProof(c, j))
  {
    ZeroMult(c, SAt(c, j, ZeroProof(c, j).challenges, 1));
    FastOnZeroProof(c, Two(k), j, c.zero, c.zero);
  }

  /** Both verifiers give one verdict on every proof of j levels over 2^k generators. */
  ghost predicate SameVerdicts<P(!new)>(c: Curve<P>, k: nat, j: nat) {
    forall cc: int, p, u, g: seq<P>, h: seq<P>, ipp: InnerProdArg<P> ::
      |g| == |h| == Two(k) && Leveled(ipp) && Levels(ipp) == j ==>
        (FastVerdict(c, cc, p, u, g, h, ipp) <==> Verdict(c, k, cc, p, u, g, h, ipp))
  }

  /** That the fast verifier does the same as the folding one is true of the proofs with k levels over 2^k
      generators, and of no other number of levels, in every group with a point that Equal tells from zero. */
  lemma AgreeExactly<P(!new)>(c: Curve<P>, k: nat, j: nat, r: P)
    requires Laws(c) && !c.Equal(c.zero, r) && c.red(c.hash2(c.zero, c.zero)) != 0
    ensures SameVerdicts(c, k, j) <==> j == k
  {
    if j == k {
      forall cc: int, p, u, g: seq<P>, h: seq<P>, ipp: InnerProdArg<P>
        | |g| == |h| == Two(k) && Leveled(ipp) && Levels(ipp) == j
        ensures FastVerdict(c, cc, p, u, g, h, ipp) <==> Verdict(c, k, cc, p, u, g, h, ipp)
      {
        FastIsFolding(c, k, cc, p, u, g, h, ipp);
      }
    } else if j < k {
      var q := ShortDiffers(c, k, j, r);
    } else {
      LongDiffers(c, k, j);
    }
  }
}
