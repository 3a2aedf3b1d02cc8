/** The inner product argument: prover, folding verifier, and completeness. */
module InnerProductArgument {
  import opened PowersOfTwo
  import opened CurveGroup
  import opened Vectors
  import opened Folding

  datatype InnerProdArg<P> = InnerProdArg(l: seq<P>, r: seq<P>, a: int, b: int, challenges: seq<int>)

  // ---------- prover ----------

  lemma HalfTwo(k: nat)
    requires k > 0
    ensures Two(k) / 2 == Two(k - 1) && Two(k) >= 2
  {
  }

  /** floor(log2(n)), as the code computes it from the vector length. */
  function Log2(n: int): nat {
    if n < 2 then 0 else 1 + Log2(n / 2)
  }

  lemma {:induction false} Log2Two(k: nat)
    ensures Log2(Two(k)) == k
  {
    if k > 0 {
      HalfTwo(k);
      Log2Two(k - 1);
    }
  }

  /** What the recursion of the prover records: the pair sent at each level, lowest level first. */
  function ProveSub<P>(c: Curve<P>, k: nat, g: seq<P>, h: seq<P>, a: seq<int>, b: seq<int>, u: P): (r: InnerProdArg<P>)
    requires |g| == |h| == |a| == |b| == Two(k)
    ensures |r.l| == |r.r| == |r.challenges| == k
  {
    if k == 0 then InnerProdArg([], [], a[0], b[0], [])
    else
      var m := Two(k - 1);
      assert |g| == |h| == |a| == |b| == 2 * m;
      var l, r := LeftPoint(c, m, g, h, a, b, u), RightPoint(c, m, g, h, a, b, u);
      var x := c.hash2(l, r);
      var fg, fh := FoldG(c, m, g, x), FoldH(c, m, h, x);
      var fa, fb := FoldA(c, m, a, x, c.inv(x)), FoldA(c, m, b, c.inv(x), x);
      assert |fg| == |fh| == |fa| == |fb| == m;
      Extend(ProveSub(c, k - 1, fg, fh, fa, fb, u), l, r, x)
  }

  /** The pair of points one level sends. */
  method CrossTerms<P(!new)>(c: Curve<P>, g: seq<P>, h: seq<P>, a: seq<int>, b: seq<int>, u: P, ghost m: nat)
    returns (l: P, r: P)
    requires Laws(c) && |g| == |h| == |a| == |b| == 2 * m
    ensures l == LeftPoint(c, m, g, h, a, b, u) && r == RightPoint(c, m, g, h, a, b, u)
  {
    var nprime := |a| / 2;
    var cl := InnerProduct(c, a[..nprime], b[nprime..]);
    var cr := InnerProduct(c, a[nprime..], b[..nprime]);
    l := TwoVectorCommit(c, g[nprime..], h[..nprime], a[..nprime], b[nprime..]);
    l := c.add(l, c.mult(u, cl));
    r := TwoVectorCommit(c, g[..nprime], h[nprime..], a[nprime..], b[..nprime]);
    r := c.add(r, c.mult(u, cr));
  }

  /** What a level of the recursion leaves in the slots of the proof: slots `k` and up stay. */
  ghost predicate Filled<P>(before: InnerProdArg<P>, after: InnerProdArg<P>, spec: InnerProdArg<P>, k: nat) {
    && k <= |before.l| && k <= |before.r| && k <= |before.challenges|
    && after.a == spec.a && after.b == spec.b
    && after.l == spec.l + before.l[k..] && after.r == spec.r + before.r[k..]
    && after.challenges == spec.challenges + before.challenges[k..]
  }

  /** InnerProductProveSub: each call fills the slot of its level and recurses on the folded vectors. */
  method InnerProductProveSub<P(!new)>(c: Curve<P>, proof: InnerProdArg<P>, g: seq<P>, h: seq<P>,
                                       a: seq<int>, b: seq<int>, u: P, p: P, ghost k: nat)
    returns (result: InnerProdArg<P>)
    requires Laws(c) && |g| == |h| == |a| == |b| == Two(k)
    requires k <= |proof.l| && k <= |proof.r| && k <= |proof.challenges|
    ensures Filled(proof, result, ProveSub(c, k, g, h, a, b, u), k)
    decreases k
  {
    if |a| == 1 {
      return proof.(a := a[0], b := b[0]);
    }
    Log2Two(k);
    var curIt := Log2(|a|) - 1;
    ghost var m := Two(k - 1);
    var l, r, x, gprime, hprime, aprime, bprime, pprime := Level(c, g, h, a, b, u, p, m);
    var filled := WithSlot(proof, curIt, l, r, x);
    result := InnerProductProveSub(c, filled, gprime, hprime, aprime, bprime, u, pprime, k - 1);
    FilledStep(proof, result, ProveSub(c, k - 1, gprime, hprime, aprime, bprime, u), l, r, x, k);
    ProveSubLevel(c, k, m, g, h, a, b, u, l, r, x);
  }

  /** One level of the prover: the pair, its challenge, and everything folded with it. */
  method Level<P(!new)>(c: Curve<P>, g: seq<P>, h: seq<P>, a: seq<int>, b: seq<int>, u: P, p: P, ghost m: nat)
    returns (l: P, r: P, x: int, gprime: seq<P>, hprime: seq<P>, aprime: seq<int>, bprime: seq<int>, pprime: P)
    requires Laws(c) && |g| == |h| == |a| == |b| == 2 * m
    ensures l == LeftPoint(c, m, g, h, a, b, u) && r == RightPoint(c, m, g, h, a, b, u) && x == c.hash2(l, r)
    ensures gprime == FoldG(c, m, g, x) && hprime == FoldH(c, m, h, x)
    ensures aprime == FoldA(c, m, a, x, c.inv(x)) && bprime == FoldA(c, m, b, c.inv(x), x)
  {
    l, r := CrossTerms(c, g, h, a, b, u, m);
    x := c.hash2(l, r);
    assert g[..2 * m] == g && h[..2 * m] == h;
    gprime, hprime, pprime := GenerateNewParams(c, g, h, x, l, r, p, m);
    var nprime, xinv := |a| / 2, c.inv(x);
    assert nprime == m;
    aprime := VectorAdd(c, ScalarVectorMul(c, a[..nprime], x), ScalarVectorMul(c, a[nprime..], xinv));
    bprime := VectorAdd(c, ScalarVectorMul(c, b[..nprime], xinv), ScalarVectorMul(c, b[nprime..], x));
  }

  lemma ProveSubLevel<P>(c: Curve<P>, k: nat, m: nat, g: seq<P>, h: seq<P>, a: seq<int>, b: seq<int>, u: P, l: P, r: P,
                         x: int)
    requires k > 0 && m == Two(k - 1) && |g| == |h| == |a| == |b| == 2 * m
    requires l == LeftPoint(c, m, g, h, a, b, u) && r == RightPoint(c, m, g, h, a, b, u) && x == c.hash2(l, r)
    ensures ProveSub(c, k, g, h, a, b, u) ==
      Extend(ProveSub(c, k - 1, FoldG(c, m, g, x), FoldH(c, m, h, x),
                      FoldA(c, m, a, x, c.inv(x)), FoldA(c, m, b, c.inv(x), x), u), l, r, x)
  {
  }

  /** The proof with the slot of one level filled. */
  function WithSlot<P>(proof: InnerProdArg<P>, i: nat, l: P, r: P, x: int): InnerProdArg<P>
    requires i < |proof.l| && i < |proof.r| && i < |proof.challenges|
  {
    InnerProdArg(proof.l[i := l], proof.r[i := r], proof.a, proof.b, proof.challenges[i := x])
  }

  function Extend<P>(rest: InnerProdArg<P>, l: P, r: P, x: int): InnerProdArg<P> {
    InnerProdArg(rest.l + [l], rest.r + [r], rest.a, rest.b, rest.challenges + [x])
  }

  lemma FilledStep<P>(proof: InnerProdArg<P>, result: InnerProdArg<P>, rest: InnerProdArg<P>, l: P, r: P, x: int,
                      k: nat)
    requires 0 < k <= |proof.l| && k <= |proof.r| && k <= |proof.challenges|
    requires Filled(WithSlot(proof, k - 1, l, r, x), result, rest, k - 1)
    ensures Filled(proof, result, Extend(rest, l, r, x), k)
  {
    var filled := WithSlot(proof, k - 1, l, r, x);
    assert filled.l[k - 1..] == [l] + proof.l[k..];
    assert filled.r[k - 1..] == [r] + proof.r[k..];
    assert filled.challenges[k - 1..] == [x] + proof.challenges[k..];
  }

  /** The whole proof: the levels of the recursion run over u' = hash(P)*U, and the challenge hash(P). */
  function Prove<P>(c: Curve<P>, k: nat, p: P, u: P, g: seq<P>, h: seq<P>, a: seq<int>, b: seq<int>): InnerProdArg<P>
    requires |g| == |h| == |a| == |b| == Two(k)
  {
    var sub := ProveSub(c, k, g, h, a, b, c.mult(u, c.hash1(p)));
    sub.(challenges := sub.challenges + [c.hash1(p)])
  }

  method InnerProductProve<P(!new)>(c: Curve<P>, a: seq<int>, b: seq<int>, cc: int, p: P, u: P, g: seq<P>, h: seq<P>,
                                    ghost k: nat)
    returns (proof: InnerProdArg<P>)
    requires Laws(c) && |g| == |h| == |a| == |b| == Two(k)
    ensures proof == Prove(c, k, p, u, g, h, a, b)
  {
    Log2Two(k);
    var loglen := Log2(|a|);
    var x := c.hash1(p);
    var slots := seq(loglen, _ => c.zero);
    var running := InnerProdArg(slots, slots, 0, 0, seq(loglen, _ => 0) + [x]);
    var pprime := c.add(p, c.mult(u, x * cc));
    var ux := c.mult(u, x);
    proof := InnerProductProveSub(c, running, g, h, a, b, ux, pprime, k);
    assert running.l[k..] == [] && running.r[k..] == [] && running.challenges[k..] == [x];
  }

  // ---------- folding verifier ----------

  /** The first generator left after j folds. */
  function FoldAllG<P>(c: Curve<P>, k: nat, j: nat, g: seq<P>, xs: seq<int>): P
    requires |g| == Two(k) && j <= k && j <= |xs|
    decreases j
  {
    if j == 0 then g[0] else FoldAllG(c, k - 1, j - 1, FoldG(c, Two(k - 1), g, xs[j - 1]), xs)
  }

  function FoldAllH<P>(c: Curve<P>, k: nat, j: nat, h: seq<P>, xs: seq<int>): P
    requires |h| == Two(k) && j <= k && j <= |xs|
    decreases j
  {
    if j == 0 then h[0] else FoldAllH(c, k - 1, j - 1, FoldH(c, Two(k - 1), h, xs[j - 1]), xs)
  }

  function FoldAllP<P>(c: Curve<P>, k: nat, p: P, l: seq<P>, r: seq<P>, xs: seq<int>): P
    requires k <= |xs| && k <= |l| && k <= |r|
  {
    if k == 0 then p else FoldAllP(c, k - 1, FoldP(c, xs[k - 1], l[k - 1], r[k - 1], p), l, r, xs)
  }

  /** The number of levels of a proof: the last challenge belongs to the commitment. */
  function Levels<P>(ipp: InnerProdArg<P>): nat {
    if |ipp.challenges| == 0 then 0 else |ipp.challenges| - 1
  }

  /** There is a challenge for the commitment, and a pair of points for every other one. */
  ghost predicate Leveled<P>(ipp: InnerProdArg<P>) {
    |ipp.challenges| > 0 && Levels(ipp) <= |ipp.l| && Levels(ipp) <= |ipp.r|
  }

  /** The hash of each of the first j pairs of points has an inverse. */
  ghost predicate Invertible<P>(c: Curve<P>, j: nat, l: seq<P>, r: seq<P>)
    requires j <= |l| && j <= |r|
  {
    forall i :: 0 <= i < j ==> c.red(c.hash2(l[i], r[i])) != 0
  }

  /** The challenge of a level is the hash of its pair of points. */
  predicate PairMatches<P>(c: Curve<P>, ipp: InnerProdArg<P>, i: nat)
    requires i < |ipp.challenges| && i < |ipp.l| && i < |ipp.r|
  {
    ipp.challenges[i] == c.hash2(ipp.l[i], ipp.r[i])
  }

  ghost predicate PairsMatch<P>(c: Curve<P>, ipp: InnerProdArg<P>, from: nat)
    requires Leveled(ipp)
  {
    forall i {:trigger PairMatches(c, ipp, i)} :: from <= i < Levels(ipp) ==> PairMatches(c, ipp, i)
  }

  lemma MatchOneMore<P>(c: Curve<P>, ipp: InnerProdArg<P>, i: nat)
    requires Leveled(ipp) && i < Levels(ipp) && PairMatches(c, ipp, i) && PairsMatch(c, ipp, i + 1)
    ensures PairsMatch(c, ipp, i)
  {
  }

  ghost predicate ChallengesMatch<P>(c: Curve<P>, p: P, ipp: InnerProdArg<P>)
    requires Leveled(ipp)
  {
    ipp.challenges[Levels(ipp)] == c.hash1(p) && PairsMatch(c, ipp, 0)
  }

  /** The verdict of Protocol 1 and 2: the challenges are the hashes of what was sent, and the folded
      commitment opens to the two scalars over the folded generators. */
  ghost predicate Verdict<P>(c: Curve<P>, k: nat, cc: int, p: P, u: P, g: seq<P>, h: seq<P>, ipp: InnerProdArg<P>)
    requires |g| == |h| == Two(k) && Leveled(ipp)
  {
    var ux, j := c.mult(u, c.hash1(p)), Levels(ipp);
    ChallengesMatch(c, p, ipp) && j <= k &&
    c.Equal(FoldAllP(c, j, c.add(p, c.mult(ux, cc)), ipp.l, ipp.r, ipp.challenges),
            Opened(c, FoldAllG(c, k, j, g, ipp.challenges), FoldAllH(c, k, j, h, ipp.challenges), ipp.a, ipp.b, ux))
  }

  function Opened<P>(c: Curve<P>, g: P, h: P, a: int, b: int, ux: P): P
  {
    c.add(c.add(c.mult(g, a), c.mult(h, b)), c.mult(ux, c.red(a * b)))
  }

  datatype Outcome<T> = Done(value: T) | Panic

  /** InnerProductVerify on a proof of any number of levels. A proof with right challenges and more levels than the
      generators have halves runs out of generators. */
  method InnerProductVerify<P(!new)>(c: Curve<P>, cc: int, p: P, u: P, g: seq<P>, h: seq<P>, ipp: InnerProdArg<P>,
                                     ghost k: nat)
    returns (result: Outcome<bool>)
    requires |g| == |h| == Two(k) && Leveled(ipp)
    ensures result.Panic? <==> ChallengesMatch(c, p, ipp) && Levels(ipp) > k
    ensures result.Done? ==> (result.value <==> Verdict(c, k, cc, p, u, g, h, ipp))
  {
    var chal1 := c.hash1(p);
    var ux := c.mult(u, chal1);
    var curIt := |ipp.challenges| - 1;
    if ipp.challenges[curIt] != chal1 {
      return Done(false);
    }
    var pprime := c.add(p, c.mult(ux, cc));
    var ok, gs, hs, folded := FoldDown(c, g, h, pprime, ipp, k);
    if !ok {
      return Done(false);
    }
    if |gs| == 0 {
      return Panic;
    }
    var ccalc := c.red(ipp.a * ipp.b);
    var pcalc := c.add(c.add(c.mult(gs[0], ipp.a), c.mult(hs[0], ipp.b)), c.mult(ux, ccalc));
    return Done(c.Equal(folded, pcalc));
  }

  /** What the loop of the folding verifier works on. */
  datatype Work<P> = Work(g: seq<P>, h: seq<P>, p: P)

  /** The number of generators after k - kk folds of 2^k: none once they are used up. */
  function Count(kk: int): nat {
    if kk < 0 then 0 else Two(kk)
  }

  /** One fold with the challenge of level i; a single generator has no halves. */
  function FoldWith<P>(c: Curve<P>, ipp: InnerProdArg<P>, kk: int, w: Work<P>, i: nat): (r: Work<P>)
    requires |w.g| == |w.h| == Count(kk) && i < |ipp.challenges| && i < |ipp.l| && i < |ipp.r|
    ensures |r.g| == |r.h| == Count(kk - 1)
  {
    var x := ipp.challenges[i];
    var p := FoldP(c, x, ipp.l[i], ipp.r[i], w.p);
    if kk <= 0 then Work([], [], p)
    else Work(FoldG(c, Two(kk - 1), w.g, x), FoldH(c, Two(kk - 1), w.h, x), p)
  }

  /** All levels below n folded, the highest first. */
  ghost function Down<P>(c: Curve<P>, ipp: InnerProdArg<P>, kk: int, w: Work<P>, n: nat): (r: Work<P>)
    requires |w.g| == |w.h| == Count(kk) && Leveled(ipp) && n <= Levels(ipp)
    ensures |r.g| == |r.h| == Count(kk - n)
    decreases n
  {
    if n == 0 then w else Down(c, ipp, kk - 1, FoldWith(c, ipp, kk, w, n - 1), n - 1)
  }

  /** The folds of the verifier: the first points that are left, unless a challenge is wrong or the vectors run out. */
  method FoldDown<P(!new)>(c: Curve<P>, g: seq<P>, h: seq<P>, p: P, ipp: InnerProdArg<P>, ghost k: nat)
    returns (ok: bool, gprime: seq<P>, hprime: seq<P>, pprime: P)
    requires |g| == |h| == Two(k) && Leveled(ipp)
    ensures ok <==> PairsMatch(c, ipp, 0)
    ensures ok ==> Folded(c, k, Levels(ipp), g, h, p, ipp, gprime, hprime, pprime)
  {
    ghost var last := Down(c, ipp, k, Work(g, h, p), Levels(ipp));
    ok, gprime, hprime, pprime := FoldLoop(c, g, h, p, ipp, k, last);
    ghost var folded := DownFolds(c, k, Work(g, h, p), ipp, Levels(ipp));
  }

  /** With n levels to go: the challenges above are right, and folding on ends in `last`. */
  ghost predicate Ongoing<P>(c: Curve<P>, ipp: InnerProdArg<P>, kk: int, w: Work<P>, n: nat, last: Work<P>) {
    && Leveled(ipp) && n <= Levels(ipp) && |w.g| == |w.h| == Count(kk)
    && Down(c, ipp, kk, w, n) == last && PairsMatch(c, ipp, n)
  }

  /** The loop of the verifier: check each challenge, fold with it. */
  method FoldLoop<P(!new)>(c: Curve<P>, g: seq<P>, h: seq<P>, p: P, ipp: InnerProdArg<P>, ghost k: int,
                           ghost last: Work<P>)
    returns (ok: bool, gprime: seq<P>, hprime: seq<P>, pprime: P)
    requires Leveled(ipp) && Ongoing(c, ipp, k, Work(g, h, p), Levels(ipp), last)
    ensures if ok then Ongoing(c, ipp, k - Levels(ipp), Work(gprime, hprime, pprime), 0, last)
            else !PairsMatch(c, ipp, 0)
  {
    gprime, hprime, pprime := g, h, p;
    var curIt := |ipp.challenges| - 2;
    ghost var kk := k;
    while curIt >= 0
      invariant curIt >= -1 && kk - curIt == k - Levels(ipp) + 1
      invariant Ongoing(c, ipp, kk, Work(gprime, hprime, pprime), curIt + 1, last)
    {
      ok, gprime, hprime, pprime := FoldTurn(c, gprime, hprime, pprime, ipp, curIt, kk, last);
      if !ok {
        return;
      }
      curIt, kk := curIt - 1, kk - 1;
    }
    ok := true;
  }

  /** One turn of the loop: check the challenge of a level, and fold with it. */
  method FoldTurn<P(!new)>(c: Curve<P>, g: seq<P>, h: seq<P>, p: P, ipp: InnerProdArg<P>, i: nat, ghost kk: int,
                           ghost last: Work<P>)
    returns (ok: bool, gprime: seq<P>, hprime: seq<P>, pprime: P)
    requires Leveled(ipp) && Ongoing(c, ipp, kk, Work(g, h, p), i + 1, last)
    ensures if ok then Ongoing(c, ipp, kk - 1, Work(gprime, hprime, pprime), i, last) else !PairsMatch(c, ipp, 0)
  {
    if !PairMatches(c, ipp, i) {
      return false, g, h, p;
    }
    MatchOneMore(c, ipp, i);
    ok := true;
    gprime, hprime, pprime := FoldOnce(c, g, h, p, ipp, i, kk, last);
  }

  /** Fold with the checked challenge. */
  method FoldOnce<P(!new)>(c: Curve<P>, g: seq<P>, h: seq<P>, p: P, ipp: InnerProdArg<P>, i: nat, ghost kk: int,
                           ghost last: Work<P>)
    returns (gprime: seq<P>, hprime: seq<P>, pprime: P)
    requires |g| == |h| == Count(kk) && Leveled(ipp) && i < Levels(ipp)
    requires Down(c, ipp, kk, Work(g, h, p), i + 1) == last
    ensures |gprime| == |hprime| == Count(kk - 1)
    ensures Down(c, ipp, kk - 1, Work(gprime, hprime, pprime), i) == last
  {
    ghost var m := Count(kk - 1);
    assert kk > 0 ==> g[..2 * m] == g && h[..2 * m] == h;
    gprime, hprime, pprime := GenerateNewParams(c, g, h, ipp.challenges[i], ipp.l[i], ipp.r[i], p, m);
  }

  /** All levels are folded: the first points are there, unless the vectors ran out. */
  ghost predicate Folded<P>(c: Curve<P>, k: nat, j: nat, g: seq<P>, h: seq<P>, p: P, ipp: InnerProdArg<P>,
                            g': seq<P>, h': seq<P>, p': P)
    requires |g| == |h| == Two(k) && Leveled(ipp) && j <= Levels(ipp)
  {
    && |g'| == |h'| && (|g'| == 0 <==> j > k) && p' == FoldAllP(c, j, p, ipp.l, ipp.r, ipp.challenges)
    && (j <= k ==> g'[0] == FoldAllG(c, k, j, g, ipp.challenges) && h'[0] == FoldAllH(c, k, j, h, ipp.challenges))
  }

  lemma {:induction false} DownFolds<P>(c: Curve<P>, k: nat, w: Work<P>, ipp: InnerProdArg<P>, n: nat)
    returns (v: Work<P>)
    requires |w.g| == |w.h| == Two(k) && Leveled(ipp) && n <= Levels(ipp)
    ensures v == Down(c, ipp, k, w, n) && Folded(c, k, n, w.g, w.h, w.p, ipp, v.g, v.h, v.p)
  {
    v := Down(c, ipp, k, w, n);
    if n > 0 {
      var w' := FoldWith(c, ipp, k, w, n - 1);
      if k == 0 {
        DownEmpty(c, -1, w'.p, ipp, n - 1);
      } else {
        var v' := DownFolds(c, k - 1, w', ipp, n - 1);
        FoldedOnce(c, k, w, ipp, n, w', v');
      }
    }
  }

  lemma FoldedOnce<P>(c: Curve<P>, k: nat, w: Work<P>, ipp: InnerProdArg<P>, n: nat, w': Work<P>, v: Work<P>)
    requires |w.g| == |w.h| == Two(k) && Leveled(ipp) && 0 < n <= Levels(ipp) && k > 0
    requires w' == FoldWith(c, ipp, k, w, n - 1)
    requires Folded(c, k - 1, n - 1, w'.g, w'.h, w'.p, ipp, v.g, v.h, v.p)
    ensures Folded(c, k, n, w.g, w.h, w.p, ipp, v.g, v.h, v.p)
  {
  }

  /** Without generators only the commitment is folded. */
  lemma {:induction false} DownEmpty<P>(c: Curve<P>, kk: int, p: P, ipp: InnerProdArg<P>, n: nat)
    requires kk < 0 && Leveled(ipp) && n <= Levels(ipp)
    ensures Down(c, ipp, kk, Work([], [], p), n) ==
      Work([], [], FoldAllP(c, n, p, ipp.l, ipp.r, ipp.challenges))
    decreases n
  {
    if n > 0 {
      DownEmpty(c, kk - 1, FoldP(c, ipp.challenges[n - 1], ipp.l[n - 1], ipp.r[n - 1], p), ipp, n - 1);
    }
  }

  // ---------- completeness ----------

  lemma SingleSum<P(!new)>(c: Curve<P>, g: P, a: int)
    requires Laws(c)
    ensures Sum(c, [g], [a]) == c.mult(g, a)
  {
    assert [g][..0] == [] && [a][..0] == [];
    AddZero(c, c.mult(g, a));
  }

  lemma SingleDot(a: int, b: int)
    ensures Dot([a], [b]) == a * b
  {
    assert [a][..0] == [] && [b][..0] == [];
    assert Dot([], []) == 0;
  }

  lemma SingleCommit<P(!new)>(c: Curve<P>, g: P, h: P, a: int, b: int, u: P)
    requires Laws(c)
    ensures Commit(c, [g], [h], [a], [b], u) == Opened(c, g, h, a, b, u)
  {
    SingleSum(c, g, a);
    SingleSum(c, h, b);
    SingleDot(a, b);
    EqRed(c, a * b);
    MultCong(c, u, a * b, c.red(a * b));
  }

  lemma {:induction false} FoldAllPrefix<P(!new)>(c: Curve<P>, k: nat, g: seq<P>, h: seq<P>, p: P,
                                                  l: seq<P>, r: seq<P>, xs: seq<int>, l': P, r': P, x': int)
    requires Laws(c) && |g| == |h| == Two(k) && k <= |xs| && k <= |l| && k <= |r|
    ensures FoldAllG(c, k, k, g, xs + [x']) == FoldAllG(c, k, k, g, xs)
    ensures FoldAllH(c, k, k, h, xs + [x']) == FoldAllH(c, k, k, h, xs)
    ensures FoldAllP(c, k, p, l + [l'], r + [r'], xs + [x']) == FoldAllP(c, k, p, l, r, xs)
  {
    if k > 0 {
      HalfTwo(k);
      FoldAllPrefix(c, k - 1, FoldG(c, Two(k - 1), g, xs[k - 1]), FoldH(c, Two(k - 1), h, xs[k - 1]),
                    FoldP(c, xs[k - 1], l[k - 1], r[k - 1], p), l, r, xs, l', r', x');
    }
  }

  /** What an honest proof satisfies at a level. */
  ghost predicate Opens<P>(c: Curve<P>, k: nat, g: seq<P>, h: seq<P>, a: seq<int>, b: seq<int>, u: P,
                           s: InnerProdArg<P>)
    requires |g| == |h| == |a| == |b| == Two(k) && |s.l| == |s.r| == |s.challenges| == k
  {
    && (forall j :: 0 <= j < k ==> s.challenges[j] == c.hash2(s.l[j], s.r[j]))
    && FoldAllP(c, k, Commit(c, g, h, a, b, u), s.l, s.r, s.challenges) ==
       Opened(c, FoldAllG(c, k, k, g, s.challenges), FoldAllH(c, k, k, h, s.challenges), s.a, s.b, u)
  }

  /** The folds of a proof with one more level on top. */
  lemma FoldTop<P(!new)>(c: Curve<P>, k: nat, g: seq<P>, h: seq<P>, p: P, l: P, r: P, x: int, rest: InnerProdArg<P>)
    requires Laws(c) && k > 0 && |g| == |h| == Two(k)
    requires |rest.l| == |rest.r| == |rest.challenges| == k - 1
    ensures FoldAllG(c, k, k, g, rest.challenges + [x]) ==
      FoldAllG(c, k - 1, k - 1, FoldG(c, Two(k - 1), g, x), rest.challenges)
    ensures FoldAllH(c, k, k, h, rest.challenges + [x]) ==
      FoldAllH(c, k - 1, k - 1, FoldH(c, Two(k - 1), h, x), rest.challenges)
    ensures FoldAllP(c, k, p, rest.l + [l], rest.r + [r], rest.challenges + [x]) ==
      FoldAllP(c, k - 1, FoldP(c, x, l, r, p), rest.l, rest.r, rest.challenges)
  {
    FoldAllPrefix(c, k - 1, FoldG(c, Two(k - 1), g, x), FoldH(c, Two(k - 1), h, x), FoldP(c, x, l, r, p), rest.l,
                  rest.r, rest.challenges, l, r, x);
  }

  /** The folded commitment of an honest proof opens to its last scalars. */
  lemma {:induction false} ProveSubOpens<P(!new)>(c: Curve<P>, k: nat, g: seq<P>, h: seq<P>, a: seq<int>, b: seq<int>,
                                                  u: P)
    requires Laws(c) && |g| == |h| == |a| == |b| == Two(k)
    requires var s := ProveSub(c, k, g, h, a, b, u); Invertible(c, k, s.l, s.r)
    ensures Opens(c, k, g, h, a, b, u, ProveSub(c, k, g, h, a, b, u))
  {
    if k == 0 {
      assert g == [g[0]] && h == [h[0]] && a == [a[0]] && b == [b[0]];
      SingleCommit(c, g[0], h[0], a[0], b[0], u);
    } else {
      HalfTwo(k);
      var l, r := LeftPoint(c, Two(k - 1), g, h, a, b, u), RightPoint(c, Two(k - 1), g, h, a, b, u);
      var x := c.hash2(l, r);
      var fg, fh := FoldG(c, Two(k - 1), g, x), FoldH(c, Two(k - 1), h, x);
      var fa, fb := FoldA(c, Two(k - 1), a, x, c.inv(x)), FoldA(c, Two(k - 1), b, c.inv(x), x);
      var rest := ProveSub(c, k - 1, fg, fh, fa, fb, u);
      InvertibleSplit(c, rest.l, rest.r, l, r);
      ProveSubOpens(c, k - 1, fg, fh, fa, fb, u);
      OpensUp(c, k, g, h, a, b, u, l, r, x, rest);
    }
  }

  /** One level on top of a proof that opens. */
  lemma OpensUp<P(!new)>(c: Curve<P>, k: nat, g: seq<P>, h: seq<P>, a: seq<int>, b: seq<int>, u: P, l: P, r: P, x: int,
                         rest: InnerProdArg<P>)
    requires Laws(c) && k > 0 && |g| == |h| == |a| == |b| == 2 * Two(k - 1)
    requires var m := Two(k - 1); l == LeftPoint(c, m, g, h, a, b, u) && r == RightPoint(c, m, g, h, a, b, u)
    requires x == c.hash2(l, r) && c.red(x) != 0 && |rest.l| == |rest.r| == |rest.challenges| == k - 1
    requires var m := Two(k - 1);
      Opens(c, k - 1, FoldG(c, m, g, x), FoldH(c, m, h, x), FoldA(c, m, a, x, c.inv(x)), FoldA(c, m, b, c.inv(x), x), u,
            rest)
    ensures Opens(c, k, g, h, a, b, u, Extend(rest, l, r, x))
  {
    FoldCommit(c, Two(k - 1), g, h, a, b, u, x);
    FoldTop(c, k, g, h, Commit(c, g, h, a, b, u), l, r, x, rest);
  }

  lemma InvertibleSplit<P>(c: Curve<P>, l: seq<P>, r: seq<P>, l': P, r': P)
    requires |l| == |r| && Invertible(c, |l| + 1, l + [l'], r + [r'])
    ensures Invertible(c, |l|, l, r) && c.red(c.hash2(l', r')) != 0
  {
    var ls, rs := l + [l'], r + [r'];
    assert forall j :: 0 <= j < |l| ==> ls[j] == l[j] && rs[j] == r[j];
    assert ls[|l|] == l' && rs[|l|] == r';
  }

  /** Completeness: for all vectors of length 2^k with P = <a,G> + <b,H> and cc = <a,b>, the proof that
      InnerProductProve makes is accepted. */
  lemma InnerProductComplete<P(!new)>(c: Curve<P>, k: nat, cc: int, p: P, u: P, g: seq<P>, h: seq<P>,
                                      a: seq<int>, b: seq<int>)
    requires Laws(c) && |g| == |h| == |a| == |b| == Two(k)
    requires p == Commit2(c, g, h, a, b) && Eq(c, cc, Dot(a, b))
    requires var proof := Prove(c, k, p, u, g, h, a, b); Invertible(c, k, proof.l, proof.r)
    ensures var proof := Prove(c, k, p, u, g, h, a, b);
      Leveled(proof) && Levels(proof) == k && Verdict(c, k, cc, p, u, g, h, proof)
  {
    var ux := c.mult(u, c.hash1(p));
    var sub := ProveSub(c, k, g, h, a, b, ux);
    ProveSubOpens(c, k, g, h, a, b, ux);
    MultCong(c, ux, cc, Dot(a, b));
    TopChallenge(c, k, g, h, c.add(p, c.mult(ux, cc)), sub.l, sub.r, sub.challenges, c.hash1(p));
  }

  lemma {:induction false} TopChallenge<P(!new)>(c: Curve<P>, k: nat, g: seq<P>, h: seq<P>, p: P,
                                                 l: seq<P>, r: seq<P>, xs: seq<int>, x': int)
    requires Laws(c) && |g| == |h| == Two(k) && k <= |xs| && k <= |l| && k <= |r|
    ensures FoldAllG(c, k, k, g, xs + [x']) == FoldAllG(c, k, k, g, xs)
    ensures FoldAllH(c, k, k, h, xs + [x']) == FoldAllH(c, k, k, h, xs)
    ensures FoldAllP(c, k, p, l, r, xs + [x']) == FoldAllP(c, k, p, l, r, xs)
  {
    if k > 0 {
      HalfTwo(k);
      TopChallenge(c, k - 1, FoldG(c, Two(k - 1), g, xs[k - 1]), FoldH(c, Two(k - 1), h, xs[k - 1]),
                   FoldP(c, xs[k - 1], l[k - 1], r[k - 1], p), l, r, xs, x');
    }
  }
}
