/** The group laws assumed of the curve have an instance, with every challenge invertible: the residues modulo 5. */
module SmallCurve {
  import opened Scalars
  import opened CurveGroup

  type Residue = x: int | 0 <= x < 5

  function Plus(p: Residue, q: Residue): Residue { if p + q < 5 then p + q else p + q - 5 }

  function Times(p: Residue, s: int): Residue { (p * s) % 5 }

  function Negate(p: Residue): Residue { if p == 0 then 0 else 5 - p }

  function Mod5(x: int): int { x % 5 }

  function Inverse(x: int): int {
    var r := x % 5;
    if r == 2 then 3 else if r == 3 then 2 else r
  }

  function Challenge(p: Residue): (x: int)
    ensures 0 < x < 5
  {
    1 + p % 4
  }

  function Challenge2(p: Residue, q: Residue): (x: int)
    ensures 0 < x < 5
  {
    1 + (p + q) % 4
  }

  function Residues(): Curve<Residue> {
    Curve(0, Plus, Times, Negate, (p: Residue) => p, 5, Mod5, Inverse, Challenge, Challenge2)
  }

  lemma Sums(p: Residue, q: Residue, r: Residue)
    ensures Plus(p, q) == Plus(q, p) && Plus(Plus(p, q), r) == Plus(p, Plus(q, r))
    ensures Plus(p, 0) == p && Plus(p, Negate(p)) == 0
  {
  }

  lemma PlusCg(p: Residue, q: Residue, a: int, b: int)
    requires Cg(5, p, a) && Cg(5, q, b)
    ensures Cg(5, Plus(p, q), a + b)
  {
    CgAdd(5, p, a, q, b);
    CgIntro(5, Plus(p, q), p + q, if p + q < 5 then 0 else -1);
  }

  lemma Same(p: Residue, q: Residue, a: int)
    requires Cg(5, p, a) && Cg(5, q, a)
    ensures p == q
  {
  }

  lemma TimesOfSum(p: Residue, s: int, t: int)
    ensures Times(p, s + t) == Plus(Times(p, s), Times(p, t))
  {
    CgMod(5, p * s);
    CgMod(5, p * t);
    PlusCg(Times(p, s), Times(p, t), p * s, p * t);
    CgMod(5, p * (s + t));
    assert p * (s + t) == p * s + p * t;
    Same(Times(p, s + t), Plus(Times(p, s), Times(p, t)), p * (s + t));
  }

  lemma SumTimes(p: Residue, q: Residue, s: int)
    ensures Times(Plus(p, q), s) == Plus(Times(p, s), Times(q, s))
  {
    CgMod(5, p * s);
    CgMod(5, q * s);
    PlusCg(Times(p, s), Times(q, s), p * s, q * s);
    PlusCg(p, q, p, q);
    CgMod(5, Plus(p, q) * s);
    CgScale(5, Plus(p, q), p + q, s);
    assert (p + q) * s == p * s + q * s;
    Same(Times(Plus(p, q), s), Plus(Times(p, s), Times(q, s)), (p + q) * s);
  }

  lemma TimesTimes(p: Residue, s: int, t: int)
    ensures Times(Times(p, s), t) == Times(p, s * t)
  {
    CgMod(5, p * s);
    CgScale(5, Times(p, s), p * s, t);
    assert (p * s) * t == p * (s * t);
  }

  lemma TimesReduced(p: Residue, s: int)
    ensures Times(p, s) == Times(p, Mod5(s)) && Times(p, 1) == p
  {
    CgMod(5, s);
    CgMul(5, p, p, Mod5(s), s);
  }

  lemma Inverses(x: int)
    ensures x % 5 != 0 ==> (x * Inverse(x)) % 5 == 1
  {
    var r, i := x % 5, Inverse(x);
    CgMod(5, x);
    CgMul(5, r, x, i, i);
    assert r != 0 ==> r * i == 1 || r * i == 6 || r * i == 16 by {
      if r == 1 { assert i == 1; }
      if r == 2 { assert i == 3; }
      if r == 3 { assert i == 2; }
      if r == 4 { assert i == 4; }
    }
  }

  ghost predicate Group<P(!new)>(c: Curve<P>) {
    && (forall p, q :: c.add(p, q) == c.add(q, p))
    && (forall p, q, r :: c.add(c.add(p, q), r) == c.add(p, c.add(q, r)))
    && (forall p :: c.add(p, c.zero) == p)
    && (forall p :: c.add(p, c.neg(p)) == c.zero)
  }

  ghost predicate Scaling<P(!new)>(c: Curve<P>) {
    && (forall p :: c.mult(p, 1) == p)
    && (forall p, s: int, t: int :: c.mult(p, s + t) == c.add(c.mult(p, s), c.mult(p, t)))
    && (forall p, s: int, t: int :: c.mult(c.mult(p, s), t) == c.mult(p, s * t))
    && (forall p, q, s: int :: c.mult(c.add(p, q), s) == c.add(c.mult(p, s), c.mult(q, s)))
    && (forall p, s: int :: c.mult(p, s) == c.mult(p, c.red(s)))
  }

  ghost predicate Modulo<P>(c: Curve<P>) {
    && c.n > 1
    && (forall x: int :: c.red(x) == x % c.n)
    && (forall x: int :: x % c.n != 0 ==> (x * c.inv(x)) % c.n == 1)
  }

  lemma Assemble<P(!new)>(c: Curve<P>)
    requires Group(c) && Scaling(c) && Modulo(c)
    ensures Laws(c)
  {
  }

  lemma ResidueGroup()
    ensures Group(Residues())
  {
    forall p: Residue, q: Residue ensures Plus(p, q) == Plus(q, p) { Sums(p, q, p); }
    forall p: Residue, q: Residue, r: Residue ensures Plus(Plus(p, q), r) == Plus(p, Plus(q, r)) { Sums(p, q, r); }
    forall p: Residue ensures Plus(p, 0) == p { Sums(p, p, p); }
    forall p: Residue ensures Plus(p, Negate(p)) == 0 { Sums(p, p, p); }
  }

  lemma ResidueScaling()
    ensures Scaling(Residues())
  {
    forall p: Residue ensures Times(p, 1) == p { TimesReduced(p, 1); }
    forall p: Residue, s: int, t: int ensures Times(p, s + t) == Plus(Times(p, s), Times(p, t)) {
      TimesOfSum(p, s, t);
    }
    forall p: Residue, s: int, t: int ensures Times(Times(p, s), t) == Times(p, s * t) { TimesTimes(p, s, t); }
    forall p: Residue, q: Residue, s: int ensures Times(Plus(p, q), s) == Plus(Times(p, s), Times(q, s)) {
      SumTimes(p, q, s);
    }
    forall p: Residue, s: int ensures Times(p, s) == Times(p, Mod5(s)) { TimesReduced(p, s); }
  }

  lemma ResidueModulo()
    ensures Modulo(Residues())
  {
    forall x: int ensures x % 5 != 0 ==> (x * Inverse(x)) % 5 == 1 { Inverses(x); }
  }

  /** No challenge is a multiple of the order. */
  lemma ChallengesInvertible(c: Curve<Residue>, p: Residue, q: Residue)
    requires c == Residues()
    ensures c.red(c.hash1(p)) != 0 && c.red(c.hash2(p, q)) != 0
  {
    var x, y := Challenge(p), Challenge2(p, q);
    assert Mod5(x) == x && Mod5(y) == y;
  }

  lemma LawsHaveAnInstance()
    ensures Laws(Residues())
    ensures var c := Residues(); (forall p :: c.red(c.hash1(p)) != 0) && forall p, q :: c.red(c.hash2(p, q)) != 0
  {
    ResidueGroup();
    ResidueScaling();
    ResidueModulo();
    Assemble(Residues());
    var c := Residues();
    forall p ensures c.red(c.hash1(p)) != 0 { ChallengesInvertible(c, p, p); }
    forall p, q ensures c.red(c.hash2(p, q)) != 0 { ChallengesInvertible(c, p, q); }
  }
}
