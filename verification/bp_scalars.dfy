/** Integers modulo the group order. */
module Scalars {

  ghost predicate Cg(n: int, a: int, b: int)
    requires n > 0
  {
    a % n == b % n
  }

  lemma CgIntro(n: int, a: int, b: int, k: int)
    requires n > 0 && a == b + k * n
    ensures Cg(n, a, b)
  {
    var q, r := b / n, b % n;
    assert a == (q + k) * n + r by { assert (q + k) * n == q * n + k * n; }
    QuotientUnique(n, a, q + k, r);
  }

  lemma QuotientUnique(n: int, a: int, q: int, r: int)
    requires n > 0 && a == q * n + r && 0 <= r < n
    ensures a / n == q && a % n == r
  {
    var q', r' := a / n, a % n;
    assert (q - q') * n == r' - r by { assert (q - q') * n == q * n - q' * n; }
    if q - q' >= 1 { assert false; }
    if q - q' <= -1 { assert false; }
  }

  lemma CgElim(n: int, a: int, b: int) returns (k: int)
    requires n > 0 && Cg(n, a, b)
    ensures a == b + k * n
  {
    k := a / n - b / n;
    assert k * n == (a / n) * n - (b / n) * n;
  }

  lemma CgAdd(n: int, a: int, b: int, c: int, d: int)
    requires n > 0 && Cg(n, a, b) && Cg(n, c, d)
    ensures Cg(n, a + c, b + d) && Cg(n, a - c, b - d)
  {
    var k := CgElim(n, a, b);
    var l := CgElim(n, c, d);
    assert (k + l) * n == k * n + l * n && (k - l) * n == k * n - l * n;
    CgIntro(n, a + c, b + d, k + l);
    CgIntro(n, a - c, b - d, k - l);
  }

  lemma CgScale(n: int, a: int, b: int, c: int)
    requires n > 0 && Cg(n, a, b)
    ensures Cg(n, a * c, b * c)
  {
    var k := CgElim(n, a, b);
    assert (b + k * n) * c == b * c + (k * n) * c;
    assert (k * n) * c == (k * c) * n;
    CgIntro(n, a * c, b * c, k * c);
  }

  lemma CgMul(n: int, a: int, b: int, c: int, d: int)
    requires n > 0 && Cg(n, a, b) && Cg(n, c, d)
    ensures Cg(n, a * c, b * d)
  {
    CgScale(n, a, b, c);
    CgScale(n, c, d, b);
    assert c * b == b * c && d * b == b * d;
  }

  lemma CgMod(n: int, a: int)
    requires n > 0
    ensures Cg(n, a % n, a)
  {
    CgIntro(n, a % n, a, -(a / n));
  }

  /** Inverses are unique up to congruence. */
  lemma InverseUnique(n: int, x: int, y: int, z: int)
    requires n > 0 && Cg(n, x * y, 1) && Cg(n, x * z, 1)
    ensures Cg(n, y, z)
  {
    CgMul(n, x * y, 1, z, z);
    CgMul(n, x * z, 1, y, y);
    assert (x * y) * z == (x * z) * y;
  }

  lemma CgInverseProduct(n: int, x: int, xi: int, y: int, yi: int)
    requires n > 0 && Cg(n, x * xi, 1) && Cg(n, y * yi, 1)
    ensures Cg(n, (x * y) * (xi * yi), 1)
  {
    CgMul(n, x * xi, 1, y * yi, 1);
    assert (x * xi) * (y * yi) == (x * y) * (xi * yi);
  }

  lemma InvertibleNonZero(n: int, x: int, xi: int)
    requires n > 1 && Cg(n, x * xi, 1)
    ensures x % n != 0
  {
    if x % n == 0 {
      CgMul(n, x, 0, xi, xi);
      assert false;
    }
  }

  function Pow(b: int, e: nat): int {
    if e == 0 then 1 else b * Pow(b, e - 1)
  }

  lemma {:induction false} PowInverse(n: int, b: int, bi: int, e: nat)
    requires n > 0 && Cg(n, b * bi, 1)
    ensures Cg(n, Pow(b, e) * Pow(bi, e), 1)
  {
    if e > 0 {
      PowInverse(n, b, bi, e - 1);
      CgInverseProduct(n, b, bi, Pow(b, e - 1), Pow(bi, e - 1));
    }
  }

  lemma {:induction false} PowAdd(b: int, d: nat, e: nat)
    ensures Pow(b, d + e) == Pow(b, d) * Pow(b, e)
  {
    if d > 0 {
      PowAdd(b, d - 1, e);
      assert b * (Pow(b, d - 1) * Pow(b, e)) == (b * Pow(b, d - 1)) * Pow(b, e);
    }
  }
}
