/**
 * Integer helpers shared by the models: shifts are repeated floor halvings,
 * which is what `>>` does on the signed integers of the source.
 */
module Bits {

  function Abs(v: int): nat {
    if v < 0 then -v else v
  }

  function Min(a: int, b: int): int {
    if a <= b then a else b
  }

  function Max(a: int, b: int): int {
    if a >= b then a else b
  }

  function Clip3(lo: int, hi: int, v: int): int {
    if v < lo then lo else if v > hi then hi else v
  }

  /** `apply_sign` of the source: the magnitude `v` with the sign of `s`. */
  function ApplySign(v: int, s: int): int {
    if s < 0 then -v else v
  }

  function Pow2(n: nat): (r: nat)
    ensures r > 0
  {
    if n == 0 then 1 else 2 * Pow2(n - 1)
  }

  /** `ilog2` and `ulog2` of a positive value. */
  function FloorLog2(v: int): (r: nat)
    requires v > 0
    ensures Pow2(r) <= v < 2 * Pow2(r)
  {
    if v == 1 then 0 else FloorLog2(v / 2) + 1
  }

  /** `v >> n`: n times the floor of half the value. */
  function Shr(v: int, n: nat): int
    decreases n
  {
    if n == 0 then v else Shr(v / 2, n - 1)
  }

  lemma {:induction false} ShrAtLeast(v: int, n: nat, q: int)
    requires q * Pow2(n) <= v
    ensures q <= Shr(v, n)
    decreases n
  {
    if n > 0 {
      assert q * Pow2(n) == 2 * (q * Pow2(n - 1));
      ShrAtLeast(v / 2, n - 1, q);
    }
  }

  lemma {:induction false} ShrBelow(v: int, n: nat, q: int)
    requires v < q * Pow2(n)
    ensures Shr(v, n) < q
    decreases n
  {
    if n > 0 {
      assert q * Pow2(n) == 2 * (q * Pow2(n - 1));
      ShrBelow(v / 2, n - 1, q);
    }
  }

  lemma {:induction false} Pow2Add(a: nat, b: nat)
    ensures Pow2(a + b) == Pow2(a) * Pow2(b)
  {
    if a > 0 {
      Pow2Add(a - 1, b);
      assert Pow2(a + b) == 2 * Pow2(a - 1 + b);
    }
  }

  lemma {:induction false} Pow2Monotone(a: nat, b: nat)
    requires a <= b
    ensures Pow2(a) <= Pow2(b)
  {
    if a < b {
      Pow2Monotone(a, b - 1);
    }
  }

  /** Powers of two order their exponents. */
  lemma {:induction false} Pow2Inverse(a: nat, b: nat)
    requires Pow2(a) < 2 * Pow2(b)
    ensures a <= b
  {
    if a > 0 && b > 0 {
      Pow2Inverse(a - 1, b - 1);
    }
  }

  /** Halving n times is dividing by 2^n. */
  lemma ShrIsDiv(v: int, n: nat)
    ensures Shr(v, n) == v / Pow2(n)
  {
    var q := v / Pow2(n);
    assert q * Pow2(n) <= v < q * Pow2(n) + Pow2(n);
    assert (q + 1) * Pow2(n) == q * Pow2(n) + Pow2(n);
    ShrAtLeast(v, n, q);
    ShrBelow(v, n, q + 1);
  }

  /** The logarithm is the one exponent whose power of two has the same number of bits. */
  lemma FloorLog2Unique(v: int, k: nat)
    requires Pow2(k) <= v < 2 * Pow2(k)
    ensures FloorLog2(v) == k
  {
    Pow2Inverse(FloorLog2(v), k);
    Pow2Inverse(k, FloorLog2(v));
  }

  lemma FloorLog2Monotone(a: int, b: int)
    requires 0 < a <= b
    ensures FloorLog2(a) <= FloorLog2(b)
  {
    Pow2Inverse(FloorLog2(a), FloorLog2(b));
  }

  // ----- Products -----

  lemma MulMonotone(a: int, b: int, c: int)
    requires a <= b && c >= 0
    ensures a * c <= b * c
  {
  }

  lemma SmallMultiple(n: int, d: int, v: int)
    requires n * d == v && Abs(v) < Abs(d)
    ensures n == 0 && v == 0
  {
    AbsProduct(n, d);
    if n != 0 {
      MulGrows(Abs(n), Abs(d));
    }
  }

  lemma AbsProduct(n: int, d: int)
    ensures Abs(n * d) == Abs(n) * Abs(d)
  {
  }

  lemma MulGrows(n: int, d: int)
    requires n >= 1 && d >= 0
    ensures n * d >= d
  {
  }

  lemma MulInverse(a: int, b: int, c: int)
    requires c > 0 && a * c < b * c
    ensures a < b
  {
    if b <= a {
      MulMonotone(b, a, c);
    }
  }

  /** Quotient and remainder are determined by what they make up. */
  lemma DivUnique(v: int, c: int, q: int, r: int)
    requires c > 0 && v == q * c + r && 0 <= r < c
    ensures v / c == q && v % c == r
  {
    assert (v / c - q) * c == r - v % c;
    SmallMultiple(v / c - q, c, r - v % c);
  }
}
