/**
 * The branch-free arithmetic of src/env.rs: distances between order hints that wrap around, and the
 * rounding of motion vectors.
 */
module EnvArith {
  import opened Bits

  // ----- Bitwise and -----

  /** `a & b` on two's complement integers. */
  function And(a: int, b: int): int
    decreases Abs(b)
  {
    if b == 0 then 0
    else if b == -1 then a
    else 2 * And(a / 2, b / 2) + (a % 2) * (b % 2)
  }

  /** Dividing by two first. */
  lemma HalfFirst(v: int, m: int)
    requires m > 0
    ensures v / (2 * m) == v / 2 / m && v % (2 * m) == 2 * (v / 2 % m) + v % 2
  {
    var q, r := v / 2 / m, 2 * (v / 2 % m) + v % 2;
    assert v / 2 == q * m + v / 2 % m;
    assert v == q * (2 * m) + r by {
      assert q * (2 * m) == 2 * (q * m);
    }
    DivUnique(v, 2 * m, q, r);
  }

  lemma {:induction false} AndLow(v: int, k: nat)
    ensures And(v, Pow2(k) - 1) == v % Pow2(k)
    decreases k
  {
    if k == 0 {
      LowOfOne(v, Pow2(k));
    } else {
      AndLow(v / 2, k - 1);
      LowOfTwice(v, Pow2(k - 1), Pow2(k));
    }
  }

  lemma LowOfOne(v: int, n: int)
    requires n == 1
    ensures And(v, n - 1) == v % n && And(v, 0 - n) == v - v % n
  {
  }

  lemma LowOfTwice(v: int, m: int, n: int)
    requires m > 0 && n == 2 * m && And(v / 2, m - 1) == v / 2 % m
    ensures And(v, n - 1) == v % n
  {
    AndOdd(v, m - 1, n - 1);
    LowDoubled(v, m);
  }

  lemma AndOdd(a: int, b: int, c: int)
    requires c >= 0 && c == 2 * b + 1
    ensures And(a, c) == 2 * And(a / 2, b) + a % 2
  {
    assert c / 2 == b && c % 2 == 1;
    AndStep(a, c);
  }

  lemma LowDoubled(v: int, m: int)
    requires m > 0
    ensures 2 * (v / 2 % m) + v % 2 == v % (2 * m)
  {
    HalfFirst(v, m);
  }

  lemma AndStep(a: int, b: int)
    requires b != 0 && b != -1
    ensures And(a, b) == 2 * And(a / 2, b / 2) + (a % 2) * (b % 2)
  {
  }

  lemma {:induction false} AndOneBit(v: int, k: nat)
    ensures And(v, Pow2(k)) == v / Pow2(k) % 2 * Pow2(k)
    decreases k
  {
    AndStep(v, Pow2(k));
    if k == 0 {
      assert Pow2(0) == 1 && And(v / 2, 0) == 0;
    } else {
      AndOneBit(v / 2, k - 1);
      OneBitDoubled(v, Pow2(k - 1));
      HalfOfDouble(Pow2(k - 1));
    }
  }

  lemma HalfOfDouble(m: int)
    ensures (2 * m) / 2 == m && (2 * m) % 2 == 0
  {
  }

  lemma OneBitDoubled(v: int, m: int)
    requires m > 0
    ensures v / (2 * m) % 2 * (2 * m) == 2 * (v / 2 / m % 2 * m)
  {
    HalfFirst(v, m);
    assert v / 2 / m % 2 * (2 * m) == 2 * (v / 2 / m % 2 * m);
  }

  /** `a & !(2^k - 1)`. */
  lemma {:induction false} AndClear(v: int, k: nat)
    ensures And(v, 0 - Pow2(k)) == v - v % Pow2(k)
    decreases k
  {
    if k == 0 {
      LowOfOne(v, Pow2(k));
    } else {
      AndClear(v / 2, k - 1);
      ClearOfTwice(v, Pow2(k - 1), Pow2(k));
    }
  }

  lemma ClearOfTwice(v: int, m: int, n: int)
    requires m > 0 && n == 2 * m && And(v / 2, 0 - m) == v / 2 - v / 2 % m
    ensures And(v, 0 - n) == v - v % n
  {
    AndEven(v, 0 - m, 0 - n);
    LowDoubled(v, m);
    assert v == 2 * (v / 2) + v % 2;
  }

  lemma AndEven(a: int, b: int, c: int)
    requires b != 0 && c == 2 * b
    ensures And(a, c) == 2 * And(a / 2, b)
  {
    HalfOfDouble(b);
    AndStep(a, c);
  }

  // ----- get_poc_diff -----

  function GetPocDiff(orderHintNBits: nat, poc0: int, poc1: int): int {
    if orderHintNBits == 0 then 0 else
    var mask := Pow2(orderHintNBits - 1);
    var diff := poc0 - poc1;
    And(diff, mask - 1) - And(diff, mask)
  }

  /** Without order hints all distances are zero. */
  lemma PocDiffWithoutHints(poc0: int, poc1: int)
    ensures GetPocDiff(0, poc0, poc1) == 0
  {
  }

  /** Equal modulo `n`. */
  predicate Congruent(a: int, b: int, n: int)
    requires n > 0
  {
    (a - b) % n == 0
  }

  predicate IsSigned(r: int, m: int) {
    0 - m <= r < m
  }

  lemma MultipleIsCongruent(a: int, b: int, n: int, k: int)
    requires n > 0 && a - b == k * n
    ensures Congruent(a, b, n)
  {
    DivUnique(a - b, n, k, 0);
  }

  lemma CongruentIsMultiple(a: int, b: int, n: int) returns (k: int)
    requires n > 0 && Congruent(a, b, n)
    ensures a - b == k * n
  {
    k := (a - b) / n;
  }

  /** A residue as the masks compute it: the low bits, less the top one. */
  lemma SignedResidue(d: int, m: int, q: int, low: int, h: int, b: int)
    requires m > 0 && d == q * m + low && 0 <= low < m && q == 2 * h + b && 0 <= b < 2
    ensures IsSigned(low - b * m, m) && Congruent(low - b * m, d, 2 * m)
  {
    var k := 0 - (h + b);
    assert q * m + b * m == (q + b) * m;
    assert q + b == 2 * (h + b);
    DoubledProduct(h + b, m);
    MultipleIsCongruent(low - b * m, d, 2 * m, k);
  }

  lemma DoubledProduct(a: int, m: int)
    ensures 2 * a * m == a * (2 * m) && (0 - a) * (2 * m) == 0 - a * (2 * m)
  {
  }

  /** Two residues in the same window of `n` are equal. */
  lemma SameResidue(r1: int, r2: int, d: int, n: int)
    requires n > 0 && Congruent(r1, d, n) && Congruent(r2, d, n) && Abs(r1 - r2) < n
    ensures r1 == r2
  {
    var k1 := CongruentIsMultiple(r1, d, n);
    var k2 := CongruentIsMultiple(r2, d, n);
    assert (k1 - k2) * n == k1 * n - k2 * n;
    SmallMultiple(k1 - k2, n, r1 - r2);
  }

  /** The low bits, less the top one. */
  ghost function Residue(d: int, m: int): int
    requires m > 0
  {
    d % m - d / m % 2 * m
  }

  lemma ResidueIsSigned(d: int, m: int)
    requires m > 0
    ensures IsSigned(Residue(d, m), m) && Congruent(Residue(d, m), d, 2 * m)
  {
    SignedResidue(d, m, d / m, d % m, d / m / 2, d / m % 2);
  }

  lemma MaskedDifference(d: int, k: nat)
    ensures And(d, Pow2(k) - 1) - And(d, Pow2(k)) == Residue(d, Pow2(k))
  {
    AndLow(d, k);
    AndOneBit(d, k);
  }

  /** The distance is the signed residue of the difference: congruent to it, and in range. */
  lemma PocDiffIsResidue(bits: nat, poc0: int, poc1: int)
    requires bits > 0
    ensures IsSigned(GetPocDiff(bits, poc0, poc1), Pow2(bits - 1))
    ensures Congruent(GetPocDiff(bits, poc0, poc1), poc0 - poc1, Pow2(bits))
  {
    MaskedDifference(poc0 - poc1, bits - 1);
    ResidueInPow2(GetPocDiff(bits, poc0, poc1), poc0 - poc1, bits - 1);
  }

  lemma ResidueInPow2(r: int, d: int, k: nat)
    requires r == Residue(d, Pow2(k))
    ensures IsSigned(r, Pow2(k)) && Congruent(r, d, Pow2(k + 1))
  {
    ResidueIsSigned(d, Pow2(k));
  }

  /** And it is the only one. */
  lemma PocDiffIsUnique(bits: nat, poc0: int, poc1: int, r: int)
    requires bits > 0 && IsSigned(r, Pow2(bits - 1)) && Congruent(r, poc0 - poc1, Pow2(bits))
    ensures r == GetPocDiff(bits, poc0, poc1)
  {
    PocDiffIsResidue(bits, poc0, poc1);
    SameResidue(r, GetPocDiff(bits, poc0, poc1), poc0 - poc1, Pow2(bits));
  }

  lemma CongruentShifts(r: int, d: int, n: int, a: int, b: int)
    requires n > 0 && Congruent(r, d, n) && a % n == 0 && b % n == 0
    ensures Congruent(r, d + a - b, n)
  {
    var k := CongruentIsMultiple(r, d, n);
    var i, j := a / n, b / n;
    assert (k - i + j) * n == k * n - i * n + j * n;
    MultipleIsCongruent(r, d + a - b, n, k - i + j);
  }

  lemma CongruentNegates(r: int, d: int, n: int)
    requires n > 0 && Congruent(r, d, n)
    ensures Congruent(0 - r, 0 - d, n)
  {
    var k := CongruentIsMultiple(r, d, n);
    assert (0 - k) * n == 0 - k * n;
    MultipleIsCongruent(0 - r, 0 - d, n, 0 - k);
  }

  /** Hints that have wrapped around, any number of times, are as far apart as before. */
  lemma PocDiffWraps(bits: nat, poc0: int, poc1: int, a: int, b: int)
    requires bits > 0 && a % Pow2(bits) == 0 && b % Pow2(bits) == 0
    ensures GetPocDiff(bits, poc0 + a, poc1 + b) == GetPocDiff(bits, poc0, poc1)
  {
    PocDiffIsResidue(bits, poc0, poc1);
    CongruentShifts(GetPocDiff(bits, poc0, poc1), poc0 - poc1, Pow2(bits), a, b);
    PocDiffIsUnique(bits, poc0 + a, poc1 + b, GetPocDiff(bits, poc0, poc1));
  }

  /** Swapping the hints negates the distance, except for the one distance that has no opposite. */
  lemma PocDiffAntisymmetric(bits: nat, poc0: int, poc1: int)
    requires bits > 0
    ensures GetPocDiff(bits, poc1, poc0) == 0 - GetPocDiff(bits, poc0, poc1) <==>
            GetPocDiff(bits, poc0, poc1) != 0 - Pow2(bits - 1)
  {
    var r := GetPocDiff(bits, poc0, poc1);
    PocDiffIsResidue(bits, poc0, poc1);
    PocDiffIsResidue(bits, poc1, poc0);
    if r != 0 - Pow2(bits - 1) {
      CongruentNegates(r, poc0 - poc1, Pow2(bits));
      PocDiffIsUnique(bits, poc1, poc0, 0 - r);
    }
  }

  // ----- Motion vectors -----

  predicate IsI16(v: int) {
    -0x8000 <= v < 0x8000
  }

  const NOT_7: int := -8

  const NOT_1: int := -2

  /** Sixteen-bit arithmetic as release builds have it; debug builds panic where this wraps. */
  function Wrap16(v: int): int {
    (v + 0x8000) % 0x1_0000 - 0x8000
  }

  /** `(v - (v >> 15) + 3) & !7`. */
  function FixInt(v: int): int {
    And(Wrap16(v - Shr(v, 15) + 3), NOT_7)
  }

  /** `(v - (v >> 15)) & !1`. */
  function FixHp(v: int): int {
    And(v - Shr(v, 15), NOT_1)
  }

  lemma SignShift(v: int)
    requires IsI16(v)
    ensures Shr(v, 15) == if v < 0 then -1 else 0
  {
    assert Pow2(15) == 0x8000;
    ShrIs(v, 15, if v < 0 then -1 else 0);
  }

  lemma ShrIs(v: int, n: nat, q: int)
    requires q * Pow2(n) <= v < (q + 1) * Pow2(n)
    ensures Shr(v, n) == q
  {
    ShrAtLeast(v, n, q);
    ShrBelow(v, n, q + 1);
  }

  /** The nearest multiple of `unit`, the one towards zero when two are as near. */
  predicate RoundsTo(v: int, unit: int, r: int)
    requires unit > 0
  {
    r % unit == 0 && 2 * Abs(r - v) <= unit && (2 * Abs(r - v) == unit ==> Abs(r) < Abs(v))
  }

  /** `sign(v) * (((|v| + 3) >> 3) << 3)`. */
  function PlainInt(v: int): int {
    ApplySign((Abs(v) + 3) / 8 * 8, v)
  }

  /** The sum before the mask stays in sixteen bits except for the three largest components. */
  lemma WrapsAtTop(v: int)
    requires IsI16(v)
    ensures v < 0x7ffd ==> Wrap16(v - Shr(v, 15) + 3) == v - Shr(v, 15) + 3
    ensures v >= 0x7ffd ==> Wrap16(v - Shr(v, 15) + 3) == v + 3 - 0x1_0000
  {
    SignShift(v);
  }

  /** The mask without the wrap, on a sum that is already there. */
  lemma FixIntIs(v: int, w: int)
    requires IsI16(v) && v < 0x7ffd && w == v + 3 + if v < 0 then 1 else 0
    ensures FixInt(v) == w - w % 8
  {
    SignShift(v);
    WrapsAtTop(v);
    ClearThree(w);
  }

  lemma FixIntInRange(v: int)
    requires IsI16(v) && v < 0x7ffd
    ensures RoundsTo(v, 8, FixInt(v)) && FixInt(v) == PlainInt(v) && IsI16(FixInt(v))
  {
    var w := v + 3 + if v < 0 then 1 else 0;
    FixIntIs(v, w);
    RoundedSum(v, w, FixInt(v));
  }

  lemma RoundedSum(v: int, w: int, r: int)
    requires IsI16(v) && v < 0x7ffd && w == v + 3 + (if v < 0 then 1 else 0) && r == w - w % 8
    ensures RoundsTo(v, 8, r) && r == PlainInt(v) && IsI16(r)
  {
    if v < 0 {
      RoundNegative(v, w / 8, w % 8);
    } else {
      RoundPositive(v, w / 8, w % 8);
    }
  }

  lemma FixIntAtTop(v: int)
    requires 0x7ffd <= v < 0x8000
    ensures FixInt(v) == -0x8000
  {
    var w := v + 3 - 0x1_0000;
    WrapsAtTop(v);
    ClearThree(w);
    DivUnique(w, 8, -0x1000, v - 0x7ffd);
  }

  /** An integer vector component becomes the nearest multiple of eight, ties towards zero, unless it
      is one of the three largest, which wrap around to the smallest. */
  lemma FixIntRounds(v: int)
    requires IsI16(v)
    ensures IsI16(FixInt(v)) && (RoundsTo(v, 8, FixInt(v)) <==> v < 0x7ffd)
    ensures FixInt(v) == if v < 0x7ffd then PlainInt(v) else -0x8000
  {
    if v < 0x7ffd {
      FixIntInRange(v);
    } else {
      FixIntAtTop(v);
    }
  }

  lemma RoundPositive(v: int, q: int, low: int)
    requires v >= 0 && v + 3 == 8 * q + low && 0 <= low < 8
    ensures RoundsTo(v, 8, 8 * q) && (v + 3) / 8 * 8 == 8 * q
  {
    DivUnique(8 * q, 8, q, 0);
    DivUnique(v + 3, 8, q, low);
  }

  lemma RoundNegative(v: int, q: int, low: int)
    requires v < 0 && v + 4 == 8 * q + low && 0 <= low < 8
    ensures RoundsTo(v, 8, 8 * q) && -((-v + 3) / 8 * 8) == 8 * q
  {
    DivUnique(8 * q, 8, q, 0);
    DivUnique(-v + 3, 8, -q, 7 - low);
  }

  lemma ClearThree(v: int)
    ensures And(v, NOT_7) == v - v % 8
  {
    assert Pow2(3) == 8;
    AndClear(v, 3);
  }

  lemma ClearOne(v: int)
    ensures And(v, NOT_1) == v - v % 2
  {
    assert Pow2(1) == 2;
    AndClear(v, 1);
  }

  lemma FixIntIsOdd(v: int)
    requires -0x7ffd < v < 0x7ffd
    ensures FixInt(-v) == -FixInt(v)
  {
    FixIntRounds(v);
    FixIntRounds(-v);
    PlainIntIsOdd(v);
  }

  lemma PlainIntIsOdd(v: int)
    ensures PlainInt(-v) == -PlainInt(v)
  {
    assert Abs(-v) == Abs(v);
    assert v == 0 ==> (Abs(v) + 3) / 8 * 8 == 0;
  }

  /** Without the high precision bit a component is truncated to an even number. */
  lemma FixHpTruncates(v: int)
    requires IsI16(v)
    ensures RoundsTo(v, 2, FixHp(v)) && IsI16(FixHp(v))
    ensures FixHp(v) == if v < 0 then -(-v / 2 * 2) else v / 2 * 2
  {
    SignShift(v);
    ClearOne(v - Shr(v, 15));
  }

  lemma FixHpIsOdd(v: int)
    requires IsI16(v) && IsI16(-v)
    ensures FixHp(-v) == -FixHp(v)
  {
    FixHpTruncates(v);
    FixHpTruncates(-v);
  }

  class Mv {
    var y: int
    var x: int

    constructor (y: int, x: int)
      ensures this.y == y && this.x == x
    {
      this.y, this.x := y, x;
    }

    ghost predicate IsMv()
      reads this
    {
      IsI16(y) && IsI16(x)
    }

    method FixIntMvPrecision()
      requires IsMv()
      modifies this
      ensures IsMv()
      ensures if old(x) < 0x7ffd then RoundsTo(old(x), 8, x) else x == -0x8000
      ensures if old(y) < 0x7ffd then RoundsTo(old(y), 8, y) else y == -0x8000
      ensures RoundsTo(old(x), 8, x) <==> old(x) < 0x7ffd
      ensures RoundsTo(old(y), 8, y) <==> old(y) < 0x7ffd
    {
      FixIntRounds(x);
      FixIntRounds(y);
      x := FixInt(x);
      y := FixInt(y);
    }

    /** `fix_mv_precision`: to whole samples, to quarter samples, or not at all. */
    method FixMvPrecision(forceIntegerMv: bool, hp: bool)
      requires IsMv()
      modifies this
      ensures IsMv()
      ensures forceIntegerMv ==> if old(x) < 0x7ffd then RoundsTo(old(x), 8, x) else x == -0x8000
      ensures forceIntegerMv ==> if old(y) < 0x7ffd then RoundsTo(old(y), 8, y) else y == -0x8000
      ensures forceIntegerMv ==> (RoundsTo(old(x), 8, x) <==> old(x) < 0x7ffd)
      ensures forceIntegerMv ==> (RoundsTo(old(y), 8, y) <==> old(y) < 0x7ffd)
      ensures !forceIntegerMv && !hp ==> RoundsTo(old(x), 2, x) && RoundsTo(old(y), 2, y)
      ensures !forceIntegerMv && hp ==> x == old(x) && y == old(y)
    {
      if forceIntegerMv {
        FixIntMvPrecision();
      } else if !hp {
        FixHpTruncates(x);
        FixHpTruncates(y);
        x := FixHp(x);
        y := FixHp(y);
      }
    }
  }

  /** Only one value qualifies as the rounded one. */
  lemma RoundsToUnique(v: int, unit: int, r1: int, r2: int)
    requires unit > 0 && RoundsTo(v, unit, r1) && RoundsTo(v, unit, r2)
    ensures r1 == r2
  {
    SameResidue(r1, r2, 0, unit);
  }
}
