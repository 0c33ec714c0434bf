/**
 * The CDEF direction search of src/cdef.rs (section 7.15.2). Its integer costs hide a least-squares
 * fit: each direction splits the 8x8 block into parallel lines, and the chosen direction is the one
 * along which the block is closest to being constant.
 */
module CdefDirection {
  import opened Bits

  const NUM := 64

  /** The line of pixel `i` (row i / 8, column i % 8) in each of the eight directions. */
  function Line(d: int, i: int): int {
    var y, x := i / 8, i % 8;
    if d == 0 then y + x
    else if d == 1 then y + x / 2
    else if d == 2 then y
    else if d == 3 then 3 + y - x / 2
    else if d == 4 then 7 + y - x
    else if d == 5 then 3 - y / 2 + x
    else if d == 6 then x
    else y / 2 + x
  }

  function Lines(d: int): nat {
    if d == 0 || d == 4 then 15 else if d == 2 || d == 6 then 8 else 11
  }

  lemma LineInRange(d: int, i: int)
    requires 0 <= d < 8 && 0 <= i < NUM
    ensures 0 <= Line(d, i) < Lines(d)
  {
  }

  /** Pixels 0 .. n - 1 on line `k`: their sum and their number. */
  function LineSum(b: seq<int>, d: int, k: int, n: nat): int
    requires n <= |b|
  {
    if n == 0 then 0 else
    LineSum(b, d, k, n - 1) + if Line(d, n - 1) == k then b[n - 1] else 0
  }

  function LineLen(d: int, k: int, n: nat): nat {
    if n == 0 then 0 else LineLen(d, k, n - 1) + if Line(d, n - 1) == k then 1 else 0
  }

  /** 840 over the length of the line: what DIV_TABLE and the factor 105 amount to. */
  function Weight(d: int, k: int): int {
    if d == 0 || d == 4 then
      if k == 0 || k == 14 then 840
      else if k == 1 || k == 13 then 420
      else if k == 2 || k == 12 then 280
      else if k == 3 || k == 11 then 210
      else if k == 4 || k == 10 then 168
      else if k == 5 || k == 9 then 140
      else if k == 6 || k == 8 then 120
      else 105
    else if d == 2 || d == 6 then 105
    else
      if k == 0 || k == 10 then 420
      else if k == 1 || k == 9 then 210
      else if k == 2 || k == 8 then 140
      else 105
  }

  function Sq(v: int): int {
    v * v
  }

  function LineCost(w: int, sum: int): int {
    w * Sq(sum)
  }

  /** The weighted squares of the first `k` line sums. */
  function CostTo(b: seq<int>, d: int, k: nat): int
    requires |b| == NUM
  {
    if k == 0 then 0 else CostTo(b, d, k - 1) + LineCost(Weight(d, k - 1), LineSum(b, d, k - 1, |b|))
  }

  function Cost(b: seq<int>, d: int): int
    requires |b| == NUM
  {
    CostTo(b, d, Lines(d))
  }

  // ----- The weights are 840 over the line lengths -----

  function LenTable(d: int, k: int): int {
    if d == 0 || d == 4 then (if k <= 7 then k + 1 else 15 - k)
    else if d == 2 || d == 6 then 8
    else if k <= 3 then 2 * k + 2
    else if k >= 7 then 22 - 2 * k
    else 8
  }

  /** Row `y` meets line `k` in the columns Start .. Start + Width - 1. */
  function Start(d: int, k: int, y: int): int {
    if d == 0 then k - y
    else if d == 1 then 2 * (k - y)
    else if d == 2 then (if y == k then 0 else 8)
    else if d == 3 then 2 * (3 + y - k)
    else if d == 4 then 7 + y - k
    else if d == 5 then k - 3 + y / 2
    else if d == 6 then k
    else k - y / 2
  }

  function Width(d: int): int {
    if d == 1 || d == 3 then 2 else if d == 2 then 8 else 1
  }

  function RowCount(d: int, k: int, y: int, x: int): int {
    Max(0, Min(x, Start(d, k, y) + Width(d)) - Max(0, Start(d, k, y)))
  }

  lemma LineInRow(d: int, k: int, y: int, x: int)
    requires 0 <= d < 8 && 0 <= y && 0 <= x < 8
    ensures Line(d, 8 * y + x) == k <==> Start(d, k, y) <= x < Start(d, k, y) + Width(d)
  {
    assert (8 * y + x) / 8 == y && (8 * y + x) % 8 == x;
  }

  lemma {:induction false} RowLens(d: int, k: int, y: nat, x: nat)
    requires 0 <= d < 8 && x <= 8
    ensures LineLen(d, k, 8 * y + x) == LineLen(d, k, 8 * y) + RowCount(d, k, y, x)
  {
    if x > 0 {
      RowLens(d, k, y, x - 1);
      LineInRow(d, k, y, x - 1);
    }
  }

  lemma {:induction false} LenByRows(d: int, k: int, closed: int -> int, y: nat)
    requires 0 <= d < 8 && closed(0) == 0
    requires forall j :: 0 <= j < y ==> closed(j + 1) == closed(j) + RowCount(d, k, j, 8)
    ensures LineLen(d, k, 8 * y) == closed(y)
  {
    if y > 0 {
      LenByRows(d, k, closed, y - 1);
      RowLens(d, k, y - 1, 8);
      assert closed(y - 1 + 1) == closed(y - 1) + RowCount(d, k, y - 1, 8);
    }
  }

  /** How many of 0 .. n - 1 lie in lo .. hi. */
  function Between(n: int, lo: int, hi: int): int {
    Max(0, Min(n, hi + 1) - Max(0, lo))
  }

  /** The length of line `k` within the first `y` rows. The last two directions move one column every second row. */
  function RowsClosed(d: int, k: int, y: int): int {
    if d == 0 || d == 4 then Between(y, k - 7, k)
    else if d == 1 || d == 3 then 2 * Between(y, k - 3, k)
    else if d == 2 then 8 * Between(y, k, k)
    else if d == 6 then (if 0 <= k < 8 then y else 0)
    else if d == 5 then Between(y / 2, 3 - k, 10 - k) + Between((y + 1) / 2, 3 - k, 10 - k)
    else Between(y / 2, k - 7, k) + Between((y + 1) / 2, k - 7, k)
  }

  lemma BetweenStep(n: int, lo: int, hi: int)
    requires n >= 0 && hi - lo >= -1
    ensures Between(n + 1, lo, hi) == Between(n, lo, hi) + if lo <= n <= hi then 1 else 0
  {
  }

  /** A row meets a line in all of its width or not at all. */
  lemma RowCountIs(d: int, k: int, y: int)
    requires 0 <= d < 8 && 0 <= y
    ensures RowCount(d, k, y, 8) == if 0 <= Start(d, k, y) < 8 then Width(d) else 0
  {
  }

  lemma ClosedStep(d: int, k: int, y: nat)
    requires 0 <= d < 8 && 0 <= k < Lines(d)
    ensures RowsClosed(d, k, y + 1) == RowsClosed(d, k, y) + if 0 <= Start(d, k, y) < 8 then Width(d) else 0
  {
    if d == 0 || d == 4 {
      BetweenStep(y, k - 7, k);
    } else if d == 1 || d == 3 {
      BetweenStep(y, k - 3, k);
    } else if d == 2 {
      BetweenStep(y, k, k);
    } else if d == 5 {
      BetweenStep(y / 2, 3 - k, 10 - k);
    } else if d == 7 {
      BetweenStep(y / 2, k - 7, k);
    }
  }

  lemma ClosedGrows(d: int, k: int, y: nat)
    requires 0 <= d < 8 && 0 <= k < Lines(d)
    ensures RowsClosed(d, k, y + 1) == RowsClosed(d, k, y) + RowCount(d, k, y, 8)
  {
    ClosedStep(d, k, y);
    RowCountIs(d, k, y);
  }

  lemma RowsClosedAll(d: int, k: int)
    requires 0 <= d < 8 && 0 <= k < Lines(d)
    ensures RowsClosed(d, k, 0) == 0 && RowsClosed(d, k, 8) == LenTable(d, k)
  {
  }

  lemma LineLens(d: int, k: int, n: nat)
    requires 0 <= d < 8 && 0 <= k < Lines(d) && n == 64
    ensures LineLen(d, k, n) == LenTable(d, k)
  {
    forall j | 0 <= j < 8
      ensures RowsClosed(d, k, j + 1) == RowsClosed(d, k, j) + RowCount(d, k, j, 8)
    {
      ClosedGrows(d, k, j);
    }
    RowsClosedAll(d, k);
    LenByRows(d, k, j => RowsClosed(d, k, j), 8);
  }

  lemma WeightIsReciprocal(d: int, k: int, n: nat)
    requires 0 <= d < 8 && 0 <= k < Lines(d) && n == NUM
    ensures LineLen(d, k, n) > 0
    ensures Weight(d, k) * LineLen(d, k, n) == 840
  {
    LineLens(d, k, n);
  }

  // ----- Least squares -----

  ghost function RSq(v: real): real {
    v * v
  }

  /** The squared distance of the first `n` pixels from one constant per line. */
  ghost function Fit(b: seq<int>, d: int, m: int -> real, n: nat): real
    requires n <= |b|
  {
    if n == 0 then 0.0 else Fit(b, d, m, n - 1) + RSq(b[n - 1] as real - m(Line(d, n - 1)))
  }

  ghost function SquareSum(b: seq<int>, n: nat): real
    requires n <= |b|
  {
    if n == 0 then 0.0 else SquareSum(b, n - 1) + RSq(b[n - 1] as real)
  }

  /** What line `k` adds to the distance, beyond the squares of its pixels. */
  ghost function LineFit(m: real, sum: int, len: int): real {
    m * m * len as real - 2.0 * m * sum as real
  }

  /** What one pixel adds to its line's share. */
  ghost function Share(m: real, p: int): real {
    m * m - 2.0 * m * p as real
  }

  // Sums over the lines. The summands are function values, so that the inductions below see
  // only the sum.

  ghost function SumTo(f: int -> real, k: nat): real {
    if k == 0 then 0.0 else SumTo(f, k - 1) + f(k - 1)
  }

  lemma {:induction false} SumBump(f: int -> real, g: int -> real, at: int, delta: real, k: nat)
    requires forall j :: 0 <= j < k ==> g(j) == f(j) + if j == at then delta else 0.0
    ensures SumTo(g, k) == SumTo(f, k) + if 0 <= at < k then delta else 0.0
  {
    if k > 0 {
      SumBump(f, g, at, delta, k - 1);
    }
  }

  lemma {:induction false} SumCombine(f: int -> real, g: int -> real, h: int -> real, k: nat)
    requires forall j :: 0 <= j < k ==> 840.0 * f(j) + g(j) == h(j)
    ensures 840.0 * SumTo(f, k) + SumTo(g, k) == SumTo(h, k)
  {
    if k > 0 {
      SumCombine(f, g, h, k - 1);
    }
  }

  lemma {:induction false} SumSign(f: int -> real, k: nat)
    ensures (forall j :: 0 <= j < k ==> f(j) >= 0.0) ==> SumTo(f, k) >= 0.0
    ensures (forall j :: 0 <= j < k ==> f(j) == 0.0) ==> SumTo(f, k) == 0.0
  {
    if k > 0 {
      SumSign(f, k - 1);
    }
  }

  ghost function LineFits(b: seq<int>, d: int, m: int -> real, n: nat): int -> real
    requires n <= |b|
  {
    j => LineFit(m(j), LineSum(b, d, j, n), LineLen(d, j, n))
  }

  ghost function LineCosts(b: seq<int>, d: int): int -> real
    requires |b| == NUM
  {
    j => LineCost(Weight(d, j), LineSum(b, d, j, |b|)) as real
  }

  lemma SquareOfDifference(p: int, m: real)
    ensures RSq(p as real - m) == RSq(p as real) + Share(m, p)
  {
  }

  lemma LineFitStep(m: real, sum: int, len: int, p: int)
    ensures LineFit(m, sum + p, len + 1) == LineFit(m, sum, len) + Share(m, p)
  {
    assert 2.0 * m * (sum as real + p as real) == 2.0 * m * sum as real + 2.0 * m * p as real;
    assert m * m * (len as real + 1.0) == m * m * len as real + m * m;
  }

  /** One more pixel changes the share of its own line only. */
  lemma FitsStep(b: seq<int>, d: int, m: int -> real, n: nat)
    requires 0 <= d < 8 && n < |b| <= NUM
    ensures SumTo(LineFits(b, d, m, n + 1), Lines(d))
         == SumTo(LineFits(b, d, m, n), Lines(d)) + Share(m(Line(d, n)), b[n])
  {
    var at := Line(d, n);
    LineInRange(d, n);
    forall j | 0 <= j < Lines(d)
      ensures LineFits(b, d, m, n + 1)(j) == LineFits(b, d, m, n)(j) + if j == at then Share(m(at), b[n]) else 0.0
    {
      if j == at {
        LineFitStep(m(j), LineSum(b, d, j, n), LineLen(d, j, n), b[n]);
      } else {
        assert LineSum(b, d, j, n + 1) == LineSum(b, d, j, n) && LineLen(d, j, n + 1) == LineLen(d, j, n);
      }
    }
    SumBump(LineFits(b, d, m, n), LineFits(b, d, m, n + 1), at, Share(m(at), b[n]), Lines(d));
  }

  lemma EmptyLineFit(m: real)
    ensures LineFit(m, 0, 0) == 0.0
  {
  }

  /** The distance, regrouped by line. */
  lemma {:induction false} FitByLine(b: seq<int>, d: int, m: int -> real, n: nat)
    requires 0 <= d < 8 && n <= |b| <= NUM
    ensures Fit(b, d, m, n) == SquareSum(b, n) + SumTo(LineFits(b, d, m, n), Lines(d))
  {
    if n == 0 {
      forall j | 0 <= j < Lines(d)
        ensures LineFits(b, d, m, 0)(j) == 0.0
      {
        EmptyLineFit(m(j));
      }
      SumSign(LineFits(b, d, m, 0), Lines(d));
    } else {
      FitByLine(b, d, m, n - 1);
      FitsStep(b, d, m, n - 1);
      SquareOfDifference(b[n - 1], m(Line(d, n - 1)));
    }
  }

  /** The mean of each line: the constants the cost stands for. */
  ghost function Mean(b: seq<int>, d: int): int -> real
    requires |b| == NUM && 0 <= d < 8
  {
    k => if 0 <= k < Lines(d) && LineLen(d, k, |b|) > 0
         then LineSum(b, d, k, |b|) as real / LineLen(d, k, |b|) as real else 0.0
  }

  ghost function LineResidual(m: real, sum: int, len: int, w: int): real {
    w as real * RSq(len as real * m - sum as real)
  }

  /** How far the constants are from the means, weighted per line. */
  ghost function Residuals(b: seq<int>, d: int, m: int -> real): int -> real
    requires |b| == NUM
  {
    j => LineResidual(m(j), LineSum(b, d, j, |b|), LineLen(d, j, |b|), Weight(d, j))
  }

  /** Completing the square on one line. */
  lemma CompleteSquare(m: real, sum: int, len: int, w: int)
    requires w * len == 840
    ensures 840.0 * LineFit(m, sum, len) + LineCost(w, sum) as real == LineResidual(m, sum, len, w)
  {
    var s, l, v := sum as real, len as real, w as real;
    assert v * l == 840.0;
    assert (w * Sq(sum)) as real == v * (s * s);
    assert RSq(l * m - s) == l * m * (l * m) - 2.0 * (l * m * s) + s * s;
    assert v * (l * m * (l * m)) == (v * l) * (m * m * l);
    assert v * (2.0 * (l * m * s)) == (v * l) * (2.0 * m * s);
  }

  lemma ResidualOfLine(b: seq<int>, d: int, m: int -> real, k: nat)
    requires |b| == NUM && 0 <= d < 8 && k < Lines(d)
    ensures var sum, len, w := LineSum(b, d, k, |b|), LineLen(d, k, |b|), Weight(d, k);
            && 840.0 * LineFit(m(k), sum, len) + LineCost(w, sum) as real == LineResidual(m(k), sum, len, w)
            && LineResidual(m(k), sum, len, w) >= 0.0
            && LineResidual(Mean(b, d)(k), sum, len, w) == 0.0
  {
    var sum, len, w := LineSum(b, d, k, |b|), LineLen(d, k, |b|), Weight(d, k);
    WeightIsReciprocal(d, k, |b|);
    CompleteSquare(m(k), sum, len, w);
    ResidualNonNegative(m(k), sum, len, w);
    MeanHasNoResidual(sum, len, w);
  }

  lemma {:induction false} CostIsSum(b: seq<int>, d: int, k: nat)
    requires |b| == NUM
    ensures CostTo(b, d, k) as real == SumTo(LineCosts(b, d), k)
  {
    if k > 0 {
      CostIsSum(b, d, k - 1);
      var c := LineCost(Weight(d, k - 1), LineSum(b, d, k - 1, |b|));
      assert LineCosts(b, d)(k - 1) == c as real;
      assert CostTo(b, d, k) == CostTo(b, d, k - 1) + c;
      assert SumTo(LineCosts(b, d), k) == SumTo(LineCosts(b, d), k - 1) + c as real;
    }
  }

  /** The distance from any constants, in terms of the cost. */
  lemma FitIsCost(b: seq<int>, d: int, m: int -> real)
    requires |b| == NUM && 0 <= d < 8
    ensures 840.0 * Fit(b, d, m, |b|)
         == 840.0 * SquareSum(b, |b|) - Cost(b, d) as real + SumTo(Residuals(b, d, m), Lines(d))
    ensures SumTo(Residuals(b, d, m), Lines(d)) >= 0.0
    ensures m == Mean(b, d) ==> SumTo(Residuals(b, d, m), Lines(d)) == 0.0
  {
    forall j | 0 <= j < Lines(d)
      ensures 840.0 * LineFits(b, d, m, |b|)(j) + LineCosts(b, d)(j) == Residuals(b, d, m)(j)
      ensures Residuals(b, d, m)(j) >= 0.0
      ensures m == Mean(b, d) ==> Residuals(b, d, m)(j) == 0.0
    {
      ResidualOfLine(b, d, m, j);
    }
    FitByLine(b, d, m, |b|);
    CostIsSum(b, d, Lines(d));
    SumCombine(LineFits(b, d, m, |b|), LineCosts(b, d), Residuals(b, d, m), Lines(d));
    SumSign(Residuals(b, d, m), Lines(d));
  }

  lemma ResidualNonNegative(m: real, sum: int, len: int, w: int)
    requires w >= 0
    ensures LineResidual(m, sum, len, w) >= 0.0
  {
    assert RSq(len as real * m - sum as real) >= 0.0;
  }

  lemma MeanHasNoResidual(sum: int, len: int, w: int)
    requires len > 0
    ensures LineResidual(sum as real / len as real, sum, len, w) == 0.0
  {
    assert len as real * (sum as real / len as real) - sum as real == 0.0;
  }

  /** The cost of a direction is what its line means explain of the block: 840 times the squared
      deviation from them is 840 times the sum of squares, less the cost. */
  lemma CostIsLeastSquares(b: seq<int>, d: int)
    requires |b| == NUM && 0 <= d < 8
    ensures 840.0 * Fit(b, d, Mean(b, d), |b|) == 840.0 * SquareSum(b, |b|) - Cost(b, d) as real
  {
    FitIsCost(b, d, Mean(b, d));
  }

  /** No other choice of constants along the same direction comes closer. */
  lemma MeansAreOptimal(b: seq<int>, d: int, m: int -> real)
    requires |b| == NUM && 0 <= d < 8
    ensures Fit(b, d, Mean(b, d), |b|) <= Fit(b, d, m, |b|)
  {
    CostIsLeastSquares(b, d);
    FitIsCost(b, d, m);
  }

  /** The first of the directions 0 .. n with the largest cost. */
  function BestTo(b: seq<int>, n: int): int
    requires |b| == NUM && 0 <= n < 8
    decreases n
  {
    if n == 0 then 0 else
    var d := BestTo(b, n - 1);
    if Cost(b, n) > Cost(b, d) then n else d
  }

  function BestDir(b: seq<int>): int
    requires |b| == NUM
  {
    BestTo(b, 7)
  }

  function Variance(b: seq<int>): int
    requires |b| == NUM
  {
    var d := BestDir(b);
    Shr(Cost(b, d) - Cost(b, (d + 4) % 8), 10)
  }

  /** The variance is how far the orthogonal direction is behind the best, in whole 1024ths. */
  lemma VarianceIs(b: seq<int>)
    requires |b| == NUM
    ensures var behind := Cost(b, BestDir(b)) - Cost(b, (BestDir(b) + 4) % 8);
            1024 * Variance(b) <= behind < 1024 * (Variance(b) + 1)
  {
    var behind := Cost(b, BestDir(b)) - Cost(b, (BestDir(b) + 4) % 8);
    ShrIsDiv(behind, 10);
    assert Pow2(10) == 1024;
  }

  lemma {:induction false} BestToIsFirstMax(b: seq<int>, n: int)
    requires |b| == NUM && 0 <= n < 8
    ensures 0 <= BestTo(b, n) <= n
    ensures forall d :: 0 <= d <= n ==> Cost(b, d) <= Cost(b, BestTo(b, n))
    ensures forall d :: 0 <= d < BestTo(b, n) ==> Cost(b, d) < Cost(b, BestTo(b, n))
    decreases n
  {
    if n > 0 {
      BestToIsFirstMax(b, n - 1);
    }
  }

  /** The chosen direction is the first one along which the block is best approximated by one
      constant per line, over all directions and all constants. */
  lemma DirectionIsLeastSquares(b: seq<int>, d: int, m: int -> real)
    requires |b| == NUM && 0 <= d < 8
    ensures var best := BestDir(b);
            && 0 <= best < 8
            && Fit(b, best, Mean(b, best), |b|) <= Fit(b, d, m, |b|)
            && (d < best ==> Fit(b, best, Mean(b, best), |b|) < Fit(b, d, m, |b|))
  {
    BestToIsFirstMax(b, 7);
    CostIsLeastSquares(b, BestDir(b));
    CostIsLeastSquares(b, d);
    MeansAreOptimal(b, d, m);
  }

  predicate InBlockRange(b: seq<int>) {
    |b| == NUM && forall i :: 0 <= i < NUM ==> -128 <= b[i] < 128
  }

  lemma {:induction false} SquareSumBound(b: seq<int>, n: nat)
    requires InBlockRange(b) && n <= NUM
    ensures SquareSum(b, n) <= 16384.0 * n as real
  {
    if n > 0 {
      SquareSumBound(b, n - 1);
      PixelSquare(b[n - 1]);
    }
  }

  lemma PixelSquare(p: int)
    requires -128 <= p < 128
    ensures RSq(p as real) <= 16384.0
  {
    var q := p as real;
    ProductNonNegative(128.0 - q, 128.0 + q);
    assert (128.0 - q) * (128.0 + q) == 16384.0 - q * q;
  }

  lemma ProductNonNegative(a: real, b: real)
    requires a >= 0.0 && b >= 0.0
    ensures a * b >= 0.0
  {
  }

  lemma {:induction false} FitNonNegative(b: seq<int>, d: int, m: int -> real, n: nat)
    requires n <= |b|
    ensures Fit(b, d, m, n) >= 0.0
  {
    if n > 0 {
      FitNonNegative(b, d, m, n - 1);
      assert RSq(b[n - 1] as real - m(Line(d, n - 1))) >= 0.0;
    }
  }

  lemma {:induction false} CostToGrows(b: seq<int>, d: int, k: nat, n: nat)
    requires |b| == NUM && k <= n
    ensures 0 <= CostTo(b, d, k) <= CostTo(b, d, n)
  {
    if k < n {
      CostToGrows(b, d, k, n - 1);
      TermNonNegative(Weight(d, n - 1), LineSum(b, d, n - 1, |b|));
    } else if k > 0 {
      CostToGrows(b, d, k - 1, k - 1);
      TermNonNegative(Weight(d, k - 1), LineSum(b, d, k - 1, |b|));
    }
  }

  lemma TermNonNegative(w: int, v: int)
    requires w >= 0
    ensures LineCost(w, v) >= 0
  {
    assert Sq(v) >= 0;
  }

  const COST_MAX := 840 * 64 * 128 * 128

  /** No cost exceeds what the block's own energy allows, so no 32-bit sum wraps. */
  lemma CostBound(b: seq<int>, d: int)
    requires InBlockRange(b) && 0 <= d < 8
    ensures 0 <= Cost(b, d) <= COST_MAX < 0x8000_0000
  {
    CostIsLeastSquares(b, d);
    FitNonNegative(b, d, Mean(b, d), |b|);
    SquareSumBound(b, |b|);
    CostToGrows(b, d, 0, Lines(d));
  }
}
