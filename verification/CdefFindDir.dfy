/**
 * `cdef_find_dir_rust`: the partial sums and costs of the direction search, accumulated in arrays
 * as the source does, and proved to be the costs of CdefDirection.
 */
module CdefFindDir {
  import opened Bits
  import opened CdefBlock
  import opened CdefDirection

  /** Row `r` of a table of partial sums holds the line sums of direction `d` after `n` pixels. */
  ghost predicate Holds(a: array2<int>, r: int, d: int, b: seq<int>, n: nat)
    requires n <= |b|
    reads a
  {
    && 0 <= r < a.Length0 && a.Length1 == Lines(d)
    && forall k :: 0 <= k < Lines(d) ==> a[r, k] == LineSum(b, d, k, n)
  }

  /** One `partial_sum[r][i] += px`. */
  method Add(a: array2<int>, r: int, i: int, px: int, ghost d: int, ghost b: seq<int>, ghost n: nat)
    requires 0 <= d < 8 && n < |b| <= NUM && Holds(a, r, d, b, n)
    requires i == Line(d, n) && px == b[n]
    modifies a
    ensures Holds(a, r, d, b, n + 1)
    ensures forall q, k :: 0 <= q < a.Length0 && 0 <= k < a.Length1 && q != r ==> a[q, k] == old(a[q, k])
  {
    LineInRange(d, n);
    a[r, i] := a[r, i] + px;
  }

  ghost predicate AllHold(hv: array2<int>, diag: array2<int>, alt: array2<int>, b: seq<int>, n: nat)
    requires n <= |b|
    reads hv, diag, alt
  {
    && hv.Length0 == 2 && Holds(hv, 0, 2, b, n) && Holds(hv, 1, 6, b, n)
    && diag.Length0 == 2 && Holds(diag, 0, 0, b, n) && Holds(diag, 1, 4, b, n)
    && alt.Length0 == 4 && Holds(alt, 0, 1, b, n) && Holds(alt, 1, 3, b, n)
    && Holds(alt, 2, 5, b, n) && Holds(alt, 3, 7, b, n)
  }

  /** The eight accumulations of one pixel. */
  method Accumulate(hv: array2<int>, diag: array2<int>, alt: array2<int>, y: int, x: int, px: int, ghost b: seq<int>)
    requires 0 <= y < 8 && 0 <= x < 8 && |b| == NUM && px == b[8 * y + x]
    requires hv != diag && diag != alt && hv != alt && AllHold(hv, diag, alt, b, 8 * y + x)
    modifies hv, diag, alt
    ensures AllHold(hv, diag, alt, b, 8 * y + x + 1)
  {
    ghost var n := 8 * y + x;
    assert n / 8 == y && n % 8 == x;
    Add(diag, 0, y + x, px, 0, b, n);
    Add(alt, 0, y + x / 2, px, 1, b, n);
    Add(hv, 0, y, px, 2, b, n);
    Add(alt, 1, 3 + y - x / 2, px, 3, b, n);
    Add(diag, 1, 7 + y - x, px, 4, b, n);
    Add(alt, 2, 3 - y / 2 + x, px, 5, b, n);
    Add(hv, 1, x, px, 6, b, n);
    Add(alt, 3, y / 2 + x, px, 7, b, n);
  }

  /** The block the search works on: pixels reduced to 8 bits, centred on zero. */
  ghost predicate ShowsBlock(b: seq<int>, img: array<int>, off: int, stride: int, depth: int)
    requires depth >= 8
    reads img
  {
    && InBlockRange(b)
    && forall x, y :: InRect(x, y, 0, 8, 0, 8) ==>
         In(img, At(off, stride, x, y)) && b[8 * y + x] == Shr(img[At(off, stride, x, y)], depth - 8) - 128
  }

  method AccumulateRow(hv: array2<int>, diag: array2<int>, alt: array2<int>, y: int,
                       img: array<int>, off: int, stride: int, depth: int, ghost b: seq<int>)
    requires 0 <= y < 8 && depth >= 8 && ShowsBlock(b, img, off, stride, depth)
    requires hv != diag && diag != alt && hv != alt && AllHold(hv, diag, alt, b, 8 * y)
    modifies hv, diag, alt
    ensures AllHold(hv, diag, alt, b, 8 * y + 8)
  {
    for x := 0 to 8
      invariant AllHold(hv, diag, alt, b, 8 * y + x)
    {
      assert InRect(x, y, 0, 8, 0, 8);
      var px := Shr(img[At(off, stride, x, y)], depth - 8) - 128;
      Accumulate(hv, diag, alt, y, x, px, b);
    }
  }

  method PartialSums(img: array<int>, off: int, stride: int, depth: int, ghost b: seq<int>)
    returns (hv: array2<int>, diag: array2<int>, alt: array2<int>)
    requires depth >= 8 && ShowsBlock(b, img, off, stride, depth)
    ensures AllHold(hv, diag, alt, b, NUM)
  {
    hv := new int[2, 8]((_, _) => 0);
    diag := new int[2, 15]((_, _) => 0);
    alt := new int[4, 11]((_, _) => 0);
    SumRows(hv, diag, alt, img, off, stride, depth, b);
  }

  method SumRows(hv: array2<int>, diag: array2<int>, alt: array2<int>,
                 img: array<int>, off: int, stride: int, depth: int, ghost b: seq<int>)
    requires depth >= 8 && ShowsBlock(b, img, off, stride, depth)
    requires hv != diag && diag != alt && hv != alt && AllHold(hv, diag, alt, b, 0)
    modifies hv, diag, alt
    ensures AllHold(hv, diag, alt, b, NUM)
  {
    for y := 0 to 8
      invariant AllHold(hv, diag, alt, b, 8 * y)
    {
      AccumulateRow(hv, diag, alt, y, img, off, stride, depth, b);
    }
  }

  const DIV_TABLE: seq<int> := [840, 420, 280, 210, 168, 140, 120]

  /** The squared sum of line `k`. */
  function Square(b: seq<int>, d: int, k: int): int
    requires |b| == NUM
  {
    Sq(LineSum(b, d, k, |b|))
  }

  /** The squares of `n` lines from `first` on. */
  ghost function PlainTo(b: seq<int>, d: int, first: int, n: nat): int
    requires |b| == NUM
  {
    if n == 0 then 0 else PlainTo(b, d, first, n - 1) + Square(b, d, first + n - 1)
  }

  /** The weighted squares of the first and the last `n` lines. */
  ghost function PairsTo(b: seq<int>, d: int, n: nat): int
    requires |b| == NUM
  {
    if n == 0 then 0 else
    PairsTo(b, d, n - 1)
    + (Square(b, d, n - 1) + Square(b, d, Lines(d) - n)) * Weight(d, n - 1)
  }

  lemma DiagonalCost(b: seq<int>, d: int)
    requires |b| == NUM && d in {0, 4}
    ensures Cost(b, d) == PairsTo(b, d, 7) + Square(b, d, 7) * 105
  {
    assert CostTo(b, d, 1) == CostTo(b, d, 0) + 840 * Square(b, d, 0);
    assert CostTo(b, d, 2) == CostTo(b, d, 1) + 420 * Square(b, d, 1);
    assert CostTo(b, d, 3) == CostTo(b, d, 2) + 280 * Square(b, d, 2);
    assert CostTo(b, d, 4) == CostTo(b, d, 3) + 210 * Square(b, d, 3);
    assert CostTo(b, d, 5) == CostTo(b, d, 4) + 168 * Square(b, d, 4);
    assert CostTo(b, d, 6) == CostTo(b, d, 5) + 140 * Square(b, d, 5);
    assert CostTo(b, d, 7) == CostTo(b, d, 6) + 120 * Square(b, d, 6);
    assert CostTo(b, d, 8) == CostTo(b, d, 7) + 105 * Square(b, d, 7);
    assert CostTo(b, d, 9) == CostTo(b, d, 8) + 120 * Square(b, d, 8);
    assert CostTo(b, d, 10) == CostTo(b, d, 9) + 140 * Square(b, d, 9);
    assert CostTo(b, d, 11) == CostTo(b, d, 10) + 168 * Square(b, d, 10);
    assert CostTo(b, d, 12) == CostTo(b, d, 11) + 210 * Square(b, d, 11);
    assert CostTo(b, d, 13) == CostTo(b, d, 12) + 280 * Square(b, d, 12);
    assert CostTo(b, d, 14) == CostTo(b, d, 13) + 420 * Square(b, d, 13);
    assert CostTo(b, d, 15) == CostTo(b, d, 14) + 840 * Square(b, d, 14);
    assert PairsTo(b, d, 1) == PairsTo(b, d, 0) + (Square(b, d, 0) + Square(b, d, 14)) * 840;
    assert PairsTo(b, d, 2) == PairsTo(b, d, 1) + (Square(b, d, 1) + Square(b, d, 13)) * 420;
    assert PairsTo(b, d, 3) == PairsTo(b, d, 2) + (Square(b, d, 2) + Square(b, d, 12)) * 280;
    assert PairsTo(b, d, 4) == PairsTo(b, d, 3) + (Square(b, d, 3) + Square(b, d, 11)) * 210;
    assert PairsTo(b, d, 5) == PairsTo(b, d, 4) + (Square(b, d, 4) + Square(b, d, 10)) * 168;
    assert PairsTo(b, d, 6) == PairsTo(b, d, 5) + (Square(b, d, 5) + Square(b, d, 9)) * 140;
    assert PairsTo(b, d, 7) == PairsTo(b, d, 6) + (Square(b, d, 6) + Square(b, d, 8)) * 120;
  }

  lemma AxisCost(b: seq<int>, d: int)
    requires |b| == NUM && d in {2, 6}
    ensures Cost(b, d) == PlainTo(b, d, 0, 8) * 105
  {
    assert CostTo(b, d, 1) == CostTo(b, d, 0) + 105 * Square(b, d, 0);
    assert CostTo(b, d, 2) == CostTo(b, d, 1) + 105 * Square(b, d, 1);
    assert CostTo(b, d, 3) == CostTo(b, d, 2) + 105 * Square(b, d, 2);
    assert CostTo(b, d, 4) == CostTo(b, d, 3) + 105 * Square(b, d, 3);
    assert CostTo(b, d, 5) == CostTo(b, d, 4) + 105 * Square(b, d, 4);
    assert CostTo(b, d, 6) == CostTo(b, d, 5) + 105 * Square(b, d, 5);
    assert CostTo(b, d, 7) == CostTo(b, d, 6) + 105 * Square(b, d, 6);
    assert CostTo(b, d, 8) == CostTo(b, d, 7) + 105 * Square(b, d, 7);
    assert PlainTo(b, d, 0, 1) == PlainTo(b, d, 0, 0) + Square(b, d, 0);
    assert PlainTo(b, d, 0, 2) == PlainTo(b, d, 0, 1) + Square(b, d, 1);
    assert PlainTo(b, d, 0, 3) == PlainTo(b, d, 0, 2) + Square(b, d, 2);
    assert PlainTo(b, d, 0, 4) == PlainTo(b, d, 0, 3) + Square(b, d, 3);
    assert PlainTo(b, d, 0, 5) == PlainTo(b, d, 0, 4) + Square(b, d, 4);
    assert PlainTo(b, d, 0, 6) == PlainTo(b, d, 0, 5) + Square(b, d, 5);
    assert PlainTo(b, d, 0, 7) == PlainTo(b, d, 0, 6) + Square(b, d, 6);
    assert PlainTo(b, d, 0, 8) == PlainTo(b, d, 0, 7) + Square(b, d, 7);
  }

  lemma SlopeCost(b: seq<int>, d: int)
    requires |b| == NUM && d in {1, 3, 5, 7}
    ensures Cost(b, d) == PlainTo(b, d, 3, 5) * 105 + PairsTo(b, d, 3)
  {
    assert CostTo(b, d, 1) == CostTo(b, d, 0) + 420 * Square(b, d, 0);
    assert CostTo(b, d, 2) == CostTo(b, d, 1) + 210 * Square(b, d, 1);
    assert CostTo(b, d, 3) == CostTo(b, d, 2) + 140 * Square(b, d, 2);
    assert CostTo(b, d, 4) == CostTo(b, d, 3) + 105 * Square(b, d, 3);
    assert CostTo(b, d, 5) == CostTo(b, d, 4) + 105 * Square(b, d, 4);
    assert CostTo(b, d, 6) == CostTo(b, d, 5) + 105 * Square(b, d, 5);
    assert CostTo(b, d, 7) == CostTo(b, d, 6) + 105 * Square(b, d, 6);
    assert CostTo(b, d, 8) == CostTo(b, d, 7) + 105 * Square(b, d, 7);
    assert CostTo(b, d, 9) == CostTo(b, d, 8) + 140 * Square(b, d, 8);
    assert CostTo(b, d, 10) == CostTo(b, d, 9) + 210 * Square(b, d, 9);
    assert CostTo(b, d, 11) == CostTo(b, d, 10) + 420 * Square(b, d, 10);
    assert PlainTo(b, d, 3, 1) == PlainTo(b, d, 3, 0) + Square(b, d, 3);
    assert PlainTo(b, d, 3, 2) == PlainTo(b, d, 3, 1) + Square(b, d, 4);
    assert PlainTo(b, d, 3, 3) == PlainTo(b, d, 3, 2) + Square(b, d, 5);
    assert PlainTo(b, d, 3, 4) == PlainTo(b, d, 3, 3) + Square(b, d, 6);
    assert PlainTo(b, d, 3, 5) == PlainTo(b, d, 3, 4) + Square(b, d, 7);
    assert PairsTo(b, d, 1) == PairsTo(b, d, 0) + (Square(b, d, 0) + Square(b, d, 10)) * 420;
    assert PairsTo(b, d, 2) == PairsTo(b, d, 1) + (Square(b, d, 1) + Square(b, d, 9)) * 210;
    assert PairsTo(b, d, 3) == PairsTo(b, d, 2) + (Square(b, d, 2) + Square(b, d, 8)) * 140;
  }

  // ----- No step leaves 32 bits -----

  predicate FitsI32(v: int) {
    -0x8000_0000 <= v < 0x8000_0000
  }

  lemma SquareNonNegative(b: seq<int>, d: int, k: int)
    requires |b| == NUM
    ensures Square(b, d, k) >= 0
  {
    var v := LineSum(b, d, k, |b|);
    assert Sq(v) >= 0;
  }

  lemma WeightedPairNonNegative(p: int, q: int, w: int)
    requires p >= 0 && q >= 0 && w >= 0
    ensures (p + q) * w >= 0
  {
  }

  lemma {:induction false} PrefixesGrow(b: seq<int>, d: int, first: int, n: nat, m: nat)
    requires |b| == NUM && n <= m
    ensures 0 <= PlainTo(b, d, first, n) <= PlainTo(b, d, first, m)
    ensures 0 <= PairsTo(b, d, n) <= PairsTo(b, d, m)
    decreases m
  {
    if m > 0 {
      SquareNonNegative(b, d, first + m - 1);
      SquareNonNegative(b, d, m - 1);
      SquareNonNegative(b, d, Lines(d) - m);
      WeightedPairNonNegative(Square(b, d, m - 1), Square(b, d, Lines(d) - m), Weight(d, m - 1));
      PrefixesGrow(b, d, first, if n < m then n else m - 1, m - 1);
    }
  }

  /** Every prefix of a cost, and every product added to it, is at most the cost. */
  lemma DiagonalFits(b: seq<int>, d: int, n: nat)
    requires InBlockRange(b) && d in {0, 4} && n <= 7
    ensures 0 <= PairsTo(b, d, n) <= PairsTo(b, d, 7) <= Cost(b, d) <= COST_MAX
  {
    DiagonalCost(b, d);
    CostBound(b, d);
    PrefixesGrow(b, d, 0, n, 7);
    SquareNonNegative(b, d, 7);
  }

  lemma AxisFits(b: seq<int>, d: int, n: nat)
    requires InBlockRange(b) && d in {2, 6} && n <= 8
    ensures 0 <= PlainTo(b, d, 0, n) <= Cost(b, d) <= COST_MAX
  {
    AxisCost(b, d);
    CostBound(b, d);
    PrefixesGrow(b, d, 0, n, 8);
  }

  lemma SlopeFits(b: seq<int>, d: int, m: nat, n: nat)
    requires InBlockRange(b) && d in {1, 3, 5, 7} && m <= 5 && n <= 3
    ensures 0 <= PlainTo(b, d, 3, m) <= Cost(b, d) <= COST_MAX
    ensures 0 <= PlainTo(b, d, 3, 5) * 105 + PairsTo(b, d, n) <= Cost(b, d)
    ensures 0 <= PairsTo(b, d, n) <= Cost(b, d)
  {
    SlopeCost(b, d);
    CostBound(b, d);
    PrefixesGrow(b, d, 3, m, 5);
    PrefixesGrow(b, d, 3, n, 3);
  }

  method AxisCosts(cost: array<int>, hv: array2<int>, ghost b: seq<int>)
    requires cost.Length == 8 && InBlockRange(b) && hv.Length0 == 2 && Holds(hv, 0, 2, b, |b|) && Holds(hv, 1, 6, b, |b|)
    requires cost[2] == 0 && cost[6] == 0
    modifies cost
    ensures cost[2] == Cost(b, 2) && cost[6] == Cost(b, 6)
    ensures forall d :: 0 <= d < 8 && d != 2 && d != 6 ==> cost[d] == old(cost[d])
  {
    for n := 0 to 8
      invariant cost[2] == PlainTo(b, 2, 0, n) && cost[6] == PlainTo(b, 6, 0, n)
      invariant forall d :: 0 <= d < 8 && d != 2 && d != 6 ==> cost[d] == old(cost[d])
    {
      assert hv[0, n] == LineSum(b, 2, n, |b|) && hv[1, n] == LineSum(b, 6, n, |b|);
      cost[2] := cost[2] + Sq(hv[0, n]);
      cost[6] := cost[6] + Sq(hv[1, n]);
      AxisFits(b, 2, n + 1);
      AxisFits(b, 6, n + 1);
      assert FitsI32(cost[2]) && FitsI32(cost[6]);
    }
    AxisCost(b, 2);
    AxisCost(b, 6);
    AxisFits(b, 2, 8);
    AxisFits(b, 6, 8);
    cost[2] := cost[2] * 105;
    cost[6] := cost[6] * 105;
    assert FitsI32(cost[2]) && FitsI32(cost[6]);
  }

  /** Two lines of equal length: the weighted sum of their squares, as added to a cost. */
  method WeightedPair(p: int, q: int, w: int, ghost b: seq<int>, ghost d: int, ghost n: nat) returns (v: int)
    requires |b| == NUM && 0 <= d < 8 && n < Lines(d) && w == Weight(d, n)
    requires p == LineSum(b, d, n, |b|) && q == LineSum(b, d, Lines(d) - (n + 1), |b|)
    ensures PairsTo(b, d, n + 1) == PairsTo(b, d, n) + v
    ensures v >= 0
  {
    v := (Sq(p) + Sq(q)) * w;
    SquareNonNegative(b, d, n);
    SquareNonNegative(b, d, Lines(d) - (n + 1));
    WeightedPairNonNegative(Sq(p), Sq(q), w);
  }

  method DiagonalCost1(cost: array<int>, at: int, diag: array2<int>, r: int, n: int, ghost b: seq<int>)
    requires cost.Length == 8 && InBlockRange(b) && at in {0, 4} && 0 <= n < 7 && Holds(diag, r, at, b, |b|)
    requires cost[at] == PairsTo(b, at, n)
    modifies cost
    ensures cost[at] == PairsTo(b, at, n + 1)
    ensures forall d :: 0 <= d < 8 && d != at ==> cost[d] == old(cost[d])
  {
    assert DIV_TABLE[n] == Weight(at, n);
    var v := WeightedPair(diag[r, n], diag[r, 14 - n], DIV_TABLE[n], b, at, n);
    DiagonalFits(b, at, n);
    DiagonalFits(b, at, n + 1);
    assert FitsI32(v) && FitsI32(cost[at] + v);
    cost[at] := cost[at] + v;
  }

  method DiagonalCosts(cost: array<int>, diag: array2<int>, ghost b: seq<int>)
    requires cost.Length == 8 && InBlockRange(b) && diag.Length0 == 2
    requires Holds(diag, 0, 0, b, |b|) && Holds(diag, 1, 4, b, |b|)
    requires cost[0] == 0 && cost[4] == 0
    modifies cost
    ensures cost[0] == Cost(b, 0) && cost[4] == Cost(b, 4)
    ensures forall d :: 0 <= d < 8 && d != 0 && d != 4 ==> cost[d] == old(cost[d])
  {
    for n := 0 to 7
      invariant cost[0] == PairsTo(b, 0, n) && cost[4] == PairsTo(b, 4, n)
      invariant forall d :: 0 <= d < 8 && d != 0 && d != 4 ==> cost[d] == old(cost[d])
    {
      DiagonalCost1(cost, 0, diag, 0, n, b);
      DiagonalCost1(cost, 4, diag, 1, n, b);
    }
    DiagonalCost(b, 0);
    DiagonalCost(b, 4);
    DiagonalFits(b, 0, 7);
    DiagonalFits(b, 4, 7);
    cost[0] := cost[0] + Sq(diag[0, 7]) * 105;
    cost[4] := cost[4] + Sq(diag[1, 7]) * 105;
    assert FitsI32(cost[0]) && FitsI32(cost[4]);
  }

  method SlopeCost1(cost: array<int>, n: int, alt: array2<int>, ghost b: seq<int>)
    requires cost.Length == 8 && InBlockRange(b) && 0 <= n < 4 && Holds(alt, n, 2 * n + 1, b, |b|)
    requires cost[2 * n + 1] == 0
    modifies cost
    ensures cost[2 * n + 1] == Cost(b, 2 * n + 1)
    ensures forall d :: 0 <= d < 8 && d != 2 * n + 1 ==> cost[d] == old(cost[d])
  {
    var at := 2 * n + 1;
    for m := 0 to 5
      invariant cost[at] == PlainTo(b, at, 3, m)
      invariant forall d :: 0 <= d < 8 && d != at ==> cost[d] == old(cost[d])
    {
      assert alt[n, 3 + m] == LineSum(b, at, 3 + m, |b|);
      cost[at] := cost[at] + Sq(alt[n, 3 + m]);
      SlopeFits(b, at, m + 1, 0);
      assert FitsI32(cost[at]);
    }
    SlopeFits(b, at, 5, 0);
    cost[at] := cost[at] * 105;
    assert FitsI32(cost[at]);
    for m := 0 to 3
      invariant cost[at] == PlainTo(b, at, 3, 5) * 105 + PairsTo(b, at, m)
      invariant forall d :: 0 <= d < 8 && d != at ==> cost[d] == old(cost[d])
    {
      assert DIV_TABLE[2 * m + 1] == Weight(at, m);
      var v := WeightedPair(alt[n, m], alt[n, 10 - m], DIV_TABLE[2 * m + 1], b, at, m);
      SlopeFits(b, at, 5, m);
      SlopeFits(b, at, 5, m + 1);
      assert FitsI32(v) && FitsI32(cost[at] + v);
      cost[at] := cost[at] + v;
    }
    SlopeCost(b, at);
  }

  /** `cdef_find_dir_rust`: the first direction of largest cost, and how far the orthogonal one is
      behind it. */
  method FindDir(img: array<int>, off: int, stride: int, depth: int, ghost b: seq<int>)
    returns (dir: int, variance: int)
    requires depth >= 8 && ShowsBlock(b, img, off, stride, depth)
    ensures dir == BestDir(b) && variance == Variance(b)
    ensures 0 <= dir < 8 && variance >= 0
  {
    var hv, diag, alt := PartialSums(img, off, stride, depth, b);
    var cost := new int[8](_ => 0);
    AxisCosts(cost, hv, b);
    DiagonalCosts(cost, diag, b);
    for n := 0 to 4
      invariant AllHold(hv, diag, alt, b, |b|)
      invariant forall d :: 0 <= d < 8 && (d % 2 == 0 || d < 2 * n) ==> cost[d] == Cost(b, d)
      invariant forall d :: 0 <= d < 8 && d % 2 == 1 && d > 2 * n ==> cost[d] == 0
    {
      assert Holds(alt, n, 2 * n + 1, b, |b|) by {
        assert n == 0 || n == 1 || n == 2 || n == 3;
      }
      SlopeCost1(cost, n, alt, b);
    }
    dir, variance := PickBest(cost, b);
  }

  /** The closing argmax and the variance, whose subtraction never underflows. */
  method PickBest(cost: array<int>, ghost b: seq<int>) returns (dir: int, variance: int)
    requires cost.Length == 8 && |b| == NUM
    requires forall d :: 0 <= d < 8 ==> cost[d] == Cost(b, d)
    ensures dir == BestDir(b) && variance == Variance(b)
    ensures 0 <= dir < 8 && variance >= 0
  {
    var best;
    dir, best := FirstMax(cost, b);
    BestToIsFirstMax(b, 7);
    assert best - cost[Xor4(dir)] >= 0;
    variance := Shr(best - cost[Xor4(dir)], 10);
    ShrAtLeast(best - cost[Xor4(dir)], 10, 0);
  }

  /** The loop over the costs. */
  method FirstMax(cost: array<int>, ghost b: seq<int>) returns (dir: int, best: int)
    requires cost.Length == 8 && |b| == NUM
    requires forall d :: 0 <= d < 8 ==> cost[d] == Cost(b, d)
    ensures 0 <= dir < 8 && dir == BestDir(b) && best == Cost(b, dir)
  {
    best := cost[0];
    dir := 0;
    for n := 0 to 8
      invariant 0 <= dir < 8 && best == Cost(b, dir)
      invariant if n == 0 then dir == 0 else dir == BestTo(b, n - 1)
    {
      if cost[n] > best {
        best := cost[n];
        dir := n;
      }
    }
  }

  /** `best_dir ^ 4`. */
  function Xor4(d: int): (r: int)
    requires 0 <= d < 8
    ensures 0 <= r < 8 && r == (d + 4) % 8
  {
    if d < 4 then d + 4 else d - 4
  }
}
