/**
 * `generate_scaling` of src/fg_apply.rs: two fixed-point passes over one buffer compute the scaling
 * function of section 7.18.3 at every sample value. An index is a pair: a multiple of the padding,
 * and what is above it.
 */
module ScalingLut {
  import opened Bits

  type Point = (int, int)

  /** Control points as section 5.9.30 has them: bytes, by increasing x. */
  predicate ValidPoints(p: seq<Point>) {
    && (forall i :: 0 <= i < |p| ==> 0 <= p[i].0 < 256 && 0 <= p[i].1 < 256)
    && (forall i, j :: 0 <= i < j < |p| ==> p[i].0 < p[j].0)
  }

  // ----- Section 7.18.3 -----

  /** The slope of a segment, in 65536ths. */
  function Delta(p0: Point, p1: Point): int
    requires p0.0 < p1.0
  {
    (p1.1 - p0.1) * Reciprocal(p1.0 - p0.0)
  }

  function Reciprocal(dx: int): int
    requires dx > 0
  {
    (0x10000 + dx / 2) / dx
  }

  /** A point of a segment. */
  function Lerp(p0: Point, p1: Point, x: int): int
    requires p0.0 < p1.0
  {
    p0.1 + ((x - p0.0) * Delta(p0, p1) + 0x8000) / 0x10000
  }

  /** ScalingLut: constant before the first point and after the last, linear in between. */
  function Lut(p: seq<Point>, x: int): int
    requires ValidPoints(p)
  {
    if p == [] then 0
    else if x < p[0].0 then p[0].1
    else LutFrom(p, x, |p| - 1)
  }

  /** The same, from the last point of the first `k + 1` that is not after x. */
  function LutFrom(p: seq<Point>, x: int, k: nat): int
    requires ValidPoints(p) && k < |p| && p[0].0 <= x
  {
    if x < p[k].0 then LutFrom(p, x, k - 1)
    else if k == |p| - 1 then p[k].1
    else Lerp(p[k], p[k + 1], x)
  }

  function Pad(depth: int): int {
    if depth == 8 then 1 else if depth == 10 then 4 else 16
  }

  /** `scale_lut` at a sample whose high bits are `x` and whose low bits are `rem`. */
  function Interpolated(p: seq<Point>, depth: int, x: int, rem: int): int
    requires ValidPoints(p)
  {
    if depth == 8 || x == 255 then Lut(p, x)
    else Lut(p, x) + Between(Lut(p, x + 1) - Lut(p, x), rem, Pad(depth))
  }

  /** `Round2(range * rem, BitDepth - 8)`. */
  function Between(range: int, rem: int, pad: int): int {
    if pad == 4 then (range * rem + 2) / 4 else (range * rem + 8) / 16
  }

  function ScaleLut(p: seq<Point>, depth: int, index: int): int
    requires ValidPoints(p) && depth in {8, 10, 12}
  {
    Interpolated(p, depth, index / Pad(depth), index % Pad(depth))
  }

  // ----- No overshoot -----

  /** One step less than the whole segment never covers more than all of it. */
  lemma ReciprocalBound(dx: int, x: int)
    requires 0 < dx < 256 && 0 <= x < dx
    ensures 0 <= x * Reciprocal(dx) <= 0x10000
  {
    var r := Reciprocal(dx);
    assert dx * r <= 0x10000 + dx / 2;
    assert r >= 128 by {
      DivAtLeast(0x10000 + dx / 2, dx, 128);
    }
    MulMonotone(x, dx - 1, r);
    MulMonotone(0, x, r);
    assert (dx - 1) * r == dx * r - r;
  }

  lemma DivAtLeast(v: int, d: int, q: int)
    requires d > 0 && q * d <= v
    ensures q <= v / d
  {
    assert (v / d + 1) * d == v / d * d + d;
    MulInverse(q, v / d + 1, d);
  }

  lemma SlopeTerm(p0: Point, p1: Point, x: int)
    requires p0.0 < p1.0
    ensures (x - p0.0) * Delta(p0, p1) == (p1.1 - p0.1) * ((x - p0.0) * Reciprocal(p1.0 - p0.0))
  {
  }

  /** A segment stays between its two ends, and moves one way only. */
  lemma LerpInHull(p0: Point, p1: Point, x: int)
    requires p0.0 <= x < p1.0 && p1.0 - p0.0 < 256
    ensures Min(p0.1, p1.1) <= Lerp(p0, p1, x) <= Max(p0.1, p1.1)
    ensures x == p0.0 ==> Lerp(p0, p1, x) == p0.1
  {
    var dy, t := p1.1 - p0.1, (x - p0.0) * Reciprocal(p1.0 - p0.0);
    SlopeTerm(p0, p1, x);
    ReciprocalBound(p1.0 - p0.0, x - p0.0);
    if dy >= 0 {
      MulMonotone(0, t, dy);
      MulMonotone(t, 0x10000, dy);
    } else {
      MulMonotone(0, t, -dy);
      MulMonotone(t, 0x10000, -dy);
      assert t * (-dy) == -(dy * t);
    }
  }

  lemma LerpMonotone(p0: Point, p1: Point, x1: int, x2: int)
    requires p0.0 <= x1 <= x2 < p1.0 && p1.0 - p0.0 < 256
    ensures p0.1 <= p1.1 ==> Lerp(p0, p1, x1) <= Lerp(p0, p1, x2)
    ensures p0.1 >= p1.1 ==> Lerp(p0, p1, x1) >= Lerp(p0, p1, x2)
  {
    var dy, r := p1.1 - p0.1, Reciprocal(p1.0 - p0.0);
    var t1, t2 := (x1 - p0.0) * r, (x2 - p0.0) * r;
    SlopeTerm(p0, p1, x1);
    SlopeTerm(p0, p1, x2);
    DivAtLeast(0x10000 + (p1.0 - p0.0) / 2, p1.0 - p0.0, 0);
    MulMonotone(x1 - p0.0, x2 - p0.0, r);
    if dy >= 0 {
      MulMonotone(t1, t2, dy);
    } else {
      MulMonotone(t1, t2, -dy);
      assert t1 * (-dy) == -(dy * t1) && t2 * (-dy) == -(dy * t2);
    }
  }

  /** The segment an x belongs to. */
  lemma {:induction false} LutFromSegment(p: seq<Point>, x: int, k: nat, m: nat)
    requires ValidPoints(p) && k <= m < |p| && p[k].0 <= x && (k + 1 < |p| ==> x < p[k + 1].0)
    ensures p[0].0 <= x
    ensures LutFrom(p, x, m) == if k == |p| - 1 then p[k].1 else Lerp(p[k], p[k + 1], x)
    decreases m
  {
    if k < m {
      assert p[k + 1].0 <= p[m].0;
      assert x < p[m].0;
      LutFromSegment(p, x, k, m - 1);
    }
  }

  lemma LutSegment(p: seq<Point>, x: int, k: nat)
    requires ValidPoints(p) && k < |p| && p[k].0 <= x && (k + 1 < |p| ==> x < p[k + 1].0)
    ensures Lut(p, x) == if k == |p| - 1 then p[k].1 else Lerp(p[k], p[k + 1], x)
  {
    LutFromSegment(p, x, k, |p| - 1);
  }

  /** At a control point the table has its value. */
  lemma LutAtPoint(p: seq<Point>, k: nat)
    requires ValidPoints(p) && k < |p|
    ensures Lut(p, p[k].0) == p[k].1
  {
    LutSegment(p, p[k].0, k);
    if k + 1 < |p| {
      LerpInHull(p[k], p[k + 1], p[k].0);
    }
  }

  /** The values at the high bits: between two control points, ends included, they stay between the
      ends and move one way only. */
  lemma LutBetweenPoints(p: seq<Point>, k: nat, x1: int, x2: int)
    requires ValidPoints(p) && k + 1 < |p| && p[k].0 <= x1 <= x2 <= p[k + 1].0
    ensures p[k].1 <= p[k + 1].1 ==> p[k].1 <= Lut(p, x1) <= Lut(p, x2) <= p[k + 1].1
    ensures p[k].1 >= p[k + 1].1 ==> p[k].1 >= Lut(p, x1) >= Lut(p, x2) >= p[k + 1].1
  {
    LutAtPoint(p, k + 1);
    if x1 < p[k + 1].0 {
      LutSegment(p, x1, k);
      LerpInHull(p[k], p[k + 1], x1);
    }
    if x2 < p[k + 1].0 {
      LutSegment(p, x2, k);
      LerpInHull(p[k], p[k + 1], x2);
      LerpMonotone(p[k], p[k + 1], x1, x2);
    }
  }

  lemma {:induction false} LutFromIsByte(p: seq<Point>, x: int, k: nat)
    requires ValidPoints(p) && k < |p| && p[0].0 <= x && (k + 1 < |p| ==> x < p[k + 1].0)
    ensures 0 <= LutFrom(p, x, k) < 256
    decreases k
  {
    if x < p[k].0 {
      LutFromIsByte(p, x, k - 1);
    } else if k + 1 < |p| {
      LerpInHull(p[k], p[k + 1], x);
    }
  }

  lemma LutIsByte(p: seq<Point>, x: int)
    requires ValidPoints(p)
    ensures 0 <= Lut(p, x) < 256
  {
    if p != [] && x >= p[0].0 {
      LutFromIsByte(p, x, |p| - 1);
    }
  }

  // ----- Closeness to the straight line -----

  /** `v` is less than one away from the line through two points, at x. */
  predicate NearLine(v: int, p0: Point, p1: Point, x: int) {
    Abs((p1.0 - p0.0) * (v - p0.1) - (p1.1 - p0.1) * (x - p0.0)) < p1.0 - p0.0
  }

  /** The reciprocal is the nearest one. */
  lemma ReciprocalIsNearest(dx: int)
    requires dx > 0
    ensures 2 * Abs(Reciprocal(dx) * dx - 0x10000) <= dx
  {
    var n := 0x10000 + dx / 2;
    assert n == n / dx * dx + n % dx;
  }

  lemma AbsProductBound(a: int, b: int, m: int, n: int)
    requires Abs(a) <= m && Abs(b) <= n
    ensures Abs(a * b) <= m * n
  {
    AbsProduct(a, b);
    MulMonotone(Abs(a), m, Abs(b));
    MulMonotone(Abs(b), n, m);
    assert Abs(b) * m == m * Abs(b) && n * m == m * n;
  }

  /** With `e` the error of the reciprocal `r` and `z` that of the rounding to `w`. */
  lemma LineDeviation(dx: int, dy: int, t: int, r: int, w: int, e: int, z: int)
    requires e == r * dx - 0x10000 && z == 0x10000 * w - t * (dy * r)
    ensures 0x10000 * (dx * w - dy * t) == dx * z + (dy * t) * e
  {
    assert dx * z == 0x10000 * (dx * w) - dx * (t * (dy * r));
    assert (dy * t) * e == (dy * t) * (r * dx) - 0x10000 * (dy * t);
    assert dx * (t * (dy * r)) == (dy * t) * (r * dx);
  }

  lemma LineDeviationBound(dx: int, s: int, e: int, z: int)
    requires 0 < dx < 256 && Abs(s) <= 255 * 254 && 2 * Abs(e) <= dx && Abs(z) <= 0x8000
    ensures Abs(dx * z + s * e) < 0x10000 * dx
  {
    AbsProductBound(dx, z, dx, 0x8000);
    AbsProductBound(s, 2 * e, 255 * 254, dx);
    assert s * (2 * e) == 2 * (s * e);
  }

  lemma LerpNearLine(p0: Point, p1: Point, x: int)
    requires p0.0 <= x < p1.0 && p1.0 - p0.0 < 256 && Abs(p1.1 - p0.1) < 256
    ensures NearLine(Lerp(p0, p1, x), p0, p1, x)
  {
    var dx, dy, t, r := p1.0 - p0.0, p1.1 - p0.1, x - p0.0, Reciprocal(p1.0 - p0.0);
    var w := Lerp(p0, p1, x) - p0.1;
    var e, z := r * dx - 0x10000, 0x10000 * w - t * (dy * r);
    ReciprocalIsNearest(dx);
    AbsProductBound(dy, t, 255, 254);
    LineDeviation(dx, dy, t, r, w, e, z);
    LineDeviationBound(dx, dy * t, e, z);
  }

  /** Between two control points the first pass is less than one away from the straight line. */
  lemma LutNearLine(p: seq<Point>, k: nat, x: int)
    requires ValidPoints(p) && k + 1 < |p| && p[k].0 <= x < p[k + 1].0
    ensures NearLine(Lut(p, x), p[k], p[k + 1], x)
  {
    LutSegment(p, x, k);
    LerpNearLine(p[k], p[k + 1], x);
  }

  /** `v` is the nearest value on the line from `v0` to `v1`, `rem` steps of `pad` on. */
  predicate NearestBetween(v: int, v0: int, v1: int, rem: int, pad: int) {
    2 * Abs(pad * (v - v0) - (v1 - v0) * rem) <= pad
  }

  lemma BetweenIsNearest(v0: int, v1: int, rem: int, pad: int)
    requires pad == 4 || pad == 16
    ensures NearestBetween(v0 + Between(v1 - v0, rem, pad), v0, v1, rem, pad)
  {
  }

  lemma QuarterOrder(range: int, t1: int, t2: int)
    ensures 0 <= t1 <= t2 <= 4 * range ==> 0 <= (t1 + 2) / 4 <= (t2 + 2) / 4 <= range
    ensures 0 >= t1 >= t2 >= 4 * range ==> 0 >= (t1 + 2) / 4 >= (t2 + 2) / 4 >= range
  {
  }

  lemma SixteenthOrder(range: int, t1: int, t2: int)
    ensures 0 <= t1 <= t2 <= 16 * range ==> 0 <= (t1 + 8) / 16 <= (t2 + 8) / 16 <= range
    ensures 0 >= t1 >= t2 >= 16 * range ==> 0 >= (t1 + 8) / 16 >= (t2 + 8) / 16 >= range
  {
  }

  lemma ProductOrder(range: int, rem1: int, rem2: int, pad: int)
    requires 0 <= rem1 <= rem2 <= pad
    ensures range >= 0 ==> 0 <= range * rem1 <= range * rem2 <= range * pad
    ensures range <= 0 ==> 0 >= range * rem1 >= range * rem2 >= range * pad
  {
    if range >= 0 {
      MulMonotone(0, rem1, range);
      MulMonotone(rem1, rem2, range);
      MulMonotone(rem2, pad, range);
    } else {
      MulMonotone(0, rem1, -range);
      MulMonotone(rem1, rem2, -range);
      MulMonotone(rem2, pad, -range);
      assert rem1 * (-range) == -(range * rem1) && rem2 * (-range) == -(range * rem2) && pad * (-range) == -(range * pad);
    }
  }

  /** The second pass: between two neighbouring values, one way only. */
  lemma BetweenInHull(range: int, rem1: int, rem2: int, pad: int)
    requires (pad == 4 || pad == 16) && 0 <= rem1 <= rem2 < pad
    ensures range >= 0 ==> 0 <= Between(range, rem1, pad) <= Between(range, rem2, pad) <= range
    ensures range <= 0 ==> 0 >= Between(range, rem1, pad) >= Between(range, rem2, pad) >= range
  {
    ProductOrder(range, rem1, rem2, pad);
    QuarterOrder(range, range * rem1, range * rem2);
    SixteenthOrder(range, range * rem1, range * rem2);
  }

  /** Every entry fits the byte it is cast to. */
  lemma InterpolatedIsByte(p: seq<Point>, depth: int, x: int, rem: int)
    requires ValidPoints(p) && depth in {8, 10, 12} && 0 <= rem < Pad(depth)
    ensures 0 <= Interpolated(p, depth, x, rem) < 256
  {
    LutIsByte(p, x);
    if depth != 8 && x != 255 {
      LutIsByte(p, x + 1);
      BetweenInHull(Lut(p, x + 1) - Lut(p, x), rem, rem, Pad(depth));
    }
  }

  /** Order along an index: high bits first. */
  predicate Before(x1: int, r1: int, x2: int, r2: int) {
    x1 < x2 || (x1 == x2 && r1 <= r2)
  }

  lemma InterpolatedBetween(p: seq<Point>, depth: int, k: nat, x: int, rem: int)
    requires ValidPoints(p) && depth in {8, 10, 12} && 0 <= rem < Pad(depth)
    requires k + 1 < |p| && p[k].0 <= x < p[k + 1].0
    ensures p[k].1 <= p[k + 1].1 ==>
              p[k].1 <= Lut(p, x) <= Interpolated(p, depth, x, rem) <= Lut(p, x + 1) <= p[k + 1].1
    ensures p[k].1 >= p[k + 1].1 ==>
              p[k].1 >= Lut(p, x) >= Interpolated(p, depth, x, rem) >= Lut(p, x + 1) >= p[k + 1].1
  {
    LutBetweenPoints(p, k, x, x + 1);
    if depth != 8 && x != 255 {
      BetweenInHull(Lut(p, x + 1) - Lut(p, x), rem, rem, Pad(depth));
    }
  }

  /** Between two control points the whole table stays between their values and moves one way only. */
  lemma NoOvershoot(p: seq<Point>, depth: int, k: nat, x1: int, r1: int, x2: int, r2: int)
    requires ValidPoints(p) && depth in {8, 10, 12} && 0 <= r1 < Pad(depth) && 0 <= r2 < Pad(depth)
    requires k + 1 < |p| && p[k].0 <= x1 && x2 < p[k + 1].0 && Before(x1, r1, x2, r2)
    ensures p[k].1 <= p[k + 1].1 ==>
              p[k].1 <= Interpolated(p, depth, x1, r1) <= Interpolated(p, depth, x2, r2) <= p[k + 1].1
    ensures p[k].1 >= p[k + 1].1 ==>
              p[k].1 >= Interpolated(p, depth, x1, r1) >= Interpolated(p, depth, x2, r2) >= p[k + 1].1
  {
    InterpolatedBetween(p, depth, k, x1, r1);
    InterpolatedBetween(p, depth, k, x2, r2);
    if x1 < x2 {
      LutBetweenPoints(p, k, x1 + 1, x2);
    } else if depth != 8 && x1 != 255 {
      BetweenInHull(Lut(p, x1 + 1) - Lut(p, x1), r1, r2, Pad(depth));
    }
  }

  // ----- The table in the buffer -----

  /** Entry `rem` above `x << shift_x`. */
  function Slot(pad: int, x: int, rem: int): int {
    if pad == 1 then x + rem else if pad == 4 then 4 * x + rem else 16 * x + rem
  }

  predicate IsSlot(pad: int, x: int, rem: int) {
    0 <= x < 256 && 0 <= rem < pad
  }

  predicate IsTable(a: array<int>, pad: int) {
    (pad == 1 || pad == 4 || pad == 16) && a.Length == if pad == 1 then 256 else 4096
  }

  /** `as u8`. */
  function AsByte(v: int): int {
    v % 0x100
  }

  /** `scaling[..n].fill(v)` and `scaling[n..].fill(v)`. */
  method Fill(a: array<int>, lo: int, hi: int, v: int)
    requires 0 <= lo <= hi <= a.Length
    modifies a
    ensures forall i :: 0 <= i < a.Length ==> a[i] == if lo <= i < hi then v else old(a[i])
  {
    for i := lo to hi
      invariant forall j :: 0 <= j < a.Length ==> a[j] == if lo <= j < i then v else old(a[j])
    {
      a[i] := v;
    }
  }

  /** Every entry below `(x, rem)` that the first pass writes holds the table's value at its high bits;
      the others between control points are still zero. */
  ghost predicate Coarse(a: array<int>, pad: int, p: seq<Point>, upTo: int)
    requires ValidPoints(p) && IsTable(a, pad)
    reads a
  {
    forall x :: 0 <= x < upTo && x < 256 ==> a[Slot(pad, x, 0)] == Lut(p, x)
  }

  /** Outside the control points every entry is the nearest point's value. */
  ghost predicate Flat(a: array<int>, pad: int, lo: int, hi: int, v: int)
    requires IsTable(a, pad)
    reads a
  {
    forall x, rem :: IsSlot(pad, x, rem) && lo <= x < hi ==> a[Slot(pad, x, rem)] == v
  }

  /** Nothing outside these entries has changed. */
  twostate predicate OnlyBetween(a: array<int>, lo: int, hi: int)
    reads a
  {
    forall i :: 0 <= i < a.Length && (i < lo || i >= hi) ==> a[i] == old(a[i])
  }

  /** The accumulator of the first pass, `x` steps into a segment. */
  ghost function AccumulatorAt(delta: int, x: int): int {
    0x8000 + x * delta
  }

  lemma NextAccumulator(delta: int, x: int)
    ensures AccumulatorAt(delta, x) + delta == AccumulatorAt(delta, x + 1)
  {
    assert (x + 1) * delta == x * delta + delta;
  }

  /** One window of the first pass: the accumulator `d` is the closed form of the segment. */
  method Segment(a: array<int>, pad: int, p0: Point, p1: Point, ghost p: seq<Point>, ghost k: nat)
    requires IsTable(a, pad) && ValidPoints(p) && k + 1 < |p| && p0 == p[k] && p1 == p[k + 1]
    requires Coarse(a, pad, p, p0.0)
    modifies a
    ensures Coarse(a, pad, p, p1.0)
    ensures OnlyBetween(a, Slot(pad, p0.0, 0), Slot(pad, p1.0, 0))
  {
    var bx, y0 := p0.0, p0.1;
    var dx, dy := p1.0 - bx, p1.1 - y0;
    var delta := dy * ((0x10000 + dx / 2) / dx);
    assert delta == Delta(p0, p1);
    var d := 0x8000;
    assert d == AccumulatorAt(delta, 0);
    for x := 0 to dx
      invariant d == AccumulatorAt(delta, x)
      invariant Coarse(a, pad, p, bx + x)
      invariant OnlyBetween(a, Slot(pad, p0.0, 0), Slot(pad, p1.0, 0))
    {
      SegmentValue(p, k, bx + x, delta, d);
      a[Slot(pad, bx + x, 0)] := AsByte(y0 + d / 0x10000);
      NextAccumulator(delta, x);
      d := d + delta;
    }
  }

  lemma SegmentValue(p: seq<Point>, k: nat, x: int, delta: int, d: int)
    requires ValidPoints(p) && k + 1 < |p| && p[k].0 <= x < p[k + 1].0
    requires delta == Delta(p[k], p[k + 1]) && d == AccumulatorAt(delta, x - p[k].0)
    ensures AsByte(p[k].1 + d / 0x10000) == Lut(p, x)
  {
    LutSegment(p, x, k);
    LutIsByte(p, x);
  }

  /** The first pass. */
  method CoarsePass(a: array<int>, pad: int, points: seq<Point>)
    requires IsTable(a, pad) && ValidPoints(points) && points != []
    modifies a
    ensures Coarse(a, pad, points, 256)
    ensures Flat(a, pad, 0, points[0].0, points[0].1)
    ensures Flat(a, pad, points[|points| - 1].0, 256, points[|points| - 1].1)
    ensures forall i :: 256 * pad <= i < a.Length ==> a[i] == old(a[i])
  {
    var last := |points| - 1;
    Fill(a, 0, Slot(pad, points[0].0, 0), points[0].1);
    for k := 0 to last
      invariant Coarse(a, pad, points, points[k].0)
      invariant Flat(a, pad, 0, points[0].0, points[0].1)
      invariant forall i :: 256 * pad <= i < a.Length ==> a[i] == old(a[i])
    {
      Segment(a, pad, points[k], points[k + 1], points, k);
    }
    Fill(a, Slot(pad, points[last].0, 0), 256 * pad, points[last].1);
    forall x | points[last].0 <= x < 256
      ensures a[Slot(pad, x, 0)] == Lut(points, x)
    {
      LutSegment(points, x, last);
    }
  }

  /** Entries from `lo` to `hi` are finished. */
  ghost predicate Fine(a: array<int>, depth: int, p: seq<Point>, lo: int, hi: int)
    requires ValidPoints(p) && IsTable(a, Pad(depth))
    reads a
  {
    forall x, rem :: IsSlot(Pad(depth), x, rem) && lo <= x < hi ==> a[Slot(Pad(depth), x, rem)] == Interpolated(p, depth, x, rem)
  }

  /** The accumulator of the second pass. */
  ghost function FineAccumulatorAt(rnd: int, range: int, n: int): int {
    rnd + range * n
  }

  lemma NextFineAccumulator(rnd: int, range: int, n: int)
    ensures FineAccumulatorAt(rnd, range, n - 1) + range == FineAccumulatorAt(rnd, range, n)
  {
    assert range * n == range * (n - 1) + range;
  }

  lemma FineValue(p: seq<Point>, depth: int, x: int, n: int, v0: int, v1: int, r: int)
    requires depth in {10, 12} && ValidPoints(p) && 0 <= x < 255 && 0 <= n < Pad(depth)
    requires v0 == Lut(p, x) && v1 == Lut(p, x + 1) && r == FineAccumulatorAt(Pad(depth) / 2, v1 - v0, n)
    ensures AsByte(v0 + r / Pad(depth)) == Interpolated(p, depth, x, n)
  {
    AccumulatedIsBetween(v1 - v0, n, Pad(depth));
    InterpolatedIsByte(p, depth, x, n);
    ByteIsKept(Interpolated(p, depth, x, n));
  }

  lemma AccumulatedIsBetween(range: int, n: int, pad: int)
    requires pad == 4 || pad == 16
    ensures FineAccumulatorAt(pad / 2, range, n) / pad == Between(range, n, pad)
  {
  }

  lemma ByteIsKept(v: int)
    requires 0 <= v < 256
    ensures AsByte(v) == v
  {
  }

  /** The values of the second pass above `x`. */
  ghost function FineValues(p: seq<Point>, depth: int, x: int): int -> int
    requires ValidPoints(p)
  {
    n => Interpolated(p, depth, x, n)
  }

  lemma FineValuesAre(p: seq<Point>, depth: int, x: int, pad: int, v0: int, v1: int)
    requires depth in {10, 12} && pad == Pad(depth) && ValidPoints(p) && 0 <= x < 255 && v0 == Lut(p, x) && v1 == Lut(p, x + 1)
    ensures FineValues(p, depth, x)(0) == v0
    ensures IsRun(FineValues(p, depth, x), v0, v1 - v0, pad / 2, pad)
  {
    forall n | 1 <= n < pad
      ensures FineValues(p, depth, x)(n) == RunValue(v0, v1 - v0, pad / 2, n, pad)
    {
      FineValue(p, depth, x, n, v0, v1, FineAccumulatorAt(pad / 2, v1 - v0, n));
    }
  }

  ghost function RunValue(v0: int, range: int, rnd: int, n: int, pad: int): int
    requires pad > 0
  {
    AsByte(v0 + FineAccumulatorAt(rnd, range, n) / pad)
  }

  ghost predicate IsRun(out: int -> int, v0: int, range: int, rnd: int, pad: int)
    requires pad > 0
  {
    forall n :: 1 <= n < pad ==> out(n) == RunValue(v0, range, rnd, n, pad)
  }

  /** The innermost loop: the accumulator `r` is the closed form, and reading `scaling[bx + x]` back
      still finds the first pass's value. */
  method FillRun(a: array<int>, base: int, pad: int, range: int, rnd: int, ghost out: int -> int)
    requires pad > 0 && 0 <= base && base + pad <= a.Length && a[base] == out(0)
    requires IsRun(out, a[base], range, rnd, pad)
    modifies a
    ensures forall i :: base <= i < base + pad ==> a[i] == out(i - base)
    ensures OnlyBetween(a, base, base + pad)
  {
    var r := rnd;
    assert r == FineAccumulatorAt(rnd, range, 0);
    for n := 1 to pad
      invariant r == FineAccumulatorAt(rnd, range, n - 1)
      invariant forall i :: base <= i < base + n ==> a[i] == out(i - base)
      invariant OnlyBetween(a, base, base + pad)
    {
      NextFineAccumulator(rnd, range, n);
      r := r + range;
      assert out(n) == RunValue(a[base], range, rnd, n, pad);
      a[base + n] := AsByte(a[base] + r / pad);
    }
  }

  /** The run, as entries above `x`; the first entries of other runs are kept. */
  method FillSlots(a: array<int>, pad: int, x: int, range: int, rnd: int, ghost out: int -> int)
    requires IsTable(a, pad) && 0 <= x < 255 && a[Slot(pad, x, 0)] == out(0)
    requires IsRun(out, a[Slot(pad, x, 0)], range, rnd, pad)
    modifies a
    ensures forall rem :: 0 <= rem < pad ==> a[Slot(pad, x, rem)] == out(rem)
    ensures forall y :: 0 <= y < 256 && y != x ==> a[Slot(pad, y, 0)] == old(a[Slot(pad, y, 0)])
    ensures OnlyBetween(a, Slot(pad, x, 0), Slot(pad, x + 1, 0))
  {
    var base := Slot(pad, x, 0);
    assert Slot(pad, x + 1, 0) == base + pad;
    FillRun(a, base, pad, range, rnd, out);
    forall rem | 0 <= rem < pad
      ensures a[Slot(pad, x, rem)] == out(rem)
    {
      SlotSplit(pad, x, rem, x);
    }
    forall y | 0 <= y < 256 && y != x
      ensures a[Slot(pad, y, 0)] == old(a[Slot(pad, y, 0)])
    {
      SlotSplit(pad, x, 0, y);
    }
  }

  /** The entries between two neighbouring values. */
  method FillBetween(a: array<int>, depth: int, pad: int, x: int, rnd: int, ghost p: seq<Point>)
    requires depth in {10, 12} && pad == Pad(depth) && IsTable(a, pad) && ValidPoints(p) && 0 <= x < 255 && rnd == pad / 2
    requires Coarse(a, pad, p, 256)
    modifies a
    ensures Fine(a, depth, p, x, x + 1) && Coarse(a, pad, p, 256)
    ensures OnlyBetween(a, Slot(pad, x, 0), Slot(pad, x + 1, 0))
  {
    var v0, v1 := a[Slot(pad, x, 0)], a[Slot(pad, x + 1, 0)];
    ghost var out := FineValues(p, depth, x);
    FineValuesAre(p, depth, x, pad, v0, v1);
    FillSlots(a, pad, x, v1 - v0, rnd, out);
    SlotSplit(pad, x, 0, x);
  }

  lemma SlotSplit(pad: int, x: int, rem: int, y: int)
    requires (pad == 1 || pad == 4 || pad == 16) && IsSlot(pad, x, rem) && 0 <= y < 256
    ensures Slot(pad, x, rem) == Slot(pad, x, 0) + rem
    ensures y < x ==> 0 <= Slot(pad, y, 0) < Slot(pad, x, 0)
    ensures y > x ==> Slot(pad, x, 0) + pad <= Slot(pad, y, 0) < 256 * pad
  {
  }

  /** One window of the second pass. */
  method FineWindow(a: array<int>, depth: int, pad: int, p0: Point, p1: Point, rnd: int, ghost p: seq<Point>)
    requires depth in {10, 12} && pad == Pad(depth) && IsTable(a, pad) && ValidPoints(p) && rnd == pad / 2
    requires 0 <= p0.0 < p1.0 < 256 && p != [] && p[0].0 <= p0.0
    requires Coarse(a, pad, p, 256) && Fine(a, depth, p, p[0].0, p0.0)
    modifies a
    ensures Coarse(a, pad, p, 256) && Fine(a, depth, p, p[0].0, p1.0)
    ensures OnlyBetween(a, Slot(pad, p0.0, 0), Slot(pad, p1.0, 0))
  {
    for x := p0.0 to p1.0
      invariant Coarse(a, pad, p, 256) && Fine(a, depth, p, p[0].0, x)
      invariant OnlyBetween(a, Slot(pad, p0.0, 0), Slot(pad, p1.0, 0))
    {
      FillBetween(a, depth, pad, x, rnd, p);
    }
  }

  /** The second pass. */
  method FinePass(a: array<int>, depth: int, points: seq<Point>)
    requires depth in {10, 12} && IsTable(a, Pad(depth)) && ValidPoints(points) && points != []
    requires Coarse(a, Pad(depth), points, 256)
    modifies a
    ensures Fine(a, depth, points, points[0].0, points[|points| - 1].0)
    ensures OnlyBetween(a, Slot(Pad(depth), points[0].0, 0), Slot(Pad(depth), points[|points| - 1].0, 0))
  {
    var pad := Pad(depth);
    ghost var lo, hi := Slot(pad, points[0].0, 0), Slot(pad, points[|points| - 1].0, 0);
    forall k | 0 <= k < |points|
      ensures lo <= Slot(pad, points[k].0, 0) <= hi
    {
      SlotOrder(pad, points, 0, k);
      SlotOrder(pad, points, k, |points| - 1);
    }
    FineWindows(a, depth, pad, points, lo, hi);
  }

  method FineWindows(a: array<int>, depth: int, pad: int, points: seq<Point>, ghost lo: int, ghost hi: int)
    requires depth in {10, 12} && pad == Pad(depth) && IsTable(a, pad) && ValidPoints(points) && points != []
    requires Coarse(a, pad, points, 256)
    requires forall k :: 0 <= k < |points| ==> lo <= Slot(pad, points[k].0, 0) <= hi
    modifies a
    ensures Fine(a, depth, points, points[0].0, points[|points| - 1].0)
    ensures OnlyBetween(a, lo, hi)
  {
    var rnd := pad / 2;
    for k := 0 to |points| - 1
      invariant Coarse(a, pad, points, 256) && Fine(a, depth, points, points[0].0, points[k].0)
      invariant OnlyBetween(a, lo, hi)
    {
      FineWindow(a, depth, pad, points[k], points[k + 1], rnd, points);
    }
  }

  lemma SlotOrder(pad: int, p: seq<Point>, i: nat, j: nat)
    requires ValidPoints(p) && i <= j < |p|
    ensures Slot(pad, p[i].0, 0) <= Slot(pad, p[j].0, 0)
  {
  }

  /** Outside the control points interpolating changes nothing. */
  lemma FlatIsFine(p: seq<Point>, depth: int, x: int, rem: int)
    requires ValidPoints(p) && p != [] && depth in {8, 10, 12} && IsSlot(Pad(depth), x, rem)
    ensures x < p[0].0 ==> Interpolated(p, depth, x, rem) == p[0].1
    ensures x >= p[|p| - 1].0 ==> Interpolated(p, depth, x, rem) == p[|p| - 1].1
  {
    if x < p[0].0 {
      LutAtPoint(p, 0);
    } else if x >= p[|p| - 1].0 {
      LutSegment(p, x, |p| - 1);
      LutSegment(p, x + 1, |p| - 1);
    }
  }

  lemma SlotOfIndex(pad: int, i: int)
    requires (pad == 1 || pad == 4 || pad == 16) && 0 <= i < 256 * pad
    ensures IsSlot(pad, i / pad, i % pad) && Slot(pad, i / pad, i % pad) == i
  {
  }

  /** `generate_scaling`: at every sample value the table is the scaling function of section 7.18.3:
      through the control points, close to the straight lines between them, and flat outside; entries
      no sample can reach stay zero. */
  method GenerateScaling(depth: int, points: seq<Point>) returns (scaling: array<int>)
    requires depth in {8, 10, 12} && ValidPoints(points)
    ensures scaling.Length == if depth == 8 then 256 else 4096
    ensures forall i :: 0 <= i < 256 * Pad(depth) ==> scaling[i] == ScaleLut(points, depth, i)
    ensures forall i :: 256 * Pad(depth) <= i < scaling.Length ==> scaling[i] == 0
    ensures ThroughPoints(scaling, Pad(depth), points) && OnLines(scaling, Pad(depth), points)
    ensures FlatOutside(scaling, Pad(depth), points)
    ensures depth != 8 ==> Interpolates(scaling, Pad(depth))
  {
    scaling := new int[if depth == 8 then 256 else 4096](_ => 0);
    if points == [] {
      TableMeans(scaling, depth, points);
      return;
    }
    CoarsePass(scaling, Pad(depth), points);
    if depth != 8 {
      FinePass(scaling, depth, points);
    }
    TableIsScaleLut(scaling, depth, points);
    TableMeans(scaling, depth, points);
  }

  /** One sample of the padded table for each step of the sample depth. */
  lemma PadIs(depth: int)
    requires depth in {8, 10, 12}
    ensures Pad(depth) == Pow2(depth - 8)
  {
    assert Pow2(0) == 1 && Pow2(2) == 4 && Pow2(4) == 16;
  }

  // ----- What the table is, told by its entries -----

  /** It has the value of every control point. */
  ghost predicate ThroughPoints(a: array<int>, pad: int, p: seq<Point>)
    requires ValidPoints(p) && IsTable(a, pad)
    reads a
  {
    forall k :: 0 <= k < |p| ==> a[Slot(pad, p[k].0, 0)] == p[k].1
  }

  /** Between two control points it is less than one away from the straight line. */
  ghost predicate OnLines(a: array<int>, pad: int, p: seq<Point>)
    requires ValidPoints(p) && IsTable(a, pad)
    reads a
  {
    forall k, x :: 0 <= k < |p| - 1 && p[k].0 <= x < p[k + 1].0 ==> NearLine(a[Slot(pad, x, 0)], p[k], p[k + 1], x)
  }

  /** Before the first and from the last on it is constant, and it is zero without points. */
  ghost predicate FlatOutside(a: array<int>, pad: int, p: seq<Point>)
    requires IsTable(a, pad)
    reads a
  {
    forall x, rem :: IsSlot(pad, x, rem) ==>
      && (p == [] ==> a[Slot(pad, x, rem)] == 0)
      && (p != [] && x < p[0].0 ==> a[Slot(pad, x, rem)] == p[0].1)
      && (p != [] && x >= p[|p| - 1].0 ==> a[Slot(pad, x, rem)] == p[|p| - 1].1)
  }

  /** The entries between those of two neighbouring high bits are on the line between them, rounded. */
  ghost predicate Interpolates(a: array<int>, pad: int)
    requires IsTable(a, pad)
    reads a
  {
    forall x, rem :: IsSlot(pad, x, rem) && x < 255 ==>
      NearestBetween(a[Slot(pad, x, rem)], a[Slot(pad, x, 0)], a[Slot(pad, x + 1, 0)], rem, pad)
  }

  lemma EntryIs(a: array<int>, depth: int, p: seq<Point>, x: int, rem: int)
    requires depth in {8, 10, 12} && ValidPoints(p) && IsTable(a, Pad(depth)) && IsSlot(Pad(depth), x, rem)
    requires forall i :: 0 <= i < 256 * Pad(depth) ==> a[i] == ScaleLut(p, depth, i)
    ensures a[Slot(Pad(depth), x, rem)] == Interpolated(p, depth, x, rem)
    ensures a[Slot(Pad(depth), x, 0)] == Lut(p, x)
  {
    IndexOfSlot(Pad(depth), x, rem);
    IndexOfSlot(Pad(depth), x, 0);
    assert (Lut(p, x + 1) - Lut(p, x)) * 0 == 0;
  }

  lemma IndexOfSlot(pad: int, x: int, rem: int)
    requires (pad == 1 || pad == 4 || pad == 16) && IsSlot(pad, x, rem)
    ensures 0 <= Slot(pad, x, rem) < 256 * pad && Slot(pad, x, rem) / pad == x && Slot(pad, x, rem) % pad == rem
  {
  }

  lemma TableMeans(a: array<int>, depth: int, p: seq<Point>)
    requires depth in {8, 10, 12} && ValidPoints(p) && IsTable(a, Pad(depth))
    requires forall i :: 0 <= i < 256 * Pad(depth) ==> a[i] == ScaleLut(p, depth, i)
    ensures ThroughPoints(a, Pad(depth), p) && OnLines(a, Pad(depth), p) && FlatOutside(a, Pad(depth), p)
    ensures depth != 8 ==> Interpolates(a, Pad(depth))
  {
    var pad := Pad(depth);
    forall k | 0 <= k < |p|
      ensures a[Slot(pad, p[k].0, 0)] == p[k].1
    {
      EntryIs(a, depth, p, p[k].0, 0);
      LutAtPoint(p, k);
    }
    forall k, x | 0 <= k < |p| - 1 && p[k].0 <= x < p[k + 1].0
      ensures NearLine(a[Slot(pad, x, 0)], p[k], p[k + 1], x)
    {
      EntryIs(a, depth, p, x, 0);
      LutNearLine(p, k, x);
    }
    TableIsFlat(a, depth, p);
    if depth != 8 {
      TableInterpolates(a, depth, p);
    }
  }

  lemma TableIsFlat(a: array<int>, depth: int, p: seq<Point>)
    requires depth in {8, 10, 12} && ValidPoints(p) && IsTable(a, Pad(depth))
    requires forall i :: 0 <= i < 256 * Pad(depth) ==> a[i] == ScaleLut(p, depth, i)
    ensures FlatOutside(a, Pad(depth), p)
  {
    forall x, rem | IsSlot(Pad(depth), x, rem)
      ensures p == [] ==> a[Slot(Pad(depth), x, rem)] == 0
      ensures p != [] && x < p[0].0 ==> a[Slot(Pad(depth), x, rem)] == p[0].1
      ensures p != [] && x >= p[|p| - 1].0 ==> a[Slot(Pad(depth), x, rem)] == p[|p| - 1].1
    {
      EntryIs(a, depth, p, x, rem);
      if p != [] {
        FlatIsFine(p, depth, x, rem);
      }
    }
  }

  lemma TableInterpolates(a: array<int>, depth: int, p: seq<Point>)
    requires depth in {10, 12} && ValidPoints(p) && IsTable(a, Pad(depth))
    requires forall i :: 0 <= i < 256 * Pad(depth) ==> a[i] == ScaleLut(p, depth, i)
    ensures Interpolates(a, Pad(depth))
  {
    var pad := Pad(depth);
    forall x, rem | IsSlot(pad, x, rem) && x < 255
      ensures NearestBetween(a[Slot(pad, x, rem)], a[Slot(pad, x, 0)], a[Slot(pad, x + 1, 0)], rem, pad)
    {
      EntryIsNearest(a, depth, p, x, rem, pad);
    }
  }

  lemma EntryIsNearest(a: array<int>, depth: int, p: seq<Point>, x: int, rem: int, pad: int)
    requires depth in {10, 12} && ValidPoints(p) && pad == Pad(depth) && IsTable(a, pad) && IsSlot(pad, x, rem) && x < 255
    requires forall i :: 0 <= i < 256 * pad ==> a[i] == ScaleLut(p, depth, i)
    ensures NearestBetween(a[Slot(pad, x, rem)], a[Slot(pad, x, 0)], a[Slot(pad, x + 1, 0)], rem, pad)
  {
    EntryIs(a, depth, p, x, rem);
    EntryIs(a, depth, p, x + 1, 0);
    BetweenIsNearest(Lut(p, x), Lut(p, x + 1), rem, pad);
  }

  lemma TableIsScaleLut(a: array<int>, depth: int, p: seq<Point>)
    requires depth in {8, 10, 12} && ValidPoints(p) && p != [] && IsTable(a, Pad(depth))
    requires Flat(a, Pad(depth), 0, p[0].0, p[0].1) && Flat(a, Pad(depth), p[|p| - 1].0, 256, p[|p| - 1].1)
    requires if depth == 8 then Coarse(a, 1, p, 256) else Fine(a, depth, p, p[0].0, p[|p| - 1].0)
    ensures forall i :: 0 <= i < 256 * Pad(depth) ==> a[i] == ScaleLut(p, depth, i)
  {
    forall i | 0 <= i < 256 * Pad(depth)
      ensures a[i] == ScaleLut(p, depth, i)
    {
      SlotOfIndex(Pad(depth), i);
      FlatIsFine(p, depth, i / Pad(depth), i % Pad(depth));
    }
  }
}
