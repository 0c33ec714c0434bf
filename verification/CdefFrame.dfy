/**
 * The frame CDEF works on, and what section 7.15 makes of it when every block is filtered from a
 * frozen copy: no buffers, no flags, no order.
 */
module CdefFrame {
  import opened Bits
  import opened CdefSpec
  import opened CdefMeaning
  import opened CdefDirection

  datatype Layout = I400 | I420 | I422 | I444

  /** One 128x128 area: four filter indices and sixteen rows of two 16-bit skip masks. */
  datatype Av1Filter = Av1Filter(cdefIdx: seq<int>, noskip: seq<seq<seq<bool>>>)

  datatype Frame = Frame(
    bw: int, bh: int,           // size in 4x4 units
    layout: Layout, depth: int,
    damping: int, yStrength: seq<int>, uvStrength: seq<int>,
    sb128w: int, mask: seq<Av1Filter>,
    yStride: int, uvStride: int // in pixels, either sign
  )

  predicate ValidFilter(m: Av1Filter) {
    && |m.cdefIdx| == 4 && (forall i :: 0 <= i < 4 ==> -1 <= m.cdefIdx[i] < 8)
    && |m.noskip| == 16
    && (forall r :: 0 <= r < 16 ==> |m.noskip[r]| == 2)
    && (forall r, c :: 0 <= r < 16 && 0 <= c < 2 ==> |m.noskip[r][c]| == 16)
  }

  predicate Strengths(s: seq<int>) {
    |s| == 8 && forall i :: 0 <= i < 8 ==> 0 <= s[i] < 64
  }

  predicate Off(s: seq<int>) {
    forall i :: 0 <= i < |s| ==> s[i] == 0
  }

  /** What the frame header and the allocation of the picture guarantee. */
  predicate ValidFrame(f: Frame) {
    && f.bw > 0 && f.bw % 2 == 0 && f.bh > 0 && f.bh % 2 == 0
    && f.depth in {8, 10, 12}
    && Strengths(f.yStrength) && Strengths(f.uvStrength)
    && (f.layout.I400? ==> Off(f.uvStrength))
    && (3 <= f.damping <= 6 || (f.damping == 0 && Off(f.yStrength) && Off(f.uvStrength)))
    && f.sb128w == (f.bw + 31) / 32
    && |f.mask| == f.sb128w * ((f.bh + 31) / 32)
    && (forall i :: 0 <= i < |f.mask| ==> ValidFilter(f.mask[i]))
    && 4 * f.bw <= Abs(f.yStride)
    && (!f.layout.I400? ==> X0(f, 1, f.bw) <= Abs(f.uvStride))
    && (f.layout.I420? ==> f.uvStride % 2 == 0)
  }

  // ----- Geometry -----

  function Planes(f: Frame): int {
    if f.layout.I400? then 1 else 3
  }

  function BlockW(f: Frame, pl: int): int {
    if pl == 0 || f.layout.I444? then 8 else 4
  }

  function BlockH(f: Frame, pl: int): int {
    if pl == 0 || !f.layout.I420? then 8 else 4
  }

  /** `bx * 4 >> ss_hor` and `by * 4 >> ss_ver`. */
  function X0(f: Frame, pl: int, bx4: int): int {
    if BlockW(f, pl) == 8 then bx4 * 4 else bx4 * 2
  }

  function Y0(f: Frame, pl: int, by4: int): int {
    if BlockH(f, pl) == 8 then by4 * 4 else by4 * 2
  }

  /** The block a pixel belongs to. */
  function BlockX(f: Frame, pl: int, x: int): int {
    if BlockW(f, pl) == 8 then x / 8 * 2 else x / 4 * 2
  }

  function BlockY(f: Frame, pl: int, y: int): int {
    if BlockH(f, pl) == 8 then y / 8 * 2 else y / 4 * 2
  }

  lemma BlockOfPixel(f: Frame, pl: int, x: int, y: int)
    requires f.bw % 2 == 0 && f.bh % 2 == 0 && InPlane(f, pl, x, y)
    ensures IsBlock(f, BlockX(f, pl, x), BlockY(f, pl, y))
    ensures 0 <= x - X0(f, pl, BlockX(f, pl, x)) < BlockW(f, pl)
    ensures 0 <= y - Y0(f, pl, BlockY(f, pl, y)) < BlockH(f, pl)
  {
  }

  predicate InBlockOf(f: Frame, pl: int, x: int, y: int, bx4: int, by4: int) {
    X0(f, pl, bx4) <= x < X0(f, pl, bx4 + 2) && Y0(f, pl, by4) <= y < Y0(f, pl, by4 + 2)
  }

  lemma BlockInPlane(f: Frame, pl: int, x: int, y: int, bx4: int, by4: int)
    requires f.bw % 2 == 0 && f.bh % 2 == 0
    requires 0 <= pl < Planes(f) && IsBlock(f, bx4, by4) && InBlockOf(f, pl, x, y, bx4, by4)
    ensures InPlane(f, pl, x, y) && BlockX(f, pl, x) == bx4 && BlockY(f, pl, y) == by4
  {
  }

  function Stride(f: Frame, pl: int): int {
    if pl == 0 then f.yStride else f.uvStride
  }

  predicate InPlane(f: Frame, pl: int, x: int, y: int) {
    0 <= pl < Planes(f) && 0 <= x < X0(f, pl, f.bw) && 0 <= y < Y0(f, pl, f.bh)
  }

  predicate IsBlock(f: Frame, bx4: int, by4: int) {
    0 <= bx4 < f.bw && bx4 % 2 == 0 && 0 <= by4 < f.bh && by4 % 2 == 0
  }

  // ----- Which blocks are filtered, and how -----

  /** Where the filter records of a row of 128x128 areas start. */
  function MaskOffset(f: Frame, by4: int): int {
    by4 / 32 * f.sb128w
  }

  function MaskIndex(f: Frame, bx4: int, by4: int): int {
    MaskOffset(f, by4) + bx4 / 32
  }

  lemma MaskIndexInRange(f: Frame, bx4: int, by4: int)
    requires ValidFrame(f) && 0 <= bx4 < 32 * f.sb128w && 0 <= by4 < f.bh
    ensures 0 <= MaskIndex(f, bx4, by4) < |f.mask|
  {
    IndexInTable(by4 / 32, (f.bh + 31) / 32, f.sb128w, bx4 / 32);
  }

  lemma IndexInTable(row: int, rows: int, width: int, col: int)
    requires 0 <= row < rows && 0 <= col < width
    ensures 0 <= row * width + col < width * rows
  {
    MulMonotone(row + 1, rows, width);
    MulMonotone(0, row, width);
    assert (row + 1) * width == row * width + width;
  }

  /** The filter record of a block; the source indexes it by 128x128 area. */
  function MaskAt(f: Frame, bx4: int, by4: int): (m: Av1Filter)
    requires ValidFrame(f) && 0 <= bx4 < 32 * f.sb128w && 0 <= by4 < f.bh
    ensures ValidFilter(m)
  {
    MaskIndexInRange(f, bx4, by4);
    f.mask[MaskIndex(f, bx4, by4)]
  }

  function CdefIdx(f: Frame, bx4: int, by4: int): (r: int)
    requires ValidFrame(f) && 0 <= bx4 < 32 * f.sb128w && 0 <= by4 < f.bh
    ensures -1 <= r < 8
  {
    MaskAt(f, bx4, by4).cdefIdx[by4 / 16 % 2 * 2 + bx4 / 16 % 2]
  }

  /** Bit `bx` of the skip mask of row `by`: some of the 4-pixel column was coded. */
  predicate Coded(f: Frame, bx4: int, by4: int)
    requires ValidFrame(f) && 0 <= bx4 < 32 * f.sb128w && 0 <= by4 < f.bh
  {
    MaskAt(f, bx4, by4).noskip[by4 % 32 / 2][bx4 % 32 / 16][bx4 % 16]
  }

  predicate AnyCoded(f: Frame, bx4: int, by4: int)
    requires ValidFrame(f) && IsBlock(f, bx4, by4)
  {
    RowIsWhole(f);
    NextColumn(f.bw, bx4);
    Coded(f, bx4, by4) || Coded(f, bx4 + 1, by4)
  }

  lemma RowIsWhole(f: Frame)
    requires ValidFrame(f)
    ensures f.bw <= 32 * f.sb128w
  {
  }

  lemma NextColumn(bw: int, bx4: int)
    requires bw % 2 == 0 && bx4 % 2 == 0 && bx4 < bw
    ensures bx4 + 1 < bw
  {
  }

  /** All blocks of a 64x64 area read the same filter record and index. */
  lemma AreaOfBlock(f: Frame, sbx: int, bx4: int, by4: int)
    requires ValidFrame(f) && IsBlock(f, bx4, by4) && 16 * sbx <= bx4 < 16 * sbx + 16 && 0 <= sbx < 2 * f.sb128w
    ensures MaskIndex(f, bx4, by4) == MaskIndex(f, 16 * sbx, by4) == MaskOffset(f, by4) + sbx / 2
    ensures CdefIdx(f, bx4, by4) == MaskAt(f, 16 * sbx, by4).cdefIdx[by4 / 16 % 2 * 2 + sbx % 2]
  {
    assert bx4 / 16 == sbx;
    assert bx4 / 32 == sbx / 2;
  }

  lemma SameRecord(f: Frame, bx1: int, bx2: int, by4: int)
    requires ValidFrame(f) && 0 <= bx1 < 32 * f.sb128w && 0 <= bx2 < 32 * f.sb128w && 0 <= by4 < f.bh
    requires bx1 / 32 == bx2 / 32
    ensures MaskAt(f, bx1, by4) == MaskAt(f, bx2, by4)
  {
  }

  /** Section 7.15: an 8x8 block is filtered unless its area is unset or the block was skipped. */
  predicate BlockOn(f: Frame, bx4: int, by4: int)
    requires ValidFrame(f) && IsBlock(f, bx4, by4)
  {
    CdefIdx(f, bx4, by4) != -1 && AnyCoded(f, bx4, by4)
  }

  /** Records are stored row by row of 128x128 areas. */
  lemma RecordIs(f: Frame, row: int, col: int, bx4: int, by4: int)
    requires ValidFrame(f) && 0 <= bx4 < 32 * f.sb128w && 0 <= by4 < f.bh
    requires 32 * col <= bx4 < 32 * col + 32 && 32 * row <= by4 < 32 * row + 32
    ensures 0 <= row * f.sb128w + col < |f.mask| && MaskAt(f, bx4, by4) == f.mask[row * f.sb128w + col]
  {
    assert by4 / 32 == row && bx4 / 32 == col;
    MaskIndexInRange(f, bx4, by4);
  }

  /** A record has an index for each of its four quarters, row by row. */
  lemma QuarterIs(f: Frame, row: int, col: int, bx4: int, by4: int)
    requires ValidFrame(f) && 0 <= bx4 < 32 * f.sb128w && 0 <= by4 < f.bh
    requires 32 * col <= bx4 < 32 * col + 32 && 32 * row <= by4 < 32 * row + 32
    ensures var low, right := by4 - 32 * row >= 16, bx4 - 32 * col >= 16;
            CdefIdx(f, bx4, by4) ==
            MaskAt(f, bx4, by4).cdefIdx[if low then if right then 3 else 2 else if right then 1 else 0]
  {
    Half(by4, row);
    Half(bx4, col);
  }

  lemma Half(v: int, n: int)
    requires 32 * n <= v < 32 * n + 32
    ensures v / 16 % 2 == if v - 32 * n >= 16 then 1 else 0
  {
    assert v / 16 == 2 * n + (if v - 32 * n >= 16 then 1 else 0);
  }

  /** And a bit for each pair of rows and each column of four pixels. */
  lemma BitIs(f: Frame, row: int, col: int, bx4: int, by4: int)
    requires ValidFrame(f) && 0 <= bx4 < 32 * f.sb128w && 0 <= by4 < f.bh
    requires 32 * col <= bx4 < 32 * col + 32 && 32 * row <= by4 < 32 * row + 32
    ensures var bits, x := MaskAt(f, bx4, by4).noskip[(by4 - 32 * row) / 2], bx4 - 32 * col;
            Coded(f, bx4, by4) == if x >= 16 then bits[1][x - 16] else bits[0][x]
  {
    Inside(by4, row);
    Inside(bx4, col);
    SixteenIs(bx4 - 32 * col, bx4, col);
  }

  /** Where a value lies between two multiples of 32. */
  lemma Inside(v: int, n: int)
    requires 32 * n <= v < 32 * n + 32
    ensures v % 32 == v - 32 * n
  {
  }

  lemma SixteenIs(x: int, v: int, n: int)
    requires 0 <= x < 32 && v == 32 * n + x
    ensures x / 16 == (if x >= 16 then 1 else 0) && v % 16 == if x >= 16 then x - 16 else x
  {
    if x >= 16 {
      DivUnique(v, 16, 2 * n + 1, x - 16);
    } else {
      DivUnique(v, 16, 2 * n, x);
    }
  }

  /** A block is on when its area has an index and one of its two columns was coded. */
  lemma BlockOnIs(f: Frame, bx4: int, by4: int)
    requires ValidFrame(f) && IsBlock(f, bx4, by4)
    ensures bx4 + 1 < 32 * f.sb128w
    ensures BlockOn(f, bx4, by4) <==> CdefIdx(f, bx4, by4) != -1 && (Coded(f, bx4, by4) || Coded(f, bx4 + 1, by4))
  {
    RowIsWhole(f);
    NextColumn(f.bw, bx4);
  }

  function Scale(depth: int): int {
    if depth == 8 then 1 else if depth == 10 then 4 else 16
  }

  /** The primary strength of a 6-bit level, and its secondary one with 3 standing for 4. */
  function PriOf(level: int, depth: int): int {
    level / 4 * Scale(depth)
  }

  function SecOf(level: int, depth: int): int {
    (if level % 4 == 3 then 4 else level % 4) * Scale(depth)
  }

  /** The factor of the variance, in sixteenths: 4 to 16. */
  function Gain(variance: int): int
    requires variance >= 0
  {
    var v := Shr(variance, 6);
    4 + if v > 0 then Min(FloorLog2(v), 12) else 0
  }

  function AdjustStrength(strength: int, variance: int): int
    requires variance >= 0
  {
    if variance == 0 then 0 else (strength * Gain(variance) + 8) / 16
  }

  /** The chroma direction: 4:2:2 pixels are twice as wide as they are apart. */
  const UV_DIRS: seq<seq<int>> := [[0, 1, 2, 3, 4, 5, 6, 7], [7, 0, 2, 4, 5, 6, 6, 6]]

  function UvDir(f: Frame, dir: int): int
    requires 0 <= dir < 8
  {
    UV_DIRS[if f.layout.I422? then 1 else 0][dir]
  }

  /** CdefDamping: 3 when the header carries no CDEF parameters; the source then stores 0, which no
      kernel call ever sees. */
  function Damping(f: Frame): int {
    Max(3, f.damping)
  }

  type Image = (int, int, int) -> int

  /** The 8x8 luma block, reduced to 8 bits and centred. */
  function LumaBlock(f: Frame, pre: Image, bx4: int, by4: int): (b: seq<int>)
    requires f.depth >= 8
    ensures |b| == 64
  {
    seq(64, i => Shr(pre(0, 4 * bx4 + i % 8, 4 * by4 + i / 8), f.depth - 8) - 128)
  }

  lemma LumaAt(f: Frame, pre: Image, bx4: int, by4: int, x: int, y: int)
    requires f.depth >= 8 && 0 <= x < 8 && 0 <= y < 8
    ensures LumaBlock(f, pre, bx4, by4)[8 * y + x] == Shr(pre(0, 4 * bx4 + x, 4 * by4 + y), f.depth - 8) - 128
  {
    assert (8 * y + x) % 8 == x && (8 * y + x) / 8 == y;
  }

  lemma LumaInPlane(f: Frame, bx4: int, by4: int, x: int, y: int)
    requires f.bw % 2 == 0 && f.bh % 2 == 0 && IsBlock(f, bx4, by4) && 0 <= x < 8 && 0 <= y < 8
    ensures InPlane(f, 0, 4 * bx4 + x, 4 * by4 + y)
  {
  }

  /** The parameters section 7.15 filters one plane with, given the level of its area and the
      direction and variance of its luma block. */
  function StrengthOf(f: Frame, pl: int, level: int, dir: int, variance: int): Strength
    requires 0 <= dir < 8 && variance >= 0
  {
    var pri := PriOf(level, f.depth);
    var damping := Damping(f) + f.depth - 8;
    if pl == 0 then
      Strength(AdjustStrength(pri, variance), SecOf(level, f.depth), if pri == 0 then 0 else dir, damping, f.depth)
    else
      Strength(pri, SecOf(level, f.depth), if pri == 0 then 0 else UvDir(f, dir), damping - 1, f.depth)
  }

  function Level(f: Frame, pl: int, bx4: int, by4: int): (r: int)
    requires ValidFrame(f) && 0 <= bx4 < 32 * f.sb128w && 0 <= by4 < f.bh && CdefIdx(f, bx4, by4) != -1
    ensures 0 <= r < 64
  {
    if pl == 0 then f.yStrength[CdefIdx(f, bx4, by4)] else f.uvStrength[CdefIdx(f, bx4, by4)]
  }

  function BlockStrength(f: Frame, pre: Image, pl: int, bx4: int, by4: int): Strength
    requires ValidFrame(f) && IsBlock(f, bx4, by4) && CdefIdx(f, bx4, by4) != -1
  {
    var b := LumaBlock(f, pre, bx4, by4);
    BestToIsFirstMax(b, 7);
    VarianceNonNegative(b);
    StrengthOf(f, pl, Level(f, pl, bx4, by4), BestDir(b), Variance(b))
  }

  lemma VarianceNonNegative(b: seq<int>)
    requires |b| == NUM
    ensures Variance(b) >= 0
  {
    BestToIsFirstMax(b, 7);
    ShrAtLeast(Cost(b, BestDir(b)) - Cost(b, (BestDir(b) + 4) % 8), 10, 0);
  }

  /** A plane of the frozen picture, and nothing outside the frame. */
  function PlaneWindow(f: Frame, pre: Image, pl: int): Window {
    (x, y) => FrameCell(f, pre, pl, x, y)
  }

  /** The same, seen from the corner of a block. */
  function FrameWindow(f: Frame, pre: Image, pl: int, bx4: int, by4: int): Window {
    (x, y) => FrameCell(f, pre, pl, X0(f, pl, bx4) + x, Y0(f, pl, by4) + y)
  }

  function FrameCell(f: Frame, pre: Image, pl: int, x: int, y: int): Sample {
    if InPlane(f, pl, x, y) then Px(pre(pl, x, y)) else Missing
  }

  ghost predicate ValidImage(f: Frame, pre: Image)
    requires f.depth >= 8
  {
    forall pl, x, y :: InPlane(f, pl, x, y) ==> 0 <= pre(pl, x, y) < Pow2(f.depth)
  }

  // ----- Planes and directions as geometry -----

  /** Where a pixel of a plane lies in luma: chroma is half as wide in 4:2:0 and 4:2:2, and half as high
      in 4:2:0. */
  function LumaX(f: Frame, pl: int, x: int): int {
    if pl > 0 && (f.layout.I420? || f.layout.I422?) then 2 * x else x
  }

  function LumaY(f: Frame, pl: int, y: int): int {
    if pl > 0 && f.layout.I420? then 2 * y else y
  }

  /** A plane has the pixels that lie in the frame, and a pixel belongs to the 8x8 luma block it lies in. */
  lemma PlaneIsGeometry(f: Frame, pl: int, x: int, y: int)
    requires f.bw > 0 && f.bw % 2 == 0 && f.bh > 0 && f.bh % 2 == 0
    ensures InPlane(f, pl, x, y) <==>
              && 0 <= pl < (if f.layout.I400? then 1 else 3)
              && 0 <= LumaX(f, pl, x) < 4 * f.bw && 0 <= LumaY(f, pl, y) < 4 * f.bh
    ensures InPlane(f, pl, x, y) ==>
              BlockX(f, pl, x) == LumaX(f, pl, x) / 8 * 2 && BlockY(f, pl, y) == LumaY(f, pl, y) / 8 * 2
  {
  }

  function Cross(a: (int, int), b: (int, int)): int {
    a.0 * b.1 - a.1 * b.0
  }

  function Dot(a: (int, int), b: (int, int)): int {
    a.0 * b.0 + a.1 * b.1
  }

  /** The tap direction the filter uses follows the lines the search found: of the eight families it
      stays on the same line only in its own. */
  lemma DirectionFollowsLines(d: int, e: int, x: int, y: int)
    requires 0 <= d < 8 && 0 <= e < 8 && 0 <= x < 8 && 0 <= y < 8
    requires 0 <= x + Direction(d, 1).1 < 8 && 0 <= y + Direction(d, 1).0 < 8
    ensures Line(e, 8 * (y + Direction(d, 1).0) + (x + Direction(d, 1).1)) == Line(e, 8 * y + x) <==> e == d
  {
    LineAt(e, x, y);
    LineAt(e, x + Direction(d, 1).1, y + Direction(d, 1).0);
  }

  lemma LineAt(d: int, x: int, y: int)
    requires 0 <= x < 8 && 0 <= y < 8
    ensures (8 * y + x) / 8 == y && (8 * y + x) % 8 == x
  {
  }

  /** Four directions on is orthogonal, and two on is neither that nor the same line: the secondary
      taps, along `d + 2` and `d - 2`, lie on orthogonal lines to either side of the primary ones. */
  lemma DirectionTurns(d: int)
    requires 0 <= d < 8
    ensures Dot(Direction(d, 1), Direction(d + 4, 1)) == 0
    ensures IsOblique(Direction(d, 1), Direction(d + 2, 1))
  {
  }

  predicate IsOblique(a: (int, int), b: (int, int)) {
    Dot(a, b) != 0 && Cross(a, b) != 0
  }

  /** Division that truncates towards zero. */
  function HalfTowardsZero(v: int): int {
    if v < 0 then -((-v) / 2) else v / 2
  }

  /** The far tap of a direction is two pixels away, and the near one half way to it. */
  lemma DirectionHalves(d: int)
    ensures Max(Abs(Direction(d, 1).0), Abs(Direction(d, 1).1)) == 2
    ensures Direction(d, 0) == (HalfTowardsZero(Direction(d, 1).0), HalfTowardsZero(Direction(d, 1).1))
  {
  }

  /** In 4:2:2, where a chroma pixel is as wide as two luma pixels, the chroma direction is the only one
      parallel to the luma direction with its width halved, towards zero; elsewhere it is the same. */
  lemma ChromaDirectionIs(f: Frame, d: int, e: int)
    requires 0 <= d < 8 && 0 <= e < 8
    ensures f.layout.I422? ==>
              (e == UvDir(f, d) <==>
               Cross(Direction(e, 1), (Direction(d, 1).0, HalfTowardsZero(Direction(d, 1).1))) == 0)
    ensures !f.layout.I422? ==> UvDir(f, d) == d
  {
    assert UV_DIRS[0] == [0, 1, 2, 3, 4, 5, 6, 7];
  }

  // ----- adjust_strength -----

  lemma GainMonotone(v1: int, v2: int)
    requires 0 <= v1 <= v2
    ensures 4 <= Gain(v1) <= Gain(v2) <= 16
  {
    ShrMonotone(v1, v2, 6);
    ShrAtLeast(v1, 6, 0);
    if Shr(v1, 6) > 0 {
      FloorLog2Monotone(Shr(v1, 6), Shr(v2, 6));
    }
  }

  lemma ScaledMonotone(strength: int, g1: int, g2: int)
    requires 0 <= strength && 0 <= g1 <= g2 <= 16
    ensures 0 <= (strength * g1 + 8) / 16 <= (strength * g2 + 8) / 16 <= strength
  {
    MulMonotone(0, g1, strength);
    MulMonotone(g1, g2, strength);
    MulMonotone(g2, 16, strength);
  }

  /** Never stronger than asked for, and monotone in the variance. */
  lemma AdjustStrengthBounds(strength: int, v1: int, v2: int)
    requires 0 <= strength && 0 <= v1 <= v2
    ensures 0 <= AdjustStrength(strength, v1) <= AdjustStrength(strength, v2) <= strength
  {
    GainMonotone(v1, v2);
    ScaledMonotone(strength, Gain(v1), Gain(v2));
  }

  /** `a` is the strength times `sixteenths`, to the nearest. */
  predicate IsScaledBy(a: int, strength: int, sixteenths: int) {
    -8 < 16 * a - strength * sixteenths <= 8
  }

  /** The factor is four sixteenths for a small variance, and grows by one with each doubling from 128
      on, up to the whole strength; a block without variance is not filtered. */
  lemma AdjustStrengthIs(strength: int, variance: int, k: nat)
    requires strength >= 0 && variance >= 0
    ensures variance == 0 ==> AdjustStrength(strength, variance) == 0
    ensures 1 <= variance < 128 ==> IsScaledBy(AdjustStrength(strength, variance), strength, 4)
    ensures k < 12 && 64 * Pow2(k) <= variance < 128 * Pow2(k) ==>
              IsScaledBy(AdjustStrength(strength, variance), strength, 4 + k)
    ensures variance >= 0x4_0000 ==> AdjustStrength(strength, variance) == strength
  {
    assert Pow2(6) == 64;
    ScaledIs(strength, Gain(variance));
    ShrAtLeast(variance, 6, 0);
    if 1 <= variance < 128 {
      SmallGain(variance);
    }
    if k < 12 && 64 * Pow2(k) <= variance < 128 * Pow2(k) {
      OctaveGain(variance, k);
    }
    if variance >= 0x4_0000 {
      WholeGain(variance);
      assert strength * 16 == 16 * strength;
    }
  }

  lemma ScaledIs(strength: int, gain: int)
    ensures IsScaledBy((strength * gain + 8) / 16, strength, gain)
  {
  }

  lemma SmallGain(variance: int)
    requires 1 <= variance < 128
    ensures Gain(variance) == 4
  {
    assert Pow2(6) == 64;
    ShrBelow(variance, 6, 2);
    ShrAtLeast(variance, 6, 0);
  }

  lemma OctaveGain(variance: int, k: nat)
    requires k <= 12 && 64 * Pow2(k) <= variance < 128 * Pow2(k)
    ensures Gain(variance) == 4 + k
  {
    assert Pow2(6) == 64;
    ShrAtLeast(variance, 6, Pow2(k));
    ShrBelow(variance, 6, 2 * Pow2(k));
    FloorLog2Unique(Shr(variance, 6), k);
  }

  lemma WholeGain(variance: int)
    requires variance >= 0x4_0000
    ensures Gain(variance) == 16
  {
    assert Pow2(6) == 64 && Pow2(12) == 0x1000;
    ShrAtLeast(variance, 6, Pow2(12));
    FloorLog2Unique(Pow2(12), 12);
    FloorLog2Monotone(Pow2(12), Shr(variance, 6));
  }

  lemma {:induction false} ShrMonotone(a: int, b: int, n: nat)
    requires a <= b
    ensures Shr(a, n) <= Shr(b, n)
    decreases n
  {
    if n > 0 {
      ShrMonotone(a / 2, b / 2, n - 1);
    }
  }

  /** A level is four times the primary strength, which has sixteen values, plus the number of one of
      the four secondary strengths. */
  lemma LevelIs(pri: int, sec: int, depth: int)
    requires 0 <= pri < 16 && 0 <= sec < 4 && depth in {8, 10, 12}
    ensures PriOf(4 * pri + sec, depth) == pri * Pow2(depth - 8)
    ensures SecOf(4 * pri + sec, depth) == [0, 1, 2, 4][sec] * Pow2(depth - 8)
  {
    ScaleIsPow2(depth);
    assert (4 * pri + sec) / 4 == pri && (4 * pri + sec) % 4 == sec;
  }

  lemma ScaleIsPow2(depth: int)
    requires depth in {8, 10, 12}
    ensures Scale(depth) == Pow2(depth - 8)
  {
    assert Pow2(0) == 1 && Pow2(2) == 4 && Pow2(4) == 16;
  }

  lemma LevelRanges(level: int, depth: int)
    requires 0 <= level < 64 && depth in {8, 10, 12}
    ensures 0 <= PriOf(level, depth) <= 240 && 0 <= SecOf(level, depth) <= 64
    ensures SecOf(level, depth) > 0 ==> FloorLog2(SecOf(level, depth)) <= 2 + depth - 8
  {
    var s := SecOf(level, depth);
    if s > 0 {
      FloorLog2Monotone(s, 4 * Scale(depth));
      assert FloorLog2(4) == 2 && FloorLog2(16) == 4 && FloorLog2(64) == 6;
    }
  }

  /** Every kernel call gets parameters in the kernel's range: strengths that fit a u8 and a
      secondary shift that is not negative, chroma's smaller damping included. */
  lemma StrengthOfValid(f: Frame, pl: int, level: int, dir: int, variance: int)
    requires ValidFrame(f) && 0 <= level < 64 && 0 <= dir < 8 && variance >= 0
    ensures ValidStrength(StrengthOf(f, pl, level, dir, variance))
  {
    LevelRanges(level, f.depth);
    AdjustStrengthBounds(PriOf(level, f.depth), variance, variance);
  }

  lemma BlockStrengthValid(f: Frame, pre: Image, pl: int, bx4: int, by4: int)
    requires ValidFrame(f) && IsBlock(f, bx4, by4) && CdefIdx(f, bx4, by4) != -1
    ensures ValidStrength(BlockStrength(f, pre, pl, bx4, by4))
  {
    var b := LumaBlock(f, pre, bx4, by4);
    BestToIsFirstMax(b, 7);
    VarianceNonNegative(b);
    StrengthOfValid(f, pl, Level(f, pl, bx4, by4), BestDir(b), Variance(b));
  }

  lemma LumaBlockIsSearched(f: Frame, pre: Image, bx4: int, by4: int)
    requires f.depth >= 8
    ensures var b := LumaBlock(f, pre, bx4, by4); 0 <= BestDir(b) < 8 && Variance(b) >= 0
  {
    var b := LumaBlock(f, pre, bx4, by4);
    BestToIsFirstMax(b, 7);
    VarianceNonNegative(b);
  }

  /** The parameters of a luma call, from what the source computes: the search runs only when it is
      needed, and a zero primary strength gets direction 0. */
  lemma LumaStrength(f: Frame, pre: Image, bx4: int, by4: int, pri: int, dir: int, variance: int)
    requires ValidFrame(f) && IsBlock(f, bx4, by4) && CdefIdx(f, bx4, by4) != -1
    requires pri == PriOf(Level(f, 0, bx4, by4), f.depth) && variance >= 0
    requires pri != 0 ==> var b := LumaBlock(f, pre, bx4, by4); dir == BestDir(b) && variance == Variance(b)
    ensures BlockStrength(f, pre, 0, bx4, by4) ==
            Strength(if pri != 0 then AdjustStrength(pri, variance) else 0, SecOf(Level(f, 0, bx4, by4), f.depth),
                     if pri != 0 then dir else 0, Damping(f) + f.depth - 8, f.depth)
  {
    var b := LumaBlock(f, pre, bx4, by4);
    BestToIsFirstMax(b, 7);
    VarianceNonNegative(b);
    NothingToAdjust(Variance(b));
  }

  lemma NothingToAdjust(variance: int)
    requires variance >= 0
    ensures AdjustStrength(0, variance) == 0
  {
    AdjustStrengthBounds(0, variance, variance);
  }

  lemma ChromaStrength(f: Frame, pre: Image, pl: int, bx4: int, by4: int, pri: int, dir: int)
    requires ValidFrame(f) && IsBlock(f, bx4, by4) && CdefIdx(f, bx4, by4) != -1 && pl != 0
    requires pri == PriOf(Level(f, pl, bx4, by4), f.depth) && 0 <= dir < 8
    requires pri != 0 ==> dir == BestDir(LumaBlock(f, pre, bx4, by4))
    ensures BlockStrength(f, pre, pl, bx4, by4) ==
            Strength(pri, SecOf(Level(f, pl, bx4, by4), f.depth), if pri != 0 then UvDir(f, dir) else 0,
                     Damping(f) + f.depth - 8 - 1, f.depth)
  {
    var b := LumaBlock(f, pre, bx4, by4);
    BestToIsFirstMax(b, 7);
    VarianceNonNegative(b);
  }

  /** The source's damping is section 7.15's wherever a level is not zero. */
  lemma DampingIsSet(f: Frame, pl: int, bx4: int, by4: int)
    requires ValidFrame(f) && IsBlock(f, bx4, by4) && CdefIdx(f, bx4, by4) != -1 && Level(f, pl, bx4, by4) != 0
    ensures Damping(f) == f.damping
  {
  }

  /** The direction search works on eight bits a pixel. */
  lemma PixelReduced(depth: int, v: int)
    requires depth in {8, 10, 12} && 0 <= v < Pow2(depth)
    ensures 0 <= Shr(v, depth - 8) < 256
  {
    assert Pow2(8) == 256;
    Pow2Add(8, depth - 8);
    ShrAtLeast(v, depth - 8, 0);
    ShrBelow(v, depth - 8, 256);
  }

  // ----- The filtered frame -----

  /** CdefFrame: every block filtered from the frozen picture. */
  function Expected(f: Frame, pre: Image, pl: int, x: int, y: int): int
    requires ValidFrame(f) && InPlane(f, pl, x, y)
  {
    BlockOfPixel(f, pl, x, y);
    ExpectedIn(f, pre, pl, BlockX(f, pl, x), BlockY(f, pl, y), x, y)
  }

  function ExpectedIn(f: Frame, pre: Image, pl: int, bx4: int, by4: int, x: int, y: int): int
    requires ValidFrame(f) && IsBlock(f, bx4, by4) && InPlane(f, pl, x, y)
  {
    if !BlockOn(f, bx4, by4) then pre(pl, x, y) else
    BlockStrengthValid(f, pre, pl, bx4, by4);
    FilteredAt(f, pre, pl, x, y, BlockStrength(f, pre, pl, bx4, by4))
  }

  function FilteredAt(f: Frame, pre: Image, pl: int, x: int, y: int, s: Strength): int
    requires InPlane(f, pl, x, y) && ValidStrength(s)
  {
    Filtered(PlaneWindow(f, pre, pl), x, y, s)
  }

  /** `win` is `all` seen from (x0, y0). */
  ghost predicate Shifted(win: Window, all: Window, x0: int, y0: int) {
    forall x, y :: win(x, y) == all(x0 + x, y0 + y)
  }

  /** Filtering does not depend on where the window is counted from. */
  lemma FilteredShift(win: Window, all: Window, x0: int, y0: int, x: int, y: int, px: int, py: int, s: Strength)
    requires Shifted(win, all, x0, y0) && px == x0 + x && py == y0 + y
    requires ValidStrength(s) && all(px, py).Px?
    ensures win(x, y).Px? && Filtered(win, x, y, s) == Filtered(all, px, py, s)
  {
    TapsShift(win, all, x0, y0, x, y, px, py, s.dir, 0);
    TapsShift(win, all, x0, y0, x, y, px, py, s.dir, 1);
    assert win(x, y) == all(px, py);
  }

  lemma TapsShift(win: Window, all: Window, x0: int, y0: int, x: int, y: int, px: int, py: int, dir: int, k: int)
    requires Shifted(win, all, x0, y0) && px == x0 + x && py == y0 + y
    ensures TapsAt(win, x, y, dir, k) == TapsAt(all, px, py, dir, k)
  {
    LookShift(win, all, x0, y0, x, y, px, py, Direction(dir, k));
    LookShift(win, all, x0, y0, x, y, px, py, Direction(dir + 2, k));
    LookShift(win, all, x0, y0, x, y, px, py, Direction(dir - 2, k));
  }

  lemma LookShift(win: Window, all: Window, x0: int, y0: int, x: int, y: int, px: int, py: int, d: (int, int))
    requires Shifted(win, all, x0, y0) && px == x0 + x && py == y0 + y
    ensures Look(win, x, y, d, 1) == Look(all, px, py, d, 1)
    ensures Look(win, x, y, d, -1) == Look(all, px, py, d, -1)
  {
    assert win(x + d.1, y + d.0) == all(px + d.1, py + d.0);
    assert win(x - d.1, y - d.0) == all(px - d.1, py - d.0);
  }

  lemma WindowsShift(f: Frame, pre: Image, pl: int, bx4: int, by4: int)
    ensures Shifted(FrameWindow(f, pre, pl, bx4, by4), PlaneWindow(f, pre, pl), X0(f, pl, bx4), Y0(f, pl, by4))
  {
  }

  /** A pixel filtered from the window of its block. */
  lemma FilteredAtIs(f: Frame, pre: Image, pl: int, bx4: int, by4: int, win: Window, x: int, y: int, px: int, py: int,
                     s: Strength)
    requires win == FrameWindow(f, pre, pl, bx4, by4) && px == X0(f, pl, bx4) + x && py == Y0(f, pl, by4) + y
    requires InPlane(f, pl, px, py) && ValidStrength(s)
    ensures win(x, y).Px? && Filtered(win, x, y, s) == FilteredAt(f, pre, pl, px, py, s)
  {
    WindowsShift(f, pre, pl, bx4, by4);
    FilteredShift(win, PlaneWindow(f, pre, pl), X0(f, pl, bx4), Y0(f, pl, by4), x, y, px, py, s);
  }

  /** The filtered value of a pixel, seen from its block. */
  lemma ExpectedOn(f: Frame, pre: Image, pl: int, x: int, y: int, bx4: int, by4: int, s: Strength)
    requires ValidFrame(f) && 0 <= pl < Planes(f) && IsBlock(f, bx4, by4) && InBlockOf(f, pl, x, y, bx4, by4)
    requires BlockOn(f, bx4, by4) && s == BlockStrength(f, pre, pl, bx4, by4)
    ensures InPlane(f, pl, x, y) && ValidStrength(s)
    ensures Expected(f, pre, pl, x, y) == FilteredAt(f, pre, pl, x, y, s)
  {
    BlockInPlane(f, pl, x, y, bx4, by4);
    BlockStrengthValid(f, pre, pl, bx4, by4);
  }

  /** What section 7.15 asks of a pixel: to stay as it is in a block that is off, and to be smoothed
      with the parameters of its block in one that is on. */
  ghost predicate PixelIs(f: Frame, pre: Image, pl: int, x: int, y: int, v: int)
    requires ValidFrame(f) && InPlane(f, pl, x, y)
  {
    BlockOfPixel(f, pl, x, y);
    PixelInBlockIs(f, pre, pl, BlockX(f, pl, x), BlockY(f, pl, y), x, y, v)
  }

  ghost predicate PixelInBlockIs(f: Frame, pre: Image, pl: int, bx4: int, by4: int, x: int, y: int, v: int)
    requires ValidFrame(f) && IsBlock(f, bx4, by4) && InPlane(f, pl, x, y)
  {
    if !BlockOn(f, bx4, by4) then v == pre(pl, x, y) else
    BlockStrengthValid(f, pre, pl, bx4, by4);
    Smoothed(v, PlaneWindow(f, pre, pl), x, y, BlockStrength(f, pre, pl, bx4, by4))
  }

  lemma ExpectedIsSmoothed(f: Frame, pre: Image, pl: int, x: int, y: int)
    requires ValidFrame(f) && InPlane(f, pl, x, y)
    ensures PixelIs(f, pre, pl, x, y, Expected(f, pre, pl, x, y))
  {
    BlockOfPixel(f, pl, x, y);
    ExpectedInIsSmoothed(f, pre, pl, BlockX(f, pl, x), BlockY(f, pl, y), x, y);
  }

  lemma ExpectedInIsSmoothed(f: Frame, pre: Image, pl: int, bx4: int, by4: int, x: int, y: int)
    requires ValidFrame(f) && IsBlock(f, bx4, by4) && InPlane(f, pl, x, y)
    ensures PixelInBlockIs(f, pre, pl, bx4, by4, x, y, ExpectedIn(f, pre, pl, bx4, by4, x, y))
  {
    if BlockOn(f, bx4, by4) {
      BlockStrengthValid(f, pre, pl, bx4, by4);
      FilteredIsSmoothed(PlaneWindow(f, pre, pl), x, y, BlockStrength(f, pre, pl, bx4, by4));
    }
  }

  /** `post` is the picture section 7.15 makes of `pre`. */
  ghost predicate IsCdefOf(f: Frame, pre: Image, post: Image)
    requires ValidFrame(f)
  {
    forall pl, x, y :: InPlane(f, pl, x, y) ==> post(pl, x, y) == Expected(f, pre, pl, x, y)
  }

  /** The picture section 7.15 describes. */
  ghost function CdefOf(f: Frame, pre: Image): (post: Image)
    requires ValidFrame(f)
    ensures IsCdefOf(f, pre, post)
  {
    (pl, x, y) => if InPlane(f, pl, x, y) then Expected(f, pre, pl, x, y) else pre(pl, x, y)
  }
}
