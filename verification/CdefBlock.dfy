/**
 * Filtering one block in place: `padding` gathers the window from four sources, then every pixel
 * of the block is replaced. Pixels are addressed like the source does, by an offset and a stride
 * that may be negative.
 */
module CdefBlock {
  import opened Bits
  import opened CdefSpec
  import opened CdefMeaning
  import opened CdefKernel

  datatype Edges = Edges(left: bool, right: bool, top: bool, bottom: bool)

  function At(off: int, stride: int, x: int, y: int): int {
    off + y * stride + x
  }

  predicate In(a: array<int>, i: int) {
    0 <= i < a.Length
  }

  /** The neighbour cells an absent edge hides. */
  predicate Hidden(e: Edges, w: int, h: int, x: int, y: int) {
    (y < 0 && !e.top) || (y >= h && !e.bottom) || (x < 0 && !e.left) || (x >= w && !e.right)
  }

  /** The sources `padding` reads a cell from: the line above, the line below, the saved columns to
      the left, or the block itself and what lies right of it. */
  ghost predicate CellShows(win: Window, e: Edges, w: int, h: int, x: int, y: int,
                            src: array<int>, off: int, stride: int, left: seq<seq<int>>,
                            top: array<int>, topOff: int, botOff: int)
    requires |left| == 8 && (forall r :: 0 <= r < 8 ==> |left[r]| == 2)
    requires -2 <= x && h <= 8
    reads src, top
  {
    if Hidden(e, w, h, x, y) then win(x, y) == Missing
    else if y < 0 then
      var i := At(topOff, stride, x, y + 2); In(top, i) && win(x, y) == Px(top[i])
    else if y >= h then
      var i := At(botOff, stride, x, y - h); In(src, i) && win(x, y) == Px(src[i])
    else if x < 0 then win(x, y) == Px(left[y][x + 2])
    else
      var i := At(off, stride, x, y); In(src, i) && win(x, y) == Px(src[i])
  }

  ghost predicate Shows(win: Window, e: Edges, w: int, h: int, src: array<int>, off: int, stride: int,
                        left: seq<seq<int>>, top: array<int>, topOff: int, botOff: int)
    requires |left| == 8 && (forall r :: 0 <= r < 8 ==> |left[r]| == 2)
    requires h <= 8
    reads src, top
  {
    forall x, y :: -2 <= x < w + 2 && -2 <= y < h + 2 ==>
      CellShows(win, e, w, h, x, y, src, off, stride, left, top, topOff, botOff)
  }

  /** The address of row `y` when row `y0` starts at `off`. */
  function From(off: int, stride: int, x: int, y: int, y0: int): int {
    At(off, stride, x, y - y0)
  }

  predicate InRect(x: int, y: int, x0: int, x1: int, y0: int, y1: int) {
    x0 <= x < x1 && y0 <= y < y1
  }

  /** `fill`: the sentinel in a rectangle of the scratch block, nothing else changed. */
  method Fill(tmp: array<int>, x0: int, x1: int, y0: int, y1: int)
    requires tmp.Length == TMP_LEN && -2 <= x0 <= x1 <= 10 && -2 <= y0 <= y1 <= 10
    modifies tmp
    ensures forall x, y :: -2 <= x < 10 && -2 <= y < 10 ==>
              tmp[Cell(x, y)] == if InRect(x, y, x0, x1, y0, y1) then SENTINEL else old(tmp[Cell(x, y)])
  {
    for r := y0 to y1
      invariant forall x, y :: -2 <= x < 10 && -2 <= y < 10 ==>
                  tmp[Cell(x, y)] == if InRect(x, y, x0, x1, y0, r) then SENTINEL else old(tmp[Cell(x, y)])
    {
      for c := x0 to x1
        invariant forall x, y :: -2 <= x < 10 && -2 <= y < 10 ==>
                    tmp[Cell(x, y)] == if InRect(x, y, x0, x1, y0, r) || InRect(x, y, x0, c, r, r + 1)
                                       then SENTINEL else old(tmp[Cell(x, y)])
      {
        tmp[Cell(c, r)] := SENTINEL;
      }
    }
  }

  /** One copy loop of `padding`: a rectangle read with a stride, nothing else changed. */
  method Copy(tmp: array<int>, x0: int, x1: int, y0: int, y1: int, buf: array<int>, off: int, stride: int)
    requires tmp.Length == TMP_LEN && tmp != buf && -2 <= x0 <= x1 <= 10 && -2 <= y0 <= y1 <= 10
    requires forall x, y :: InRect(x, y, x0, x1, y0, y1) ==> 0 <= From(off, stride, x, y, y0) < buf.Length
    modifies tmp
    ensures forall x, y :: -2 <= x < 10 && -2 <= y < 10 ==>
              tmp[Cell(x, y)] == if InRect(x, y, x0, x1, y0, y1) then buf[From(off, stride, x, y, y0)]
                                 else old(tmp[Cell(x, y)])
  {
    for r := y0 to y1
      invariant forall x, y :: -2 <= x < 10 && -2 <= y < 10 ==>
                  tmp[Cell(x, y)] == if InRect(x, y, x0, x1, y0, r) then buf[From(off, stride, x, y, y0)]
                                     else old(tmp[Cell(x, y)])
    {
      forall x | x0 <= x < x1
        ensures 0 <= From(off, stride, x, r, y0) < buf.Length
      {
        assert InRect(x, r, x0, x1, y0, y1);
      }
      CopyRow(tmp, x0, x1, r, buf, off, stride, y0);
    }
  }

  /** One row of it. */
  method CopyRow(tmp: array<int>, x0: int, x1: int, r: int, buf: array<int>, off: int, stride: int, y0: int)
    requires tmp.Length == TMP_LEN && tmp != buf && -2 <= x0 <= x1 <= 10 && -2 <= r < 10
    requires forall x :: x0 <= x < x1 ==> 0 <= From(off, stride, x, r, y0) < buf.Length
    modifies tmp
    ensures forall x, y :: -2 <= x < 10 && -2 <= y < 10 ==>
              tmp[Cell(x, y)] == if InRect(x, y, x0, x1, r, r + 1) then buf[From(off, stride, x, r, y0)]
                                 else old(tmp[Cell(x, y)])
  {
    for c := x0 to x1
      invariant forall x, y :: -2 <= x < 10 && -2 <= y < 10 ==>
                  tmp[Cell(x, y)] == if InRect(x, y, x0, c, r, r + 1) then buf[From(off, stride, x, r, y0)]
                                     else old(tmp[Cell(x, y)])
    {
      tmp[Cell(c, r)] := buf[From(off, stride, c, r, y0)];
    }
  }

  method CopyLeft(tmp: array<int>, x0: int, h: int, left: seq<seq<int>>)
    requires tmp.Length == TMP_LEN && -2 <= x0 <= 0 && 0 <= h <= 8
    requires |left| == 8 && (forall r :: 0 <= r < 8 ==> |left[r]| == 2)
    modifies tmp
    ensures forall x, y :: -2 <= x < 10 && -2 <= y < 10 ==>
              tmp[Cell(x, y)] == if InRect(x, y, x0, 0, 0, h) then left[y][x + 2] else old(tmp[Cell(x, y)])
  {
    for r := 0 to h
      invariant forall x, y :: -2 <= x < 10 && -2 <= y < 10 ==>
                  tmp[Cell(x, y)] == if InRect(x, y, x0, 0, 0, r) then left[y][x + 2] else old(tmp[Cell(x, y)])
    {
      for c := x0 to 0
        invariant forall x, y :: -2 <= x < 10 && -2 <= y < 10 ==>
                    tmp[Cell(x, y)] == if InRect(x, y, x0, 0, 0, r) || InRect(x, y, x0, c, r, r + 1)
                                       then left[y][x + 2] else old(tmp[Cell(x, y)])
      {
        tmp[Cell(c, r)] := left[r][c + 2];
      }
    }
  }

  /** The first half of `padding`: the sentinel in every hidden cell, and the ranges left to copy. */
  method FillEdges(tmp: array<int>, e: Edges, w: int, h: int) returns (x0: int, x1: int, y0: int, y1: int)
    requires tmp.Length == TMP_LEN && w in {4, 8} && h in {4, 8}
    modifies tmp
    ensures x0 == (if e.left then -2 else 0) && x1 == (if e.right then w + 2 else w)
    ensures y0 == (if e.top then -2 else 0) && y1 == (if e.bottom then h + 2 else h)
    ensures forall x, y :: -2 <= x < w + 2 && -2 <= y < h + 2 && Hidden(e, w, h, x, y) ==>
              tmp[Cell(x, y)] == SENTINEL
  {
    x0, x1, y0, y1 := -2, w + 2, -2, h + 2;
    if !e.top {
      Fill(tmp, -2, w + 2, -2, 0);
      y0 := y0 + 2;
    }
    if !e.bottom {
      Fill(tmp, -2, w + 2, h, h + 2);
      y1 := y1 - 2;
    }
    if !e.left {
      Fill(tmp, -2, 0, y0, y1);
      x0 := x0 + 2;
    }
    if !e.right {
      Fill(tmp, w, w + 2, y0, y1);
      x1 := x1 - 2;
    }
  }

  /** A rectangle of the window shows a buffer read from row `y0` on. */
  ghost predicate RectShows(win: Window, x0: int, x1: int, y0: int, y1: int, buf: array<int>, off: int, stride: int)
    reads buf
  {
    forall x, y :: InRect(x, y, x0, x1, y0, y1) ==>
      0 <= From(off, stride, x, y, y0) < buf.Length && win(x, y) == Px(buf[From(off, stride, x, y, y0)])
  }

  /** The three copied rectangles, from the cell-wise description of the sources. */
  lemma Regions(win: Window, e: Edges, w: int, h: int, src: array<int>, off: int, stride: int,
                left: seq<seq<int>>, top: array<int>, topOff: int, botOff: int)
    requires w in {4, 8} && h in {4, 8} && |left| == 8 && (forall r :: 0 <= r < 8 ==> |left[r]| == 2)
    requires Shows(win, e, w, h, src, off, stride, left, top, topOff, botOff)
    ensures var x0, x1 := if e.left then -2 else 0, if e.right then w + 2 else w;
            && (e.top ==> RectShows(win, x0, x1, -2, 0, top, topOff, stride))
            && RectShows(win, 0, x1, 0, h, src, off, stride)
            && (e.bottom ==> RectShows(win, x0, x1, h, h + 2, src, botOff, stride))
            && forall x, y :: InRect(x, y, x0, 0, 0, h) ==> win(x, y) == Px(left[y][x + 2])
  {
    var x0, x1 := if e.left then -2 else 0, if e.right then w + 2 else w;
    forall x, y | InRect(x, y, x0, x1, -2, h + 2)
      ensures y < 0 && e.top ==> 0 <= From(topOff, stride, x, y, -2) < top.Length
                                 && win(x, y) == Px(top[From(topOff, stride, x, y, -2)])
      ensures 0 <= y < h && 0 <= x ==> 0 <= From(off, stride, x, y, 0) < src.Length
                                       && win(x, y) == Px(src[From(off, stride, x, y, 0)])
      ensures h <= y && e.bottom ==> 0 <= From(botOff, stride, x, y, h) < src.Length
                                     && win(x, y) == Px(src[From(botOff, stride, x, y, h)])
      ensures 0 <= y < h && x < 0 ==> win(x, y) == Px(left[y][x + 2])
    {
      assert CellShows(win, e, w, h, x, y, src, off, stride, left, top, topOff, botOff);
    }
  }

  /** `padding`: every cell of the (w + 4) x (h + 4) window is defined, by its pixel where the window
      has one and by the sentinel where it has none. */
  method Padding(tmp: array<int>, e: Edges, w: int, h: int, src: array<int>, off: int, stride: int,
                 left: seq<seq<int>>, top: array<int>, topOff: int, botOff: int, ghost win: Window)
    requires tmp.Length == TMP_LEN && tmp != src && tmp != top
    requires w in {4, 8} && h in {4, 8}
    requires |left| == 8 && (forall r :: 0 <= r < 8 ==> |left[r]| == 2)
    requires Shows(win, e, w, h, src, off, stride, left, top, topOff, botOff)
    modifies tmp
    ensures Encodes(tmp[..], win, w, h)
  {
    Regions(win, e, w, h, src, off, stride, left, top, topOff, botOff);
    HiddenIsMissing(win, e, w, h, src, off, stride, left, top, topOff, botOff);
    var x0, x1, y0, y1 := FillEdges(tmp, e, w, h);
    if e.top {
      Copy(tmp, x0, x1, -2, 0, top, topOff, stride);
    }
    CopyLeft(tmp, x0, h, left);
    Copy(tmp, 0, x1, 0, h, src, off, stride);
    if e.bottom {
      Copy(tmp, x0, x1, h, h + 2, src, botOff, stride);
    }
  }

  lemma HiddenIsMissing(win: Window, e: Edges, w: int, h: int, src: array<int>, off: int, stride: int,
                        left: seq<seq<int>>, top: array<int>, topOff: int, botOff: int)
    requires w in {4, 8} && h in {4, 8} && |left| == 8 && (forall r :: 0 <= r < 8 ==> |left[r]| == 2)
    requires Shows(win, e, w, h, src, off, stride, left, top, topOff, botOff)
    ensures forall x, y :: -2 <= x < w + 2 && -2 <= y < h + 2 && Hidden(e, w, h, x, y) ==> win(x, y) == Missing
  {
    forall x, y | -2 <= x < w + 2 && -2 <= y < h + 2 && Hidden(e, w, h, x, y)
      ensures win(x, y) == Missing
    {
      assert CellShows(win, e, w, h, x, y, src, off, stride, left, top, topOff, botOff);
    }
  }

  /** Two pixels of a block never share an address, whatever the sign of the stride. */
  lemma AtInjective(off: int, stride: int, w: int, x1: int, y1: int, x2: int, y2: int)
    requires 0 <= x1 < w && 0 <= x2 < w && w <= Abs(stride)
    requires At(off, stride, x1, y1) == At(off, stride, x2, y2)
    ensures x1 == x2 && y1 == y2
  {
    assert (y1 - y2) * stride == y1 * stride - y2 * stride;
    assert (y1 - y2) * stride == x2 - x1;
    SmallMultiple(y1 - y2, stride, x2 - x1);
  }

  lemma TapsArePixels(win: Window, x: int, y: int, s: Strength)
    requires ValidStrength(s) && ValidPixels(win, s.depth)
    ensures TapsWithin(TapsAt(win, x, y, s.dir, 0), 0, Pow2(s.depth) - 1)
    ensures TapsWithin(TapsAt(win, x, y, s.dir, 1), 0, Pow2(s.depth) - 1)
  {
  }

  /** A filtered pixel survives the cast to the pixel type. */
  lemma FilteredIsPixel(win: Window, x: int, y: int, s: Strength)
    requires ValidStrength(s) && ValidPixels(win, s.depth) && win(x, y).Px?
    ensures 0 <= Filtered(win, x, y, s) < Pow2(s.depth)
  {
    TapsArePixels(win, x, y, s);
    CombineInRange(TapsAt(win, x, y, s.dir, 0), TapsAt(win, x, y, s.dir, 1), win(x, y).v, s, Pow2(s.depth) - 1);
  }

  lemma PixelFits(depth: int, v: int)
    requires depth in {8, 10, 12} && 0 <= v < Pow2(depth)
    ensures AsPixel(depth, v) == v
  {
    assert Pow2(8) == 0x100;
    PixelBound(depth);
  }

  /** One pixel read from the scratch block. */
  method FilterAt(tmp: seq<int>, x: int, y: int, px: int, s: Strength, o: seq<Offsets>,
                  ghost win: Window, ghost w: int, ghost h: int) returns (v: int)
    requires Encodes(tmp, win, w, h) && 0 <= x < w <= 8 && 0 <= y < h <= 8
    requires ValidStrength(s) && ValidPixels(win, s.depth) && (s.pri > 0 || s.sec > 0)
    requires win(x, y) == Px(px)
    requires o == [OffsetsAt(s.dir, 0), OffsetsAt(s.dir, 1)]
    ensures v == Filtered(win, x, y, s)
  {
    ghost var t := [TapsAt(win, x, y, s.dir, 0), TapsAt(win, x, y, s.dir, 1)];
    PixelScene(tmp, x, y, px, s, o, win, w, h, t);
    v := FilterPixel(tmp, Cell(x, y), o, px, s, t);
  }

  /** The scratch block and the window show a pixel the same taps. */
  lemma PixelScene(tmp: seq<int>, x: int, y: int, px: int, s: Strength, o: seq<Offsets>,
                   win: Window, w: int, h: int, t: seq<Taps>)
    requires Encodes(tmp, win, w, h) && 0 <= x < w <= 8 && 0 <= y < h <= 8
    requires ValidStrength(s) && ValidPixels(win, s.depth) && win(x, y) == Px(px)
    requires o == [OffsetsAt(s.dir, 0), OffsetsAt(s.dir, 1)]
    requires t == [TapsAt(win, x, y, s.dir, 0), TapsAt(win, x, y, s.dir, 1)]
    ensures Scene(tmp, Cell(x, y), o, t, px, s)
  {
    ReadsTaps(tmp, win, w, h, x, y, s.dir, 0);
    ReadsTaps(tmp, win, w, h, x, y, s.dir, 1);
    TapsFit(win, x, y, s, px, t[0], t[1]);
  }

  /** Pixels and their taps fit the sixteen bits of the scratch block. */
  lemma TapsFit(win: Window, x: int, y: int, s: Strength, px: int, t0: Taps, t1: Taps)
    requires ValidStrength(s) && ValidPixels(win, s.depth) && win(x, y) == Px(px)
    requires t0 == TapsAt(win, x, y, s.dir, 0) && t1 == TapsAt(win, x, y, s.dir, 1)
    ensures 0 <= px < 0x8000 && TapsWithin(t0, 0, 0x7fff) && TapsWithin(t1, 0, 0x7fff)
  {
    TapsArePixels(win, x, y, s);
    PixelBound(s.depth);
    WeakenTaps(t0, Pow2(s.depth) - 1, 0x7fff);
    WeakenTaps(t1, Pow2(s.depth) - 1, 0x7fff);
  }

  lemma PixelBound(depth: int)
    requires depth in {8, 10, 12}
    ensures Pow2(depth) <= 0x1000
  {
    Pow2Monotone(depth, 12);
    assert Pow2(12) == 0x1000;
  }

  lemma WeakenTaps(t: Taps, a: int, b: int)
    requires TapsWithin(t, 0, a) && a <= b
    ensures TapsWithin(t, 0, b)
  {
  }

  /** `cdef_filter_block_rust`: the block becomes its filtered version, computed from the window
      alone, which smooths every pixel, and nothing outside the block changes. */
  method FilterBlock(dst: array<int>, off: int, stride: int, left: seq<seq<int>>, top: array<int>,
                     topOff: int, botOff: int, s: Strength, w: int, h: int, e: Edges, ghost win: Window)
    requires w in {4, 8} && h in {4, 8} && w <= Abs(stride) && dst != top
    requires |left| == 8 && (forall r :: 0 <= r < 8 ==> |left[r]| == 2)
    requires Shows(win, e, w, h, dst, off, stride, left, top, topOff, botOff)
    requires ValidStrength(s) && ValidPixels(win, s.depth) && (s.pri > 0 || s.sec > 0)
    modifies dst
    ensures forall x, y :: InRect(x, y, 0, w, 0, h) ==>
              In(dst, At(off, stride, x, y)) && win(x, y).Px?
              && dst[At(off, stride, x, y)] == Filtered(win, x, y, s)
    ensures forall x, y :: InRect(x, y, 0, w, 0, h) ==>
              In(dst, At(off, stride, x, y)) && Smoothed(dst[At(off, stride, x, y)], win, x, y, s)
    ensures forall i :: In(dst, i) && !InBlock(i, off, stride, w, h) ==> dst[i] == old(dst[i])
  {
    var buf := new int[TMP_LEN](_ => 0);
    Padding(buf, e, w, h, dst, off, stride, left, top, topOff, botOff, win);
    Regions(win, e, w, h, dst, off, stride, left, top, topOff, botOff);
    forall x, y | InRect(x, y, 0, w, 0, h)
      ensures In(dst, At(off, stride, x, y)) && win(x, y) == Px(dst[At(off, stride, x, y)])
    {
      assert From(off, stride, x, y, 0) == At(off, stride, x, y);
    }
    ghost var out := (x, y) => if win(x, y).Px? then Filtered(win, x, y, s) else 0;
    FilterRows(buf[..], dst, off, stride, s, w, h, win, out);
    OutputsAreSmoothed(out, win, s, w, h);
  }

  lemma OutputsAreSmoothed(out: (int, int) -> int, win: Window, s: Strength, w: int, h: int)
    requires ValidStrength(s) && Outputs(out, win, s, w, h)
    ensures forall x, y :: InRect(x, y, 0, w, 0, h) ==> Smoothed(out(x, y), win, x, y, s)
  {
    forall x, y | InRect(x, y, 0, w, 0, h)
      ensures Smoothed(out(x, y), win, x, y, s)
    {
      FilteredIsSmoothed(win, x, y, s);
    }
  }

  /** What the block becomes, pixel by pixel. */
  ghost predicate Outputs(out: (int, int) -> int, win: Window, s: Strength, w: int, h: int)
    requires ValidStrength(s)
  {
    forall x, y :: InRect(x, y, 0, w, 0, h) ==> win(x, y).Px? && out(x, y) == Filtered(win, x, y, s)
  }

  /** The pixel loops, once the window is in the scratch block. */
  method FilterRows(tmp: seq<int>, dst: array<int>, off: int, stride: int, s: Strength, w: int, h: int,
                    ghost win: Window, ghost out: (int, int) -> int)
    requires w in {4, 8} && h in {4, 8} && w <= Abs(stride) && Encodes(tmp, win, w, h)
    requires ValidStrength(s) && ValidPixels(win, s.depth) && (s.pri > 0 || s.sec > 0)
    requires Written(dst[..], off, stride, w, h, win, out, 0, 0) && Outputs(out, win, s, w, h)
    modifies dst
    ensures Written(dst[..], off, stride, w, h, win, out, 0, h)
    ensures forall i :: In(dst, i) && !InBlock(i, off, stride, w, h) ==> dst[i] == old(dst[i])
  {
    var o := [OffsetsAt(s.dir, 0), OffsetsAt(s.dir, 1)];
    for r := 0 to h
      invariant Written(dst[..], off, stride, w, h, win, out, 0, r)
      invariant forall i :: In(dst, i) && !InBlock(i, off, stride, w, h) ==> dst[i] == old(dst[i])
    {
      for c := 0 to w
        invariant Written(dst[..], off, stride, w, h, win, out, c, r)
        invariant forall i :: In(dst, i) && !InBlock(i, off, stride, w, h) ==> dst[i] == old(dst[i])
      {
        assert InRect(c, r, 0, w, 0, h);
        FilterOne(tmp, dst, off, stride, s, w, h, c, r, o, win, out);
      }
    }
  }

  method FilterOne(tmp: seq<int>, dst: array<int>, off: int, stride: int, s: Strength, ghost w: int, ghost h: int,
                   c: int, r: int, o: seq<Offsets>, ghost win: Window, ghost out: (int, int) -> int)
    requires 0 <= c < w <= 8 && 0 <= r < h <= 8 && w <= Abs(stride) && Encodes(tmp, win, w, h)
    requires ValidStrength(s) && ValidPixels(win, s.depth) && (s.pri > 0 || s.sec > 0)
    requires o == [OffsetsAt(s.dir, 0), OffsetsAt(s.dir, 1)]
    requires Written(dst[..], off, stride, w, h, win, out, c, r) && Outputs(out, win, s, w, h)
    modifies dst
    ensures Written(dst[..], off, stride, w, h, win, out, c + 1, r)
    ensures forall i :: In(dst, i) && !InBlock(i, off, stride, w, h) ==> dst[i] == old(dst[i])
  {
    assert InRect(c, r, 0, w, 0, h);
    var i := At(off, stride, c, r);
    var v := FilterAt(tmp, c, r, dst[i], s, o, win, w, h);
    FilteredIsPixel(win, c, r, s);
    PixelFits(s.depth, v);
    WriteStep(dst[..], off, stride, w, h, win, out, c, r);
    ghost var was := dst[..];
    dst[i] := AsPixel(s.depth, v);
    assert dst[..] == was[i := out(c, r)];
  }

  /** The pixels before (c, r) in raster order are filtered, the others still are the window's. */
  ghost predicate Written(d: seq<int>, off: int, stride: int, w: int, h: int, win: Window,
                          out: (int, int) -> int, c: int, r: int)
  {
    forall x, y :: InRect(x, y, 0, w, 0, h) ==>
      var i := At(off, stride, x, y);
      && 0 <= i < |d| && win(x, y).Px?
      && d[i] == if y < r || (y == r && x < c) then out(x, y) else win(x, y).v
  }

  lemma WriteStep(d: seq<int>, off: int, stride: int, w: int, h: int, win: Window,
                  out: (int, int) -> int, c: int, r: int)
    requires Written(d, off, stride, w, h, win, out, c, r) && InRect(c, r, 0, w, 0, h) && w <= Abs(stride)
    ensures 0 <= At(off, stride, c, r) < |d|
    ensures Written(d[At(off, stride, c, r) := out(c, r)], off, stride, w, h, win, out, c + 1, r)
  {
    forall x, y | InRect(x, y, 0, w, 0, h) && At(off, stride, x, y) == At(off, stride, c, r)
      ensures x == c && y == r
    {
      AtInjective(off, stride, w, x, y, c, r);
    }
  }

  ghost predicate InBlock(i: int, off: int, stride: int, w: int, h: int) {
    exists x, y :: InRect(x, y, 0, w, 0, h) && i == At(off, stride, x, y)
  }
}
