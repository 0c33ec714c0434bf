/**
 * `rav1d_cdef_brow` of src/cdef_apply.rs, single-threaded: the picture is filtered in place, block by
 * block, and still every block is filtered from pre-filter pixels. The two-line and two-column
 * backups, the two toggles and the edge flags are the source's.
 */
module CdefScan {
  import opened Bits
  import opened CdefSpec
  import opened CdefBlock
  import opened CdefDirection
  import opened CdefFindDir
  import opened CdefFrame
  import CdefKernel

  /** Backup2x8Flags. */
  datatype Flags = Flags(y: bool, uv: bool) {
    predicate Contains(pl: int) {
      if pl == 0 then y else uv
    }

    predicate IsEmpty() {
      !y && !uv
    }

    /** `(self ^ other) & other`. */
    function Missing(other: Flags): Flags {
      Flags((y != other.y) && other.y, (uv != other.uv) && other.uv)
    }
  }

  /** What the scan of a block row carries from one block to the next. */
  datatype Scan = Scan(edges: Edges, bit: int, lastSkip: bool, prevFlag: Flags)

  /** `noskip_mask & 3 << (bx & 30)`. */
  predicate InMask(noskipMask: seq<bool>, bx: int)
    requires |noskipMask| == 32 && bx % 2 == 0
  {
    noskipMask[bx % 32] || noskipMask[bx % 32 + 1]
  }

  /** The saved pixels of one plane: eight rows of two. */
  type Columns = seq<seq<int>>

  predicate IsColumns(left: Columns) {
    |left| == 8 && forall r :: 0 <= r < 8 ==> |left[r]| == 2
  }

  class CdefTask {
    const f: Frame
    const pic: seq<array<int>>     // one buffer a plane
    const origin: seq<int>         // where pixel (0, 0) of each plane is
    const lineBuf: array<int>      // cdef_line_buf
    const cdefLine: seq<seq<int>>  // cdef_line: two slots of three planes
    var toggle: int                // top_pre_cdef_toggle

    ghost const rows: seq<int>     // allocated rows of each plane
    ghost const pre: Image         // the picture before CDEF
    ghost const post: Image        // the picture section 7.15 makes of it

    /** The line slots, laid out as `rav1d_decode_frame_init` does: from the far end of each plane's
        area when the stride is negative. */
    constructor (f: Frame, pic: seq<array<int>>, origin: seq<int>, sbh: int,
                 ghost rows: seq<int>, ghost pre: Image, ghost post: Image)
      requires sbh >= 1
      ensures this.f == f && this.pic == pic && this.origin == origin
      ensures this.rows == rows && this.pre == pre && this.post == post
      ensures fresh(lineBuf) && toggle == 0 && LinesValid()
    {
      this.f, this.pic, this.origin := f, pic, origin;
      this.rows, this.pre, this.post := rows, pre, post;
      this.toggle := 0;
      var base := if f.depth == 8 then 32 else 16;
      var yArea, uvArea := Abs(f.yStride) * (sbh * 4), Abs(f.uvStride) * (sbh * 8);
      var offset := base + yArea;
      cdefLine := Lines(base, offset, f.yStride, f.uvStride, sbh);
      lineBuf := new int[2 * base + yArea + uvArea](_ => 0);
      new;
      LayoutHolds(base, offset, sbh);
      LayoutIsValid(base, sbh);
    }

    /** The first of two rows `first` and `first + 1` of an area of `n`, counted from its far end when
        the stride is negative. */
    static function LineOffset(area: int, stride: int, n: int, first: int): int {
      if stride < 0 then area - stride * (n - 1 - first) else area + stride * first
    }

    /** Two slots of three planes: luma rows 0 and 2 of its area, chroma rows 0, 2, 4 and 6 of theirs. */
    static function Lines(base: int, uvBase: int, yStride: int, uvStride: int, sbh: int): (r: seq<seq<int>>)
      ensures |r| == 2 && |r[0]| == 3 && |r[1]| == 3
      ensures forall slot :: 0 <= slot < 2 ==>
                && r[slot][0] == LineOffset(base, yStride, sbh * 4, 2 * slot)
                && r[slot][1] == LineOffset(uvBase, uvStride, sbh * 8, 4 * slot)
                && r[slot][2] == LineOffset(uvBase, uvStride, sbh * 8, 4 * slot + 2)
    {
      [[LineOffset(base, yStride, sbh * 4, 0), LineOffset(uvBase, uvStride, sbh * 8, 0), LineOffset(uvBase, uvStride, sbh * 8, 2)],
       [LineOffset(base, yStride, sbh * 4, 2), LineOffset(uvBase, uvStride, sbh * 8, 4), LineOffset(uvBase, uvStride, sbh * 8, 6)]]
    }

    ghost predicate IsLayout(base: int, sbh: int) {
      && sbh >= 1 && |cdefLine| == 2 && |cdefLine[0]| == 3 && |cdefLine[1]| == 3
      && (forall slot, pl :: 0 <= slot < 2 && 0 <= pl < 3 ==>
            cdefLine[slot][pl] == LineOffset(Area(base, sbh, pl), Stride(f, pl), AreaRows(sbh, pl), FirstRow(slot, pl)))
    }

    ghost function Area(base: int, sbh: int, pl: int): int {
      if pl == 0 then base else base + Abs(f.yStride) * (sbh * 4)
    }

    ghost function AreaRows(sbh: int, pl: int): int {
      if pl == 0 then sbh * 4 else sbh * 8
    }

    ghost function FirstRow(slot: int, pl: int): int {
      if pl == 0 then 2 * slot else 4 * slot + 2 * (pl - 1)
    }

    /** The row of its area a line is in, counted in address order. */
    ghost function LineRow(sbh: int, slot: int, pl: int, i: int): int {
      if Stride(f, pl) < 0 then AreaRows(sbh, pl) - 1 - FirstRow(slot, pl) - i else FirstRow(slot, pl) + i
    }

    lemma LineInArea(base: int, sbh: int, slot: int, pl: int, i: int, x: int)
      requires IsLayout(base, sbh) && IsLine(slot, pl, i, x)
      ensures 0 <= LineRow(sbh, slot, pl, i) < AreaRows(sbh, pl)
      ensures LineAddr(slot, pl, i, x) == Area(base, sbh, pl) + LineRow(sbh, slot, pl, i) * Abs(Stride(f, pl)) + x
      ensures Area(base, sbh, pl) <= LineAddr(slot, pl, i, x) < Area(base, sbh, pl) + Abs(Stride(f, pl)) * AreaRows(sbh, pl)
    {
      var stride, first, n := Stride(f, pl), FirstRow(slot, pl), AreaRows(sbh, pl);
      assert Planes(f) <= 3;
      RowAddress(stride, n, first, i);
      IndexInTable(LineRow(sbh, slot, pl, i), n, Abs(stride), x);
    }

    lemma RowAddress(stride: int, n: int, first: int, i: int)
      ensures LineOffset(0, stride, n, first) + i * stride ==
              (if stride < 0 then n - 1 - first - i else first + i) * Abs(stride)
      ensures forall area :: LineOffset(area, stride, n, first) == area + LineOffset(0, stride, n, first)
    {
      if stride < 0 {
        RowFromEnd(stride, n - 1 - first, i);
      } else {
        assert (first + i) * stride == stride * first + i * stride;
      }
    }

    lemma RowFromEnd(stride: int, last: int, i: int)
      ensures (last - i) * (-stride) == i * stride - stride * last
    {
    }

    lemma SameLine(base: int, sbh: int, s1: int, p1: int, i1: int, x1: int, s2: int, p2: int, i2: int, x2: int)
      requires IsLayout(base, sbh) && IsLine(s1, p1, i1, x1) && IsLine(s2, p2, i2, x2)
      requires LineAddr(s1, p1, i1, x1) == LineAddr(s2, p2, i2, x2)
      ensures s1 == s2 && p1 == p2
    {
      LineInArea(base, sbh, s1, p1, i1, x1);
      LineInArea(base, sbh, s2, p2, i2, x2);
      assert Stride(f, p1) == Stride(f, p2);
      var r1, r2 := LineRow(sbh, s1, p1, i1), LineRow(sbh, s2, p2, i2);
      AtInjective(Area(base, sbh, p1), Abs(Stride(f, p1)), Abs(Stride(f, p1)), x1, r1, x2, r2);
    }

    lemma LayoutHolds(base: int, offset: int, sbh: int)
      requires sbh >= 1 && offset == base + Abs(f.yStride) * (sbh * 4)
      requires cdefLine == Lines(base, offset, f.yStride, f.uvStride, sbh)
      ensures IsLayout(base, sbh)
    {
      forall slot, pl | 0 <= slot < 2 && 0 <= pl < 3
        ensures cdefLine[slot][pl] == LineOffset(Area(base, sbh, pl), Stride(f, pl), AreaRows(sbh, pl), FirstRow(slot, pl))
      {
        assert pl == 0 || pl == 1 || pl == 2;
      }
    }

    /** The slots lie in the buffer and share no address, for either sign of the strides. */
    lemma LayoutIsValid(base: int, sbh: int)
      requires IsLayout(base, sbh) && base >= 0
      requires lineBuf.Length >= base + Abs(f.yStride) * (sbh * 4) + Abs(f.uvStride) * (sbh * 8)
      ensures LinesValid()
    {
      MulMonotone(0, Abs(f.yStride), sbh * 4);
      MulMonotone(0, Abs(f.uvStride), sbh * 8);
      forall slot, pl, i, x | IsLine(slot, pl, i, x)
        ensures In(lineBuf, LineAddr(slot, pl, i, x))
      {
        LineInArea(base, sbh, slot, pl, i, x);
      }
      forall s1, p1, i1, x1, s2, p2, i2, x2 | IsLine(s1, p1, i1, x1) && IsLine(s2, p2, i2, x2) && (s1 != s2 || p1 != p2)
        ensures LineAddr(s1, p1, i1, x1) != LineAddr(s2, p2, i2, x2)
      {
        if LineAddr(s1, p1, i1, x1) == LineAddr(s2, p2, i2, x2) {
          SameLine(base, sbh, s1, p1, i1, x1, s2, p2, i2, x2);
        }
      }
    }

    function Addr(pl: int, x: int, y: int): int
      requires 0 <= pl < |origin|
    {
      At(origin[pl], Stride(f, pl), x, y)
    }

    function LineAddr(slot: int, pl: int, i: int, x: int): int
      requires 0 <= slot < |cdefLine| && 0 <= pl < |cdefLine[slot]|
    {
      At(cdefLine[slot][pl], Stride(f, pl), x, i)
    }

    ghost predicate PicValid() {
      && |pic| == Planes(f) && |origin| == Planes(f) && |rows| == Planes(f)
      && (forall pl :: 0 <= pl < Planes(f) ==> pic[pl] != lineBuf && Y0(f, pl, f.bh) <= rows[pl])
      && (forall p, q :: 0 <= p < Planes(f) && 0 <= q < Planes(f) && p != q ==> pic[p] != pic[q])
      && (forall pl, x, y :: 0 <= pl < Planes(f) && 0 <= x < Abs(Stride(f, pl)) && 0 <= y < rows[pl] ==>
            In(pic[pl], Addr(pl, x, y)))
    }

    predicate IsLine(slot: int, pl: int, i: int, x: int) {
      0 <= slot < 2 && 0 <= pl < Planes(f) && 0 <= i < 2 && 0 <= x < Abs(Stride(f, pl))
    }

    /** The line slots lie in the buffer and do not overlap. */
    ghost predicate LinesValid() {
      && |cdefLine| == 2 && |cdefLine[0]| == 3 && |cdefLine[1]| == 3
      && (forall slot, pl, i, x :: IsLine(slot, pl, i, x) ==> In(lineBuf, LineAddr(slot, pl, i, x)))
      && (forall s1, p1, i1, x1, s2, p2, i2, x2 ::
            IsLine(s1, p1, i1, x1) && IsLine(s2, p2, i2, x2) && (s1 != s2 || p1 != p2) ==>
            LineAddr(s1, p1, i1, x1) != LineAddr(s2, p2, i2, x2))
    }

    function LineStart(slot: int, pl: int): int
      requires LinesValid() && 0 <= slot < 2 && 0 <= pl < 3
    {
      cdefLine[slot][pl]
    }

    ghost predicate MemValid() {
      PicValid() && LinesValid()
    }

    ghost predicate Valid() {
      && ValidFrame(f) && MemValid()
      && ValidImage(f, pre) && IsCdefOf(f, pre, post)
    }

    ghost function Buffers(): set<object> {
      set pl | 0 <= pl < |pic| :: pic[pl]
    }

    // ----- What the buffers hold -----

    /** Raster order of blocks: the pixel lies before block (bx4, by4). */
    predicate Done(pl: int, x: int, y: int, bx4: int, by4: int) {
      y < Y0(f, pl, by4) || (y < Y0(f, pl, by4 + 2) && x < X0(f, pl, bx4))
    }

    /** Of the rows known so far, those before block (bx4, by4) are filtered, the others are not. */
    ghost predicate PlaneIs(pl: int, known: int -> int, bx4: int, by4: int)
      requires 0 <= pl < Planes(f) && PicValid()
      reads pic[pl]
    {
      forall x, y :: InPlane(f, pl, x, y) && y < known(pl) ==>
        In(pic[pl], Addr(pl, x, y))
        && pic[pl][Addr(pl, x, y)] == if Done(pl, x, y, bx4, by4) then post(pl, x, y) else pre(pl, x, y)
    }

    /** The last two rows above block row `by4` of one plane, before they were filtered. */
    ghost predicate PlaneLines(slot: int, pl: int, by4: int)
      requires LinesValid()
      reads lineBuf
    {
      forall i, x :: IsLine(slot, pl, i, x) && x < X0(f, pl, f.bw) ==>
        In(lineBuf, LineAddr(slot, pl, i, x))
        && lineBuf[LineAddr(slot, pl, i, x)] == pre(pl, x, Y0(f, pl, by4) - 2 + i)
    }

    ghost predicate LinesAre(slot: int, by4: int)
      requires LinesValid()
      reads lineBuf
    {
      forall pl :: 0 <= pl < Planes(f) ==> PlaneLines(slot, pl, by4)
    }

    // ----- backup2lines -----

    /** `BD::pixel_copy` between two buffers. */
    method CopyPixels(dst: array<int>, doff: int, src: array<int>, soff: int, n: int)
      requires dst != src && 0 <= n && 0 <= doff && doff + n <= dst.Length && 0 <= soff && soff + n <= src.Length
      modifies dst
      ensures forall i :: In(dst, i) ==> dst[i] == if doff <= i < doff + n then src[soff + (i - doff)] else old(dst[i])
    {
      for k := 0 to n
        invariant forall i :: In(dst, i) ==> dst[i] == if doff <= i < doff + k then src[soff + (i - doff)] else old(dst[i])
      {
        dst[doff + k] := src[soff + k];
      }
    }

    /** Where the two contiguous rows start: the lower-addressed one comes first. */
    lemma TwoRows(base: int, stride: int, y: int, i: int, x: int)
      requires stride != 0 && 0 <= i < 2 && 0 <= x < Abs(stride)
      ensures var up := if stride < 0 then 1 else 0;
              var off := At(base, stride, 0, y + up);
              && At(base, stride, x, y + i) == off + (if i == up then 0 else Abs(stride)) + x
              && off <= At(base, stride, x, y + i) < off + 2 * Abs(stride)
    {
      var up := if stride < 0 then 1 else 0;
      assert (y + i) * stride == y * stride + i * stride;
      assert (y + up) * stride == y * stride + up * stride;
    }

    /** An address within the two rows belongs to one of them. */
    lemma InTwoRows(base: int, stride: int, y: int, a: int) returns (i: int, x: int)
      requires stride != 0
      requires var off := At(base, stride, 0, y + if stride < 0 then 1 else 0); off <= a < off + 2 * Abs(stride)
      ensures 0 <= i < 2 && 0 <= x < Abs(stride) && a == At(base, stride, x, y + i)
    {
      var up := if stride < 0 then 1 else 0;
      var j := a - At(base, stride, 0, y + up);
      i := if j < Abs(stride) then up else 1 - up;
      x := if j < Abs(stride) then j else j - Abs(stride);
      TwoRows(base, stride, y, i, x);
    }

    /** One plane of `backup2lines`: the slot receives the last two rows of the block row, row by
        row, whatever the sign of the stride; the other slots keep theirs. */
    method BackupPlane(slot: int, pl: int, ptr: int, srcStrides: int, ghost y: int)
      requires MemValid() && 0 <= slot < 2 && 0 <= pl < Planes(f) && Stride(f, pl) != 0
      requires ptr == Addr(pl, 0, y) && 0 <= y && 0 <= srcStrides && y + srcStrides + 2 <= rows[pl]
      modifies lineBuf
      ensures forall i, x :: IsLine(slot, pl, i, x) ==>
                In(lineBuf, LineAddr(slot, pl, i, x)) && In(pic[pl], Addr(pl, x, y + srcStrides + i))
                && lineBuf[LineAddr(slot, pl, i, x)] == pic[pl][Addr(pl, x, y + srcStrides + i)]
      ensures forall s, p, i, x :: IsLine(s, p, i, x) && (s != slot || p != pl) ==>
                In(lineBuf, LineAddr(s, p, i, x))
                && lineBuf[LineAddr(s, p, i, x)] == old(lineBuf[LineAddr(s, p, i, x)])
    {
      var stride := Stride(f, pl);
      var len := 2 * Abs(stride);
      var strides := if stride < 0 then 1 else 0;
      var src := ptr + (srcStrides + strides) * stride;
      var dst := cdefLine[slot][pl] + strides * stride;
      RowStart(pl, y, srcStrides, strides);
      RowsInside(slot, pl, y + srcStrides);
      RowsMatch(slot, pl, y + srcStrides);
      CopyRows(slot, pl, src, dst, len, y + srcStrides);
    }

    lemma RowStart(pl: int, y: int, srcStrides: int, strides: int)
      requires 0 <= pl < |origin|
      ensures Addr(pl, 0, y) + (srcStrides + strides) * Stride(f, pl) ==
              At(origin[pl], Stride(f, pl), 0, y + srcStrides + strides)
    {
      var stride := Stride(f, pl);
      assert (y + srcStrides + strides) * stride == y * stride + (srcStrides + strides) * stride;
    }

    /** The copy, once it is known where every pixel goes. */
    method CopyRows(slot: int, pl: int, src: int, dst: int, len: int, ghost row: int)
      requires MemValid() && 0 <= slot < 2 && 0 <= pl < Planes(f)
      requires 0 <= len && 0 <= src && src + len <= pic[pl].Length && 0 <= dst && dst + len <= lineBuf.Length
      requires forall i, x :: IsLine(slot, pl, i, x) ==>
                 dst <= LineAddr(slot, pl, i, x) < dst + len
                 && Addr(pl, x, row + i) == src + (LineAddr(slot, pl, i, x) - dst)
      requires forall s, p, i, x :: IsLine(s, p, i, x) && (s != slot || p != pl) ==>
                 !(dst <= LineAddr(s, p, i, x) < dst + len)
      modifies lineBuf
      ensures forall i, x :: IsLine(slot, pl, i, x) ==>
                In(lineBuf, LineAddr(slot, pl, i, x)) && In(pic[pl], Addr(pl, x, row + i))
                && lineBuf[LineAddr(slot, pl, i, x)] == pic[pl][Addr(pl, x, row + i)]
      ensures forall s, p, i, x :: IsLine(s, p, i, x) && (s != slot || p != pl) ==>
                In(lineBuf, LineAddr(s, p, i, x))
                && lineBuf[LineAddr(s, p, i, x)] == old(lineBuf[LineAddr(s, p, i, x)])
    {
      CopyPixels(lineBuf, dst, pic[pl], src, len);
    }

    /** The copy moves each pixel of the two rows to its place in the slot, and touches no other slot. */
    lemma RowsMatch(slot: int, pl: int, row: int)
      requires MemValid() && 0 <= slot < 2 && 0 <= pl < Planes(f) && Stride(f, pl) != 0
      requires 0 <= row && row + 2 <= rows[pl]
      ensures var stride := Stride(f, pl); var up := if stride < 0 then 1 else 0;
              var src, dst := At(origin[pl], stride, 0, row + up), At(cdefLine[slot][pl], stride, 0, 0 + up);
              && (forall i, x :: IsLine(slot, pl, i, x) ==>
                    dst <= LineAddr(slot, pl, i, x) < dst + 2 * Abs(stride)
                    && Addr(pl, x, row + i) == src + (LineAddr(slot, pl, i, x) - dst))
              && (forall s, p, i, x :: IsLine(s, p, i, x) && (s != slot || p != pl) ==>
                    !(dst <= LineAddr(s, p, i, x) < dst + 2 * Abs(stride)))
    {
      var stride := Stride(f, pl);
      var up := if stride < 0 then 1 else 0;
      var src, dst := At(origin[pl], stride, 0, row + up), At(cdefLine[slot][pl], stride, 0, 0 + up);
      forall i, x | IsLine(slot, pl, i, x)
        ensures dst <= LineAddr(slot, pl, i, x) < dst + 2 * Abs(stride)
        ensures Addr(pl, x, row + i) == src + (LineAddr(slot, pl, i, x) - dst)
      {
        TwoRows(origin[pl], stride, row, i, x);
        TwoRows(cdefLine[slot][pl], stride, 0, i, x);
      }
      forall s, p, i, x | IsLine(s, p, i, x) && (s != slot || p != pl)
        ensures !(dst <= LineAddr(s, p, i, x) < dst + 2 * Abs(stride))
      {
        OtherSlot(slot, pl, s, p, i, x);
      }
    }

    /** The two rows of a slot share no address with a line of another slot. */
    lemma OtherSlot(slot: int, pl: int, s: int, p: int, i: int, x: int)
      requires MemValid() && 0 <= slot < 2 && 0 <= pl < Planes(f) && Stride(f, pl) != 0
      requires IsLine(s, p, i, x) && (s != slot || p != pl)
      ensures var stride := Stride(f, pl);
              var dst := At(cdefLine[slot][pl], stride, 0, 0 + if stride < 0 then 1 else 0);
              !(dst <= LineAddr(s, p, i, x) < dst + 2 * Abs(stride))
    {
      var stride := Stride(f, pl);
      var a := LineAddr(s, p, i, x);
      var dst := At(cdefLine[slot][pl], stride, 0, 0 + if stride < 0 then 1 else 0);
      if dst <= a < dst + 2 * Abs(stride) {
        var i', x' := InTwoRows(cdefLine[slot][pl], stride, 0, a);
        assert IsLine(slot, pl, i', x');
      }
    }

    /** Both pairs of rows lie inside their buffers. */
    lemma RowsInside(slot: int, pl: int, row: int)
      requires MemValid() && 0 <= slot < 2 && 0 <= pl < Planes(f) && Stride(f, pl) != 0
      requires 0 <= row && row + 2 <= rows[pl]
      ensures var stride := Stride(f, pl); var strides := if stride < 0 then 1 else 0;
              var src, dst := At(origin[pl], stride, 0, row + strides), At(cdefLine[slot][pl], stride, 0, 0 + strides);
              && 0 <= src && src + 2 * Abs(stride) <= pic[pl].Length
              && 0 <= dst && dst + 2 * Abs(stride) <= lineBuf.Length
    {
      var stride := Stride(f, pl);
      var up := if stride < 0 then 1 else 0;
      var last := Abs(stride) - 1;
      TwoRows(origin[pl], stride, row, up, 0);
      TwoRows(origin[pl], stride, row, 1 - up, last);
      TwoRows(cdefLine[slot][pl], stride, 0, up, 0);
      TwoRows(cdefLine[slot][pl], stride, 0, 1 - up, last);
      assert In(pic[pl], Addr(pl, 0, row + up)) && In(pic[pl], Addr(pl, last, row + (1 - up)));
      assert IsLine(slot, pl, up, 0) && IsLine(slot, pl, 1 - up, last);
      assert In(lineBuf, LineAddr(slot, pl, up, 0)) && In(lineBuf, LineAddr(slot, pl, 1 - up, last));
    }

    ghost predicate PtrsAt(ptrs: seq<int>, bx4: int, by4: int) {
      && |ptrs| == 3 && |origin| == Planes(f)
      && forall pl :: 0 <= pl < Planes(f) ==> ptrs[pl] == Addr(pl, X0(f, pl, bx4), Y0(f, pl, by4))
    }

    /** The rows of block row `by4` and the two below it, where the frame has them, are known. */
    ghost predicate Reaches(known: int -> int, by4: int) {
      forall pl :: 0 <= pl < Planes(f) ==> known(pl) >= Min(Y0(f, pl, f.bh), Y0(f, pl, by4 + 2) + 2)
    }

    ghost predicate AllPlanes(known: int -> int, bx4: int, by4: int)
      requires PicValid()
      reads Buffers()
    {
      forall pl :: 0 <= pl < Planes(f) ==> PlaneIs(pl, known, bx4, by4)
    }

    lemma StrideNotZero(pl: int)
      requires ValidFrame(f) && 0 <= pl < Planes(f)
      ensures 0 < X0(f, pl, f.bw) <= Abs(Stride(f, pl)) && BlockW(f, pl) <= X0(f, pl, f.bw)
    {
    }

    /** A plane of `backup2lines`, when its block row is not filtered yet. */
    method BackupUnfiltered(slot: int, pl: int, ptr: int, srcStrides: int, ghost known: int -> int, ghost by4: int)
      requires ValidFrame(f) && MemValid() && 0 <= slot < 2 && 0 <= pl < Planes(f)
      requires 0 <= by4 && by4 % 2 == 0 && by4 + 2 <= f.bh && Reaches(known, by4)
      requires PlaneIs(pl, known, 0, by4)
      requires ptr == Addr(pl, 0, Y0(f, pl, by4)) && srcStrides == BlockH(f, pl) - 2
      modifies lineBuf
      ensures PlaneLines(slot, pl, by4 + 2)
      ensures forall s, p, b :: 0 <= s < 2 && 0 <= p < Planes(f) && (s != slot || p != pl) && old(PlaneLines(s, p, b)) ==>
                PlaneLines(s, p, b)
    {
      StrideNotZero(pl);
      ghost var y := Y0(f, pl, by4);
      assert Y0(f, pl, by4 + 2) == y + srcStrides + 2 && Y0(f, pl, by4 + 2) <= Y0(f, pl, f.bh);
      BackupPlane(slot, pl, ptr, srcStrides, y);
      forall i, x | IsLine(slot, pl, i, x) && x < X0(f, pl, f.bw)
        ensures lineBuf[LineAddr(slot, pl, i, x)] == pre(pl, x, y + srcStrides + i)
      {
        assert InPlane(f, pl, x, y + srcStrides + i);
        assert !Done(pl, x, y + srcStrides + i, 0, by4);
      }
    }

    /** `backup2lines`: the slot holds what the next block row needs from above, the other slot still
        holds what this one needs. */
    method Backup2Lines(slot: int, ptrs: seq<int>, ghost known: int -> int, ghost by4: int)
      requires ValidFrame(f) && MemValid() && 0 <= slot < 2
      requires 0 <= by4 && by4 % 2 == 0 && by4 + 2 <= f.bh
      requires PtrsAt(ptrs, 0, by4) && Reaches(known, by4) && AllPlanes(known, 0, by4)
      requires by4 > 0 ==> LinesAre(1 - slot, by4)
      modifies lineBuf
      ensures LinesAre(slot, by4 + 2) && (by4 > 0 ==> LinesAre(1 - slot, by4))
    {
      ghost var next := by4 + 2;
      BackupUnfiltered(slot, 0, ptrs[0], 6, known, by4);
      if f.layout.I400? {
        return;
      }
      for pl := 1 to 3
        invariant by4 > 0 ==> LinesAre(1 - slot, by4)
        invariant forall p :: 0 <= p < pl ==> PlaneLines(slot, p, next)
      {
        var uvSrcStrides := if f.layout.I420? then 2 else 6;
        BackupUnfiltered(slot, pl, ptrs[pl], uvSrcStrides, known, by4);
      }
    }

    // ----- What the filter leaves alone -----

    predicate InBlockOf(pl: int, x: int, y: int, bx4: int, by4: int) {
      CdefFrame.InBlockOf(f, pl, x, y, bx4, by4)
    }

    /** CDEF does not change this block of the plane. */
    ghost predicate Same(pl: int, bx4: int, by4: int) {
      forall x, y :: InBlockOf(pl, x, y, bx4, by4) ==> post(pl, x, y) == pre(pl, x, y)
    }

    /** A block that is skipped, or whose level is zero for the plane, keeps its pixels. */
    lemma QuietBlock(pl: int, bx4: int, by4: int)
      requires Valid() && 0 <= pl < Planes(f) && IsBlock(f, bx4, by4)
      requires BlockOn(f, bx4, by4) ==> Quiet(BlockStrength(f, pre, pl, bx4, by4))
      ensures Same(pl, bx4, by4)
    {
      forall x, y | InBlockOf(pl, x, y, bx4, by4)
        ensures post(pl, x, y) == pre(pl, x, y)
      {
        QuietPixel(f, pre, pl, x, y, bx4, by4);
      }
    }

    /** Passing over a block CDEF does not change. */
    lemma Advance(pl: int, known: int -> int, bx4: int, by4: int)
      requires PicValid() && 0 <= pl < Planes(f) && PlaneIs(pl, known, bx4, by4) && Same(pl, bx4, by4)
      ensures PlaneIs(pl, known, bx4 + 2, by4)
    {
      forall x, y | InPlane(f, pl, x, y) && y < known(pl)
        ensures In(pic[pl], Addr(pl, x, y))
        ensures pic[pl][Addr(pl, x, y)] == if Done(pl, x, y, bx4 + 2, by4) then post(pl, x, y) else pre(pl, x, y)
      {
        assert Done(pl, x, y, bx4 + 2, by4) != Done(pl, x, y, bx4, by4) ==> InBlockOf(pl, x, y, bx4, by4);
      }
    }

    /** The end of a row is the start of the next. */
    lemma NextRow(pl: int, known: int -> int, by4: int)
      requires PicValid() && 0 <= pl < Planes(f) && PlaneIs(pl, known, f.bw, by4)
      ensures PlaneIs(pl, known, 0, by4 + 2)
    {
      forall x, y | InPlane(f, pl, x, y) && y < known(pl)
        ensures In(pic[pl], Addr(pl, x, y))
        ensures pic[pl][Addr(pl, x, y)] == if Done(pl, x, y, 0, by4 + 2) then post(pl, x, y) else pre(pl, x, y)
      {
        assert Done(pl, x, y, 0, by4 + 2) == Done(pl, x, y, f.bw, by4);
      }
    }

    // ----- backup2x8 -----

    ghost predicate LeftsValid(lrBak: array2<Columns>)
      reads lrBak
    {
      && lrBak.Length0 == 2 && lrBak.Length1 == 3
      && forall i, p :: 0 <= i < 2 && 0 <= p < 3 ==> IsColumns(lrBak[i, p])
    }

    /** The two columns left of a block, before they were filtered. */
    ghost predicate LeftIs(left: Columns, pl: int, bx4: int, by4: int) {
      IsColumns(left) &&
      forall r, c :: InRect(c, r, 0, 2, 0, BlockH(f, pl)) ==>
        left[r][c] == pre(pl, X0(f, pl, bx4) - 2 + c, Y0(f, pl, by4) + r)
    }

    /** The picture still holds them. */
    ghost predicate ColumnsUnfiltered(pl: int, bx4: int, by4: int)
      requires PicValid() && 0 <= pl < Planes(f)
      reads pic[pl]
    {
      forall r, c :: InRect(c, r, 0, 2, 0, BlockH(f, pl)) ==>
        var i := Addr(pl, X0(f, pl, bx4) - 2 + c, Y0(f, pl, by4) + r);
        In(pic[pl], i) && pic[pl][i] == pre(pl, X0(f, pl, bx4) - 2 + c, Y0(f, pl, by4) + r)
    }

    /** One plane of `backup2x8`: two pixels a row, left of `xOff`. */
    method BackupColumns(pl: int, ptr: int, xOff: int, h: int, ghost bx4: int, ghost by4: int, was: Columns)
      returns (dst: Columns)
      requires PicValid() && 0 <= pl < Planes(f) && IsColumns(was)
      requires h == BlockH(f, pl) && ColumnsUnfiltered(pl, bx4, by4)
      requires ptr + xOff == Addr(pl, X0(f, pl, bx4), Y0(f, pl, by4))
      ensures LeftIs(dst, pl, bx4, by4)
    {
      ghost var x, y0 := X0(f, pl, bx4), Y0(f, pl, by4);
      dst := was;
      for y := 0 to h
        invariant IsColumns(dst)
        invariant forall r, c :: InRect(c, r, 0, 2, 0, y) ==> dst[r][c] == pre(pl, x - 2 + c, y0 + r)
      {
        var src := ptr + (y * Stride(f, pl) + xOff - 2);
        assert InRect(0, y, 0, 2, 0, h) && InRect(1, y, 0, 2, 0, h);
        AddrOfRow(pl, x - 2, y0, y);
        dst := dst[y := [pic[pl][src], pic[pl][src + 1]]];
      }
    }

    /** The same, into the backup. */
    method BackupInto(lrBak: array2<Columns>, idx: int, pl: int, ptr: int, xOff: int, h: int, ghost bx4: int, ghost by4: int)
      requires LeftsValid(lrBak) && 0 <= idx < 2 && PicValid() && 0 <= pl < Planes(f)
      requires h == BlockH(f, pl) && ColumnsUnfiltered(pl, bx4, by4)
      requires ptr + xOff == Addr(pl, X0(f, pl, bx4), Y0(f, pl, by4))
      modifies lrBak
      ensures LeftsValid(lrBak) && LeftIs(lrBak[idx, pl], pl, bx4, by4)
      ensures forall i, p :: 0 <= i < 2 && 0 <= p < 3 && (i != idx || p != pl) ==> lrBak[i, p] == old(lrBak[i, p])
    {
      var dst := BackupColumns(pl, ptr, xOff, h, bx4, by4, lrBak[idx, pl]);
      lrBak[idx, pl] := dst;
    }

    lemma AddrOfRow(pl: int, x: int, y0: int, y: int)
      requires 0 <= pl < |origin|
      ensures Addr(pl, x, y0 + y) == Addr(pl, x, y0) + y * Stride(f, pl)
      ensures Addr(pl, x + 1, y0 + y) == Addr(pl, x, y0 + y) + 1
    {
      assert (y0 + y) * Stride(f, pl) == y0 * Stride(f, pl) + y * Stride(f, pl);
    }

    /** `backup2x8`: the flagged planes are saved, the others keep what they had. */
    method Backup2x8(lrBak: array2<Columns>, idx: int, ptrs: seq<int>, xOff: int, flag: Flags, ghost bx4: int, ghost by4: int)
      requires LeftsValid(lrBak) && 0 <= idx < 2 && PicValid() && |ptrs| == 3 && (xOff == 0 || xOff == 8)
      requires forall pl :: 0 <= pl < Planes(f) && flag.Contains(pl) ==> ColumnsUnfiltered(pl, bx4, by4)
      requires PtrsAt(ptrs, bx4 - xOff / 4, by4)
      modifies lrBak
      ensures LeftsValid(lrBak)
      ensures forall pl :: 0 <= pl < Planes(f) && flag.Contains(pl) ==> LeftIs(lrBak[idx, pl], pl, bx4, by4)
      ensures forall i, p :: 0 <= i < 2 && 0 <= p < 3 && (i != idx || !flag.Contains(p)) ==> lrBak[i, p] == old(lrBak[i, p])
    {
      if flag.y {
        BackupInto(lrBak, idx, 0, ptrs[0], xOff, 8, bx4, by4);
      }
      if f.layout.I400? || !flag.uv {
        return;
      }
      var ssVer := if f.layout.I420? then 1 else 0;
      var ssHor := if f.layout.I444? then 0 else 1;
      for pl := 1 to 3
        invariant LeftsValid(lrBak)
        invariant forall p :: 0 <= p < pl && flag.Contains(p) ==> LeftIs(lrBak[idx, p], p, bx4, by4)
        invariant forall i, p :: 0 <= i < 2 && 0 <= p < 3 && (i != idx || !flag.Contains(p)) ==> lrBak[i, p] == old(lrBak[i, p])
      {
        BackupInto(lrBak, idx, pl, ptrs[pl], Shr(xOff, ssHor), Shr(8, ssVer), bx4, by4);
      }
    }

    /** Before a block is filtered, its own last two columns are still in the picture. */
    lemma OwnColumns(pl: int, known: int -> int, bx4: int, by4: int)
      requires ValidFrame(f) && PicValid() && 0 <= pl < Planes(f) && IsBlock(f, bx4, by4)
      requires Reaches(known, by4) && PlaneIs(pl, known, bx4, by4)
      ensures ColumnsUnfiltered(pl, bx4 + 2, by4)
    {
      forall r, c | InRect(c, r, 0, 2, 0, BlockH(f, pl))
        ensures var i := Addr(pl, X0(f, pl, bx4 + 2) - 2 + c, Y0(f, pl, by4) + r);
                In(pic[pl], i) && pic[pl][i] == pre(pl, X0(f, pl, bx4 + 2) - 2 + c, Y0(f, pl, by4) + r)
      {
        var x, y := X0(f, pl, bx4 + 2) - 2 + c, Y0(f, pl, by4) + r;
        BlockInPlane(f, pl, x, y, bx4, by4);
        assert !Done(pl, x, y, bx4, by4);
      }
    }

    /** After a block the filter left alone, so are the columns it leaves to the next. */
    lemma QuietColumns(pl: int, known: int -> int, bx4: int, by4: int)
      requires ValidFrame(f) && PicValid() && 0 <= pl < Planes(f) && IsBlock(f, bx4, by4)
      requires Reaches(known, by4) && PlaneIs(pl, known, bx4 + 2, by4) && Same(pl, bx4, by4)
      ensures ColumnsUnfiltered(pl, bx4 + 2, by4)
    {
      forall r, c | InRect(c, r, 0, 2, 0, BlockH(f, pl))
        ensures var i := Addr(pl, X0(f, pl, bx4 + 2) - 2 + c, Y0(f, pl, by4) + r);
                In(pic[pl], i) && pic[pl][i] == pre(pl, X0(f, pl, bx4 + 2) - 2 + c, Y0(f, pl, by4) + r)
      {
        var x, y := X0(f, pl, bx4 + 2) - 2 + c, Y0(f, pl, by4) + r;
        BlockInPlane(f, pl, x, y, bx4, by4);
        assert InBlockOf(pl, x, y, bx4, by4);
      }
    }

    // ----- One plane of one block -----

    /** The four edge flags say which neighbouring blocks lie inside the frame. */
    function EdgesOf(bx4: int, by4: int): Edges {
      Edges(bx4 > 0, bx4 + 2 < f.bw, by4 > 0, by4 + 2 < f.bh)
    }

    /** What a kernel call for a block of a plane finds in the buffers. */
    ghost predicate Surroundings(pl: int, known: int -> int, bx4: int, by4: int, slot: int, left: Columns)
      requires MemValid() && 0 <= pl < Planes(f)
      reads pic[pl], lineBuf
    {
      && IsBlock(f, bx4, by4) && 0 <= slot < 2 && IsColumns(left)
      && Reaches(known, by4) && PlaneIs(pl, known, bx4, by4)
      && (by4 > 0 ==> PlaneLines(slot, pl, by4))
      && (bx4 > 0 ==> LeftIs(left, pl, bx4, by4))
    }

    /** Hidden cells are the cells outside the frame. */
    lemma HiddenCell(pl: int, bx4: int, by4: int, x: int, y: int)
      requires f.bw % 2 == 0 && f.bh % 2 == 0 && 0 <= pl < Planes(f) && IsBlock(f, bx4, by4)
      requires -2 <= x < BlockW(f, pl) + 2 && -2 <= y < BlockH(f, pl) + 2
      ensures Hidden(EdgesOf(bx4, by4), BlockW(f, pl), BlockH(f, pl), x, y) <==>
              !InPlane(f, pl, X0(f, pl, bx4) + x, Y0(f, pl, by4) + y)
    {
    }

    lemma TopCell(pl: int, bx4: int, by4: int, slot: int, x: int, y: int)
      requires MemValid() && 0 <= pl < Planes(f) && 0 <= slot < 2 && PlaneLines(slot, pl, by4)
      requires X0(f, pl, f.bw) <= Abs(Stride(f, pl)) && 0 <= X0(f, pl, bx4) + x < X0(f, pl, f.bw) && -2 <= y < 0
      ensures var i := At(cdefLine[slot][pl] + X0(f, pl, bx4), Stride(f, pl), x, y + 2);
              In(lineBuf, i) && lineBuf[i] == pre(pl, X0(f, pl, bx4) + x, Y0(f, pl, by4) + y)
    {
      var x0 := X0(f, pl, bx4);
      assert IsLine(slot, pl, y + 2, x0 + x);
      assert At(cdefLine[slot][pl] + x0, Stride(f, pl), x, y + 2) == LineAddr(slot, pl, y + 2, x0 + x);
    }

    lemma PicCell(pl: int, known: int -> int, bx4: int, by4: int, x: int, y: int, h: int)
      requires PicValid() && 0 <= pl < Planes(f) && PlaneIs(pl, known, bx4, by4)
      requires InPlane(f, pl, X0(f, pl, bx4) + x, Y0(f, pl, by4) + y) && Y0(f, pl, by4) + y < known(pl)
      requires !Done(pl, X0(f, pl, bx4) + x, Y0(f, pl, by4) + y, bx4, by4)
      ensures var off, i := Addr(pl, X0(f, pl, bx4), Y0(f, pl, by4)), Addr(pl, X0(f, pl, bx4) + x, Y0(f, pl, by4) + y);
              && In(pic[pl], i) && pic[pl][i] == pre(pl, X0(f, pl, bx4) + x, Y0(f, pl, by4) + y)
              && At(off, Stride(f, pl), x, y) == i && At(off + h * Stride(f, pl), Stride(f, pl), x, y - h) == i
    {
      AddrFrom(pl, X0(f, pl, bx4), Y0(f, pl, by4), x, y, h);
    }

    /** The block and what lies right of it and below it are not filtered yet. */
    lemma NotDoneYet(pl: int, known: int -> int, bx4: int, by4: int, x: int, y: int)
      requires 0 <= pl < Planes(f) && Reaches(known, by4) && -2 <= x && 0 <= y < BlockH(f, pl) + 2
      requires InPlane(f, pl, X0(f, pl, bx4) + x, Y0(f, pl, by4) + y) && (x >= 0 || y >= BlockH(f, pl))
      ensures !Done(pl, X0(f, pl, bx4) + x, Y0(f, pl, by4) + y, bx4, by4) && Y0(f, pl, by4) + y < known(pl)
    {
    }

    /** Every cell `padding` reads is the frozen pixel the window shows there. */
    lemma CellIsShown(pl: int, known: int -> int, bx4: int, by4: int, slot: int, left: Columns, x: int, y: int,
                      win: Window, w: int, h: int, ptr: int, topOff: int, botOff: int, e: Edges)
      requires f.bw % 2 == 0 && f.bh % 2 == 0 && X0(f, pl, f.bw) <= Abs(Stride(f, pl))
      requires MemValid() && 0 <= pl < Planes(f) && Surroundings(pl, known, bx4, by4, slot, left)
      requires w == BlockW(f, pl) && h == BlockH(f, pl) && -2 <= x < w + 2 && -2 <= y < h + 2
      requires win(x, y) == FrameCell(f, pre, pl, X0(f, pl, bx4) + x, Y0(f, pl, by4) + y)
      requires e == EdgesOf(bx4, by4)
      requires ptr == Addr(pl, X0(f, pl, bx4), Y0(f, pl, by4)) && topOff == LineStart(slot, pl) + X0(f, pl, bx4)
      requires botOff == ptr + h * Stride(f, pl)
      ensures CellShows(win, e, w, h, x, y, pic[pl], ptr, Stride(f, pl), left, lineBuf, topOff, botOff)
    {
      HiddenCell(pl, bx4, by4, x, y);
      if Hidden(e, w, h, x, y) {
        MissingCell(win, e, w, h, x, y, pic[pl], ptr, Stride(f, pl), left, lineBuf, topOff, botOff);
      } else {
        var v := pre(pl, X0(f, pl, bx4) + x, Y0(f, pl, by4) + y);
        SourceHolds(pl, known, bx4, by4, slot, left, x, y, w, h, ptr, topOff, botOff);
        PixelCell(win, e, w, h, x, y, pic[pl], ptr, Stride(f, pl), left, lineBuf, topOff, botOff, v);
      }
    }

    /** The buffer a visible cell is read from holds its frozen pixel. */
    lemma SourceHolds(pl: int, known: int -> int, bx4: int, by4: int, slot: int, left: Columns, x: int, y: int,
                      w: int, h: int, ptr: int, topOff: int, botOff: int)
      requires X0(f, pl, f.bw) <= Abs(Stride(f, pl)) && MemValid() && 0 <= pl < Planes(f)
      requires Surroundings(pl, known, bx4, by4, slot, left)
      requires w == BlockW(f, pl) && h == BlockH(f, pl) && -2 <= x < w + 2 && -2 <= y < h + 2
      requires InPlane(f, pl, X0(f, pl, bx4) + x, Y0(f, pl, by4) + y)
      requires ptr == Addr(pl, X0(f, pl, bx4), Y0(f, pl, by4)) && topOff == LineStart(slot, pl) + X0(f, pl, bx4)
      requires botOff == ptr + h * Stride(f, pl)
      ensures IsSource(pic[pl], ptr, Stride(f, pl), left, lineBuf, topOff, botOff, h, x, y,
                       pre(pl, X0(f, pl, bx4) + x, Y0(f, pl, by4) + y))
    {
      if y < 0 {
        TopCell(pl, bx4, by4, slot, x, y);
      } else if y >= h || x >= 0 {
        NotDoneYet(pl, known, bx4, by4, x, y);
        PicCell(pl, known, bx4, by4, x, y, h);
      } else {
        assert InRect(x + 2, y, 0, 2, 0, h);
      }
    }

    lemma AddrFrom(pl: int, x0: int, y0: int, x: int, y: int, h: int)
      requires 0 <= pl < |origin|
      ensures Addr(pl, x0 + x, y0 + y) == At(Addr(pl, x0, y0), Stride(f, pl), x, y)
      ensures Addr(pl, x0 + x, y0 + y) == At(Addr(pl, x0, y0) + h * Stride(f, pl), Stride(f, pl), x, y - h)
    {
      var stride := Stride(f, pl);
      assert (y0 + y) * stride == y0 * stride + y * stride;
      assert (y - h) * stride == y * stride - h * stride;
    }

    lemma PostIsFiltered(pl: int, bx4: int, by4: int, s: Strength, x: int, y: int)
      requires Valid() && 0 <= pl < Planes(f) && IsBlock(f, bx4, by4) && BlockOn(f, bx4, by4)
      requires s == BlockStrength(f, pre, pl, bx4, by4) && InBlockOf(pl, x, y, bx4, by4)
      ensures ValidStrength(s) && InPlane(f, pl, x, y)
      ensures post(pl, x, y) == FilteredAt(f, pre, pl, x, y, s)
    {
      ExpectedOn(f, pre, pl, x, y, bx4, by4, s);
    }

    ghost predicate BlockIsFiltered(pl: int, bx4: int, by4: int, s: Strength) {
      ValidStrength(s) &&
      forall x, y :: InBlockOf(pl, x, y, bx4, by4) ==>
        InPlane(f, pl, x, y) && post(pl, x, y) == FilteredAt(f, pre, pl, x, y, s)
    }

    lemma PostOfBlock(pl: int, bx4: int, by4: int, s: Strength)
      requires Valid() && 0 <= pl < Planes(f) && IsBlock(f, bx4, by4) && BlockOn(f, bx4, by4)
      requires s == BlockStrength(f, pre, pl, bx4, by4)
      ensures BlockIsFiltered(pl, bx4, by4, s)
    {
      BlockStrengthValid(f, pre, pl, bx4, by4);
      forall x, y | InBlockOf(pl, x, y, bx4, by4)
        ensures InPlane(f, pl, x, y) && post(pl, x, y) == FilteredAt(f, pre, pl, x, y, s)
      {
        PostIsFiltered(pl, bx4, by4, s, x, y);
      }
    }

    lemma BlockOutput(pl: int, bx4: int, by4: int, s: Strength, win: Window, x: int, y: int, px: int, py: int, v: int)
      requires win == FrameWindow(f, pre, pl, bx4, by4) && px == X0(f, pl, bx4) + x && py == Y0(f, pl, by4) + y
      requires InPlane(f, pl, px, py) && ValidStrength(s) && v == FilteredAt(f, pre, pl, px, py, s)
      ensures win(x, y).Px? && v == Filtered(win, x, y, s)
    {
      FilteredAtIs(f, pre, pl, bx4, by4, win, x, y, px, py, s);
    }

    lemma RectInBlock(pl: int, bx4: int, by4: int, x: int, y: int)
      requires InRect(x, y, 0, BlockW(f, pl), 0, BlockH(f, pl))
      ensures InBlockOf(pl, X0(f, pl, bx4) + x, Y0(f, pl, by4) + y, bx4, by4)
    {
    }

    /** The filtered block is the frame's. */
    lemma BlockOutputs(pl: int, bx4: int, by4: int, s: Strength, win: Window, out: (int, int) -> int, w: int, h: int)
      requires BlockIsFiltered(pl, bx4, by4, s) && w == BlockW(f, pl) && h == BlockH(f, pl)
      requires win == FrameWindow(f, pre, pl, bx4, by4) && Outcome(pl, bx4, by4, out)
      ensures Outputs(out, win, s, w, h)
    {
      forall x, y | InRect(x, y, 0, w, 0, h)
        ensures win(x, y).Px? && out(x, y) == Filtered(win, x, y, s)
      {
        RectInBlock(pl, bx4, by4, x, y);
        OneOutput(pl, bx4, by4, s, win, out, x, y, X0(f, pl, bx4) + x, Y0(f, pl, by4) + y);
      }
    }

    lemma OneOutput(pl: int, bx4: int, by4: int, s: Strength, win: Window, out: (int, int) -> int, x: int, y: int,
                    px: int, py: int)
      requires BlockIsFiltered(pl, bx4, by4, s) && Outcome(pl, bx4, by4, out) && win == FrameWindow(f, pre, pl, bx4, by4)
      requires InBlockOf(pl, px, py, bx4, by4) && px == X0(f, pl, bx4) + x && py == Y0(f, pl, by4) + y
      ensures win(x, y).Px? && out(x, y) == Filtered(win, x, y, s)
    {
      FilteredInBlock(pl, bx4, by4, s, px, py);
      OutcomeHere(pl, bx4, by4, out, x, y, px, py);
      BlockOutput(pl, bx4, by4, s, win, x, y, px, py, post(pl, px, py));
    }

    lemma OutcomeHere(pl: int, bx4: int, by4: int, out: (int, int) -> int, x: int, y: int, px: int, py: int)
      requires Outcome(pl, bx4, by4, out) && px == X0(f, pl, bx4) + x && py == Y0(f, pl, by4) + y
      ensures out(x, y) == post(pl, px, py)
    {
    }

    lemma FilteredInBlock(pl: int, bx4: int, by4: int, s: Strength, px: int, py: int)
      requires BlockIsFiltered(pl, bx4, by4, s) && InBlockOf(pl, px, py, bx4, by4)
      ensures InPlane(f, pl, px, py) && ValidStrength(s) && post(pl, px, py) == FilteredAt(f, pre, pl, px, py, s)
    {
    }


    lemma WindowPixels(pl: int, bx4: int, by4: int)
      requires Valid()
      ensures ValidPixels(FrameWindow(f, pre, pl, bx4, by4), f.depth)
    {
      var win := FrameWindow(f, pre, pl, bx4, by4);
      forall x, y | win(x, y).Px?
        ensures 0 <= win(x, y).v < Pow2(f.depth)
      {
        var px, py := X0(f, pl, bx4) + x, Y0(f, pl, by4) + y;
        assert win(x, y) == FrameCell(f, pre, pl, px, py);
        assert InPlane(f, pl, px, py);
      }
    }

    /** Other pixels of the plane do not share an address with the block. */
    lemma InBlockIsPixel(pl: int, bx4: int, by4: int, x: int, y: int, ptr: int, w: int, h: int)
      requires |origin| == Planes(f) && InPlane(f, pl, x, y) && f.bw % 2 == 0 && f.bh % 2 == 0 && IsBlock(f, bx4, by4)
      requires X0(f, pl, f.bw) <= Abs(Stride(f, pl))
      requires w == BlockW(f, pl) && h == BlockH(f, pl) && ptr == Addr(pl, X0(f, pl, bx4), Y0(f, pl, by4))
      requires InBlock(Addr(pl, x, y), ptr, Stride(f, pl), w, h)
      ensures InBlockOf(pl, x, y, bx4, by4)
    {
      var x0, y0 := X0(f, pl, bx4), Y0(f, pl, by4);
      var dx, dy :| InRect(dx, dy, 0, w, 0, h) && Addr(pl, x, y) == At(ptr, Stride(f, pl), dx, dy);
      AddrFrom(pl, x0, y0, dx, dy, 0);
      assert 0 <= x0 + dx < X0(f, pl, f.bw);
      AtInjective(origin[pl], Stride(f, pl), X0(f, pl, f.bw), x, y, x0 + dx, y0 + dy);
    }

    /** PlaneIs on the contents of a buffer. */
    ghost predicate Holds(d: seq<int>, pl: int, known: int -> int, bx4: int, by4: int)
      requires 0 <= pl < |origin|
    {
      forall x, y :: InPlane(f, pl, x, y) && y < known(pl) ==>
        0 <= Addr(pl, x, y) < |d| && d[Addr(pl, x, y)] == if Done(pl, x, y, bx4, by4) then post(pl, x, y) else pre(pl, x, y)
    }

    /** The block's part of the filtered picture, seen from its corner. */
    ghost predicate Outcome(pl: int, bx4: int, by4: int, out: (int, int) -> int) {
      forall x, y :: out(x, y) == post(pl, X0(f, pl, bx4) + x, Y0(f, pl, by4) + y)
    }

    ghost function OutcomeOf(pl: int, bx4: int, by4: int): (out: (int, int) -> int)
      ensures Outcome(pl, bx4, by4, out)
    {
      (x, y) => post(pl, X0(f, pl, bx4) + x, Y0(f, pl, by4) + y)
    }

    lemma OutcomeAt(pl: int, bx4: int, by4: int, out: (int, int) -> int, x: int, y: int)
      requires Outcome(pl, bx4, by4, out)
      ensures out(x - X0(f, pl, bx4), y - Y0(f, pl, by4)) == post(pl, x, y)
    {
    }

    lemma BlockPixel(d: seq<int>, pl: int, ptr: int, w: int, h: int, bx4: int, by4: int, out: (int, int) -> int, x: int, y: int)
      requires 0 <= pl < |origin| && w == BlockW(f, pl) && h == BlockH(f, pl) && InBlockOf(pl, x, y, bx4, by4)
      requires ptr == Addr(pl, X0(f, pl, bx4), Y0(f, pl, by4))
      requires forall x, y :: InRect(x, y, 0, w, 0, h) ==>
                 0 <= At(ptr, Stride(f, pl), x, y) < |d| && d[At(ptr, Stride(f, pl), x, y)] == out(x, y)
      ensures 0 <= Addr(pl, x, y) < |d| && d[Addr(pl, x, y)] == out(x - X0(f, pl, bx4), y - Y0(f, pl, by4))
    {
      var dx, dy := x - X0(f, pl, bx4), y - Y0(f, pl, by4);
      AddrFrom(pl, X0(f, pl, bx4), Y0(f, pl, by4), dx, dy, 0);
      assert InRect(dx, dy, 0, w, 0, h);
    }

    lemma OtherPixel(pl: int, ptr: int, w: int, h: int, bx4: int, by4: int, x: int, y: int)
      requires |origin| == Planes(f) && InPlane(f, pl, x, y) && f.bw % 2 == 0 && f.bh % 2 == 0 && IsBlock(f, bx4, by4)
      requires X0(f, pl, f.bw) <= Abs(Stride(f, pl))
      requires w == BlockW(f, pl) && h == BlockH(f, pl) && ptr == Addr(pl, X0(f, pl, bx4), Y0(f, pl, by4))
      requires !InBlockOf(pl, x, y, bx4, by4)
      ensures !InBlock(Addr(pl, x, y), ptr, Stride(f, pl), w, h)
    {
      if InBlock(Addr(pl, x, y), ptr, Stride(f, pl), w, h) {
        InBlockIsPixel(pl, bx4, by4, x, y, ptr, w, h);
      }
    }

    lemma DoneStep(pl: int, x: int, y: int, bx4: int, by4: int)
      ensures Done(pl, x, y, bx4 + 2, by4) == (Done(pl, x, y, bx4, by4) || InBlockOf(pl, x, y, bx4, by4))
    {
    }

    lemma HoldsIsPlaneIs(pl: int, known: int -> int, bx4: int, by4: int)
      requires PicValid() && 0 <= pl < Planes(f)
      ensures Holds(pic[pl][..], pl, known, bx4, by4) <==> PlaneIs(pl, known, bx4, by4)
    {
    }

    /** Writing the filtered block, and nothing else, advances the plane by one block. */
    lemma BlockWritten(d0: seq<int>, d1: seq<int>, pl: int, ptr: int, w: int, h: int, known: int -> int, bx4: int, by4: int,
                       out: (int, int) -> int)
      requires |origin| == Planes(f) && 0 <= pl < Planes(f) && f.bw % 2 == 0 && f.bh % 2 == 0 && IsBlock(f, bx4, by4)
      requires w == BlockW(f, pl) && h == BlockH(f, pl) && X0(f, pl, f.bw) <= Abs(Stride(f, pl))
      requires ptr == Addr(pl, X0(f, pl, bx4), Y0(f, pl, by4))
      requires Outcome(pl, bx4, by4, out)
      requires |d0| == |d1| && Holds(d0, pl, known, bx4, by4)
      requires forall x, y :: InRect(x, y, 0, w, 0, h) ==>
                 0 <= At(ptr, Stride(f, pl), x, y) < |d1| && d1[At(ptr, Stride(f, pl), x, y)] == out(x, y)
      requires forall i :: 0 <= i < |d1| && !InBlock(i, ptr, Stride(f, pl), w, h) ==> d1[i] == d0[i]
      ensures Holds(d1, pl, known, bx4 + 2, by4)
    {
      forall x, y | InPlane(f, pl, x, y) && y < known(pl)
        ensures 0 <= Addr(pl, x, y) < |d1|
        ensures d1[Addr(pl, x, y)] == if Done(pl, x, y, bx4 + 2, by4) then post(pl, x, y) else pre(pl, x, y)
      {
        DoneStep(pl, x, y, bx4, by4);
        if InBlockOf(pl, x, y, bx4, by4) {
          BlockPixel(d1, pl, ptr, w, h, bx4, by4, out, x, y);
          OutcomeAt(pl, bx4, by4, out, x, y);
        } else {
          OtherPixel(pl, ptr, w, h, bx4, by4, x, y);
        }
      }
    }

    lemma WindowIsShown(pl: int, known: int -> int, bx4: int, by4: int, slot: int, left: Columns,
                        win: Window, w: int, h: int, ptr: int, topOff: int, botOff: int)
      requires f.bw % 2 == 0 && f.bh % 2 == 0 && X0(f, pl, f.bw) <= Abs(Stride(f, pl))
      requires MemValid() && 0 <= pl < Planes(f) && Surroundings(pl, known, bx4, by4, slot, left)
      requires w == BlockW(f, pl) && h == BlockH(f, pl) && win == FrameWindow(f, pre, pl, bx4, by4)
      requires ptr == Addr(pl, X0(f, pl, bx4), Y0(f, pl, by4)) && topOff == LineStart(slot, pl) + X0(f, pl, bx4)
      requires botOff == ptr + h * Stride(f, pl)
      ensures Shows(win, EdgesOf(bx4, by4), w, h, pic[pl], ptr, Stride(f, pl), left, lineBuf, topOff, botOff)
    {
      forall x, y | -2 <= x < w + 2 && -2 <= y < h + 2
        ensures CellShows(win, EdgesOf(bx4, by4), w, h, x, y, pic[pl], ptr, Stride(f, pl), left, lineBuf, topOff, botOff)
      {
        CellIsShown(pl, known, bx4, by4, slot, left, x, y, win, w, h, ptr, topOff, botOff, EdgesOf(bx4, by4));
      }
    }

    /** A kernel call gets parameters in range, and is asked for the frame's block. */
    lemma CallIsReady(pl: int, bx4: int, by4: int, s: Strength, win: Window, out: (int, int) -> int, w: int, h: int)
      requires Valid() && 0 <= pl < Planes(f) && IsBlock(f, bx4, by4) && BlockOn(f, bx4, by4)
      requires s == BlockStrength(f, pre, pl, bx4, by4) && win == FrameWindow(f, pre, pl, bx4, by4)
      requires w == BlockW(f, pl) && h == BlockH(f, pl) && Outcome(pl, bx4, by4, out)
      ensures ValidStrength(s) && ValidPixels(win, s.depth)
      ensures Outputs(out, win, s, w, h)
    {
      PostOfBlock(pl, bx4, by4, s);
      WindowPixels(pl, bx4, by4);
      BlockOutputs(pl, bx4, by4, s, win, out, w, h);
    }

    /** The kernel call itself: the plane advances by one block. */
    method RunKernel(pl: int, ptr: int, left: Columns, top: int, bottom: int, s: Strength, edges: Edges, w: int, h: int,
                     ghost win: Window, ghost out: (int, int) -> int, ghost known: int -> int, ghost bx4: int, ghost by4: int)
      requires |pic| == Planes(f) && |origin| == Planes(f) && 0 <= pl < Planes(f) && pic[pl] != lineBuf
      requires f.bw % 2 == 0 && f.bh % 2 == 0 && IsBlock(f, bx4, by4)
      requires w == BlockW(f, pl) && h == BlockH(f, pl) && w <= X0(f, pl, f.bw) <= Abs(Stride(f, pl))
      requires ptr == Addr(pl, X0(f, pl, bx4), Y0(f, pl, by4)) && IsColumns(left) && Outcome(pl, bx4, by4, out)
      requires Holds(pic[pl][..], pl, known, bx4, by4)
      requires Shows(win, edges, w, h, pic[pl], ptr, Stride(f, pl), left, lineBuf, top, bottom)
      requires ValidStrength(s) && ValidPixels(win, s.depth) && (s.pri > 0 || s.sec > 0)
      requires Outputs(out, win, s, w, h)
      modifies pic[pl]
      ensures Holds(pic[pl][..], pl, known, bx4 + 2, by4)
    {
      ghost var before := pic[pl][..];
      FilterTo(pic[pl], ptr, Stride(f, pl), left, lineBuf, top, bottom, s, w, h, edges, win, out);
      BlockWritten(before, pic[pl][..], pl, ptr, w, h, known, bx4, by4, out);
    }

    /** One kernel call of the scan: the block of this plane becomes the frame's. */
    method FilterPlane(pl: int, ptr: int, left: Columns, slot: int, bx: int, s: Strength, edges: Edges,
                       ghost known: int -> int, ghost by4: int)
      requires Valid() && 0 <= pl < Planes(f) && Surroundings(pl, known, bx, by4, slot, left)
      requires BlockOn(f, bx, by4) && s == BlockStrength(f, pre, pl, bx, by4) && (s.pri > 0 || s.sec > 0)
      requires edges == EdgesOf(bx, by4) && ptr == Addr(pl, X0(f, pl, bx), Y0(f, pl, by4))
      modifies pic[pl]
      ensures PlaneIs(pl, known, bx + 2, by4)
    {
      var w, h := BlockW(f, pl), BlockH(f, pl);
      var top, bottom := LineStart(slot, pl) + X0(f, pl, bx), ptr + h * Stride(f, pl);
      ghost var win := FrameWindow(f, pre, pl, bx, by4);
      ghost var out := OutcomeOf(pl, bx, by4);
      StrideNotZero(pl);
      WindowIsShown(pl, known, bx, by4, slot, left, win, w, h, ptr, top, bottom);
      CallIsReady(pl, bx, by4, s, win, out, w, h);
      HoldsIsPlaneIs(pl, known, bx, by4);
      RunKernel(pl, ptr, left, top, bottom, s, edges, w, h, win, out, known, bx, by4);
      HoldsIsPlaneIs(pl, known, bx + 2, by4);
    }

    // ----- One block -----

    /** What a block may take for the columns to its left: saved ones if its neighbour saved them for
        this plane, and otherwise the picture's, which the filter did not touch. */
    ghost predicate LeftOk(bit: int, lastSkip: bool, prevFlag: Flags, lrBak: array2<Columns>, pl: int, bx4: int, by4: int)
      requires LeftsValid(lrBak) && 0 <= bit < 2 && 0 <= pl < 3
      reads lrBak
    {
      if !lastSkip && prevFlag.Contains(pl) then LeftIs(lrBak[bit, pl], pl, bx4, by4)
      else Same(pl, bx4 - 2, by4)
    }

    ghost predicate LeftsOk(bit: int, lastSkip: bool, prevFlag: Flags, lrBak: array2<Columns>, bx4: int, by4: int)
      requires LeftsValid(lrBak) && 0 <= bit < 2
      reads lrBak
    {
      forall pl :: 0 <= pl < Planes(f) ==> LeftOk(bit, lastSkip, prevFlag, lrBak, pl, bx4, by4)
    }

    /** The invariant of the scan of a row, between two blocks. */
    ghost predicate ScanIs(st: Scan, lrBak: array2<Columns>, bx4: int, by4: int)
      reads lrBak
    {
      && LeftsValid(lrBak) && 0 <= st.bit < 2
      && st.edges.left == (bx4 > 0) && st.edges.top == (by4 > 0) && st.edges.bottom == (by4 + 2 < f.bh)
      && (bx4 < f.bw ==> st.edges.right)
      && (0 < bx4 < f.bw ==> LeftsOk(st.bit, st.lastSkip, st.prevFlag, lrBak, bx4, by4))
    }

    /** Left columns nobody saved in time: they are still unfiltered in the picture. */
    method SaveLeft(st: Scan, lrBak: array2<Columns>, bptrs: seq<int>, ghost bx: int, flag: Flags,
                    ghost known: int -> int, ghost by4: int)
      requires ValidFrame(f) && MemValid() && IsBlock(f, bx, by4) && Reaches(known, by4) && AllPlanes(known, bx, by4)
      requires LeftsValid(lrBak) && 0 <= st.bit < 2 && st.edges.left == (bx > 0) && PtrsAt(bptrs, bx, by4)
      requires bx > 0 ==> LeftsOk(st.bit, st.lastSkip, st.prevFlag, lrBak, bx, by4)
      modifies lrBak
      ensures LeftsValid(lrBak)
      ensures bx > 0 ==> forall pl :: 0 <= pl < Planes(f) && flag.Contains(pl) ==> LeftIs(lrBak[st.bit, pl], pl, bx, by4)
    {
      var doLeft := if st.lastSkip then flag else st.prevFlag.Missing(flag);
      if bx > 0 {
        forall pl | 0 <= pl < Planes(f) && flag.Contains(pl) && !doLeft.Contains(pl)
          ensures LeftIs(lrBak[st.bit, pl], pl, bx, by4)
        {
          assert LeftOk(st.bit, st.lastSkip, st.prevFlag, lrBak, pl, bx, by4);
        }
      }
      if !doLeft.IsEmpty() && st.edges.left {
        forall pl | 0 <= pl < Planes(f) && doLeft.Contains(pl)
          ensures ColumnsUnfiltered(pl, bx, by4)
        {
          assert LeftOk(st.bit, st.lastSkip, st.prevFlag, lrBak, pl, bx, by4);
          QuietColumns(pl, known, bx - 2, by4);
        }
        Backup2x8(lrBak, st.bit, bptrs, 0, doLeft, bx, by4);
      }
    }

    /** The block's own last columns, for the next block. */
    method SaveRight(next: int, right: bool, lrBak: array2<Columns>, bptrs: seq<int>, ghost bx: int, flag: Flags,
                     ghost known: int -> int, ghost by4: int)
      requires ValidFrame(f) && MemValid() && IsBlock(f, bx, by4) && Reaches(known, by4) && AllPlanes(known, bx, by4)
      requires LeftsValid(lrBak) && 0 <= next < 2 && right == (bx + 2 < f.bw) && PtrsAt(bptrs, bx, by4)
      modifies lrBak
      ensures LeftsValid(lrBak)
      ensures forall i, pl :: 0 <= i < 2 && i != next && 0 <= pl < 3 ==> lrBak[i, pl] == old(lrBak[i, pl])
      ensures right ==> forall pl :: 0 <= pl < Planes(f) && flag.Contains(pl) ==> LeftIs(lrBak[next, pl], pl, bx + 2, by4)
    {
      if right {
        forall pl | 0 <= pl < Planes(f) && flag.Contains(pl)
          ensures ColumnsUnfiltered(pl, bx + 2, by4)
        {
          OwnColumns(pl, known, bx, by4);
        }
        Backup2x8(lrBak, next, bptrs, 8, flag, bx + 2, by4);
      }
    }

    lemma LumaPixel(known: int -> int, bx4: int, by4: int, ptr: int, x: int, y: int)
      requires PicValid() && Reaches(known, by4) && PlaneIs(0, known, bx4, by4) && f.bw % 2 == 0 && f.bh % 2 == 0
      requires IsBlock(f, bx4, by4) && ptr == Addr(0, X0(f, 0, bx4), Y0(f, 0, by4)) && InRect(x, y, 0, 8, 0, 8)
      ensures In(pic[0], At(ptr, f.yStride, x, y)) && pic[0][At(ptr, f.yStride, x, y)] == pre(0, 4 * bx4 + x, 4 * by4 + y)
    {
      LumaInPlane(f, bx4, by4, x, y);
      assert X0(f, 0, bx4) == 4 * bx4 && Y0(f, 0, by4) == 4 * by4;
      NotDoneYet(0, known, bx4, by4, x, y);
      PicCell(0, known, bx4, by4, x, y, 0);
    }

    lemma LumaInRange(bx4: int, by4: int)
      requires f.depth in {8, 10, 12} && ValidImage(f, pre) && f.bw % 2 == 0 && f.bh % 2 == 0 && IsBlock(f, bx4, by4)
      ensures InBlockRange(LumaBlock(f, pre, bx4, by4))
    {
      var b := LumaBlock(f, pre, bx4, by4);
      forall i | 0 <= i < 64
        ensures -128 <= b[i] <= 127
      {
        LumaValue(bx4, by4, i % 8, i / 8);
        assert b[8 * (i / 8) + i % 8] == b[i];
      }
    }

    lemma LumaValue(bx4: int, by4: int, x: int, y: int)
      requires f.depth in {8, 10, 12} && ValidImage(f, pre) && f.bw % 2 == 0 && f.bh % 2 == 0 && IsBlock(f, bx4, by4)
      requires InRect(x, y, 0, 8, 0, 8)
      ensures -128 <= LumaBlock(f, pre, bx4, by4)[8 * y + x] <= 127
    {
      LumaAt(f, pre, bx4, by4, x, y);
      LumaInPlane(f, bx4, by4, x, y);
      PixelReduced(f.depth, pre(0, 4 * bx4 + x, 4 * by4 + y));
    }

    lemma LumaIsShown(known: int -> int, bx4: int, by4: int, ptr: int)
      requires f.depth in {8, 10, 12} && ValidImage(f, pre) && f.bw % 2 == 0 && f.bh % 2 == 0 && PicValid()
      requires IsBlock(f, bx4, by4)
      requires Reaches(known, by4) && PlaneIs(0, known, bx4, by4) && ptr == Addr(0, X0(f, 0, bx4), Y0(f, 0, by4))
      ensures ShowsBlock(LumaBlock(f, pre, bx4, by4), pic[0], ptr, f.yStride, f.depth)
    {
      var b := LumaBlock(f, pre, bx4, by4);
      LumaInRange(bx4, by4);
      forall x, y | InRect(x, y, 0, 8, 0, 8)
        ensures In(pic[0], At(ptr, f.yStride, x, y))
        ensures b[8 * y + x] == Shr(pic[0][At(ptr, f.yStride, x, y)], f.depth - 8) - 128
      {
        LumaPixel(known, bx4, by4, ptr, x, y);
        LumaAt(f, pre, bx4, by4, x, y);
      }
    }

    /** The direction search, where a primary strength asks for it. */
    method Search(ptr: int, yPri: int, uvPri: int, ghost known: int -> int, ghost bx4: int, ghost by4: int)
      returns (dir: int, variance: int)
      requires ValidFrame(f) && ValidImage(f, pre) && PicValid() && IsBlock(f, bx4, by4)
      requires Reaches(known, by4) && PlaneIs(0, known, bx4, by4) && ptr == Addr(0, X0(f, 0, bx4), Y0(f, 0, by4))
      ensures 0 <= dir < 8 && variance >= 0
      ensures yPri != 0 || uvPri != 0 ==>
                var b := LumaBlock(f, pre, bx4, by4); dir == BestDir(b) && variance == Variance(b)
    {
      dir, variance := 0, 0;
      if yPri != 0 || uvPri != 0 {
        LumaIsShown(known, bx4, by4, ptr);
        dir, variance := FindDir(pic[0], ptr, f.yStride, f.depth, LumaBlock(f, pre, bx4, by4));
      }
    }

    /** The luma calls. */
    method FilterLuma(ptr: int, left: Columns, slot: int, bx: int, level: int, dir: int, variance: int, edges: Edges,
                      ghost known: int -> int, ghost by4: int)
      requires Valid() && IsBlock(f, bx, by4) && BlockOn(f, bx, by4) && level == Level(f, 0, bx, by4)
      requires variance >= 0 && edges == EdgesOf(bx, by4) && ptr == Addr(0, X0(f, 0, bx), Y0(f, 0, by4))
      requires PriOf(level, f.depth) != 0 ==>
                 var b := LumaBlock(f, pre, bx, by4); dir == BestDir(b) && variance == Variance(b)
      requires 0 <= slot < 2 && Reaches(known, by4) && PlaneIs(0, known, bx, by4)
      requires level != 0 ==> Surroundings(0, known, bx, by4, slot, left)
      modifies pic[0]
      ensures PlaneIs(0, known, bx + 2, by4)
    {
      var pri, sec, damping := PriOf(level, f.depth), SecOf(level, f.depth), f.damping + f.depth - 8;
      LumaCall(bx, by4, level, pri, sec, dir, variance, damping);
      CallLuma(ptr, left, slot, bx, pri, sec, dir, variance, damping, edges, BlockStrength(f, pre, 0, bx, by4), known, by4);
    }

    /** The choice between them. */
    method CallLuma(ptr: int, left: Columns, slot: int, bx: int, pri: int, sec: int, dir: int, variance: int, damping: int,
                    edges: Edges, ghost s: Strength, ghost known: int -> int, ghost by4: int)
      requires Valid() && IsBlock(f, bx, by4) && BlockOn(f, bx, by4) && s == BlockStrength(f, pre, 0, bx, by4)
      requires variance >= 0 && edges == EdgesOf(bx, by4) && ptr == Addr(0, X0(f, 0, bx), Y0(f, 0, by4))
      requires ValidStrength(s) && s.pri == (if pri != 0 then AdjustStrength(pri, variance) else 0) && s.sec == sec
      requires pri != 0 || sec != 0 ==>
                 && Surroundings(0, known, bx, by4, slot, left)
                 && s == Strength(s.pri, sec, if pri != 0 then dir else 0, damping, f.depth)
      requires PlaneIs(0, known, bx, by4)
      modifies pic[0]
      ensures PlaneIs(0, known, bx + 2, by4)
    {
      if pri != 0 {
        var adj := AdjustStrength(pri, variance);
        if adj != 0 || sec != 0 {
          FilterPlane(0, ptr, left, slot, bx, Strength(adj, sec, dir, damping, f.depth), edges, known, by4);
          return;
        }
      } else if sec != 0 {
        FilterPlane(0, ptr, left, slot, bx, Strength(0, sec, 0, damping, f.depth), edges, known, by4);
        return;
      }
      PassOver(0, known, bx, by4);
    }

    /** The parameters of a luma call, with the source's damping; without one there is nothing to filter. */
    lemma LumaCall(bx4: int, by4: int, level: int, pri: int, sec: int, dir: int, variance: int, damping: int)
      requires ValidFrame(f) && IsBlock(f, bx4, by4) && BlockOn(f, bx4, by4) && level == Level(f, 0, bx4, by4)
      requires pri == PriOf(level, f.depth) && sec == SecOf(level, f.depth)
      requires variance >= 0 && damping == f.damping + f.depth - 8
      requires pri != 0 ==> var b := LumaBlock(f, pre, bx4, by4); dir == BestDir(b) && variance == Variance(b)
      ensures var adj, s := if pri != 0 then AdjustStrength(pri, variance) else 0, BlockStrength(f, pre, 0, bx4, by4);
              && ValidStrength(s) && s.pri == adj && s.sec == sec
              && (pri != 0 || sec != 0 ==>
                    level != 0 && s == Strength(adj, sec, if pri != 0 then dir else 0, damping, f.depth))
    {
      LumaStrength(f, pre, bx4, by4, pri, dir, variance);
      if level != 0 {
        DampingIsSet(f, 0, bx4, by4);
      }
      BlockStrengthValid(f, pre, 0, bx4, by4);
    }

    /** Passing over a plane of a block that has no strength. */
    lemma PassOver(pl: int, known: int -> int, bx4: int, by4: int)
      requires Valid() && 0 <= pl < Planes(f) && IsBlock(f, bx4, by4) && BlockOn(f, bx4, by4)
      requires Quiet(BlockStrength(f, pre, pl, bx4, by4)) && PlaneIs(pl, known, bx4, by4)
      ensures PlaneIs(pl, known, bx4 + 2, by4)
    {
      QuietBlock(pl, bx4, by4);
      Advance(pl, known, bx4, by4);
    }

    ghost function ChromaBuffers(): set<object> {
      set pl | 1 <= pl < |pic| :: pic[pl]
    }

    /** A zero level filters nothing. */
    lemma QuietLevel(pl: int, bx4: int, by4: int)
      requires ValidFrame(f) && 0 <= pl < Planes(f) && IsBlock(f, bx4, by4) && BlockOn(f, bx4, by4)
      requires Level(f, pl, bx4, by4) == 0
      ensures Quiet(BlockStrength(f, pre, pl, bx4, by4))
    {
      LumaBlockIsSearched(f, pre, bx4, by4);
      NothingToAdjust(Variance(LumaBlock(f, pre, bx4, by4)));
    }

    /** One chroma call. */
    method FilterChromaPlane(pl: int, ptr: int, left: Columns, slot: int, bx: int, pri: int, sec: int, uvDir: int,
                             damping: int, edges: Edges, ghost dir: int, ghost known: int -> int, ghost by4: int)
      requires Valid() && 1 <= pl < Planes(f) && Surroundings(pl, known, bx, by4, slot, left)
      requires BlockOn(f, bx, by4) && Level(f, pl, bx, by4) != 0 && edges == EdgesOf(bx, by4)
      requires pri == PriOf(Level(f, pl, bx, by4), f.depth) && sec == SecOf(Level(f, pl, bx, by4), f.depth)
      requires damping == f.damping + f.depth - 8
      requires 0 <= dir < 8 && (pri != 0 ==> dir == BestDir(LumaBlock(f, pre, bx, by4)))
      requires uvDir == if pri != 0 then UvDir(f, dir) else 0
      requires ptr == Addr(pl, X0(f, pl, bx), Y0(f, pl, by4))
      modifies pic[pl]
      ensures PlaneIs(pl, known, bx + 2, by4)
    {
      ChromaStrength(f, pre, pl, bx, by4, pri, dir);
      DampingIsSet(f, pl, bx, by4);
      LevelIsStrong(Level(f, pl, bx, by4), f.depth);
      FilterPlane(pl, ptr, left, slot, bx, Strength(pri, sec, uvDir, damping - 1, f.depth), edges, known, by4);
    }

    ghost predicate ChromaIs(known: int -> int, bx4: int, by4: int)
      requires PicValid()
      reads ChromaBuffers()
    {
      forall pl :: 1 <= pl < Planes(f) ==> PlaneIs(pl, known, bx4, by4)
    }

    /** The chroma calls. */
    method FilterChroma(bptrs: seq<int>, lrBak: array2<Columns>, bit: int, slot: int, bx: int, level: int, dir: int,
                        edges: Edges, ghost known: int -> int, ghost by4: int)
      requires Valid() && IsBlock(f, bx, by4) && BlockOn(f, bx, by4) && level == Level(f, 1, bx, by4)
      requires 0 <= dir < 8 && edges == EdgesOf(bx, by4) && PtrsAt(bptrs, bx, by4)
      requires PriOf(level, f.depth) != 0 ==> dir == BestDir(LumaBlock(f, pre, bx, by4))
      requires LeftsValid(lrBak) && 0 <= bit < 2 && ChromaIs(known, bx, by4)
      requires level != 0 ==> forall pl :: 1 <= pl < Planes(f) ==>
                 Surroundings(pl, known, bx, by4, slot, lrBak[bit, pl])
      modifies ChromaBuffers()
      ensures ChromaIs(known, bx + 2, by4)
    {
      if level != 0 {
        CallChroma(bptrs, lrBak, bit, slot, bx, level, dir, edges, known, by4);
      } else {
        QuietChroma(known, bx, by4);
      }
    }

    method CallChroma(bptrs: seq<int>, lrBak: array2<Columns>, bit: int, slot: int, bx: int, level: int, dir: int,
                      edges: Edges, ghost known: int -> int, ghost by4: int)
      requires Valid() && IsBlock(f, bx, by4) && BlockOn(f, bx, by4) && level == Level(f, 1, bx, by4) && level != 0
      requires 0 <= dir < 8 && edges == EdgesOf(bx, by4) && PtrsAt(bptrs, bx, by4)
      requires PriOf(level, f.depth) != 0 ==> dir == BestDir(LumaBlock(f, pre, bx, by4))
      requires LeftsValid(lrBak) && 0 <= bit < 2
      requires forall pl :: 1 <= pl < Planes(f) ==> Surroundings(pl, known, bx, by4, slot, lrBak[bit, pl])
      modifies ChromaBuffers()
      ensures ChromaIs(known, bx + 2, by4)
    {
      ghost var next := bx + 2;
      assert !f.layout.I400?;
      var pri, sec, damping := PriOf(level, f.depth), SecOf(level, f.depth), f.damping + f.depth - 8;
      var uvDir := if pri != 0 then UvDir(f, dir) else 0;
      for pl := 1 to 3
        invariant if pl > 1 then PlaneIs(1, known, next, by4) else Surroundings(1, known, bx, by4, slot, lrBak[bit, 1])
        invariant if pl > 2 then PlaneIs(2, known, next, by4) else Surroundings(2, known, bx, by4, slot, lrBak[bit, 2])
      {
        FilterChromaPlane(pl, bptrs[pl], lrBak[bit, pl], slot, bx, pri, sec, uvDir, damping, edges, dir, known, by4);
      }
    }

    lemma QuietChroma(known: int -> int, bx4: int, by4: int)
      requires Valid() && IsBlock(f, bx4, by4) && BlockOn(f, bx4, by4) && Level(f, 1, bx4, by4) == 0
      requires ChromaIs(known, bx4, by4)
      ensures ChromaIs(known, bx4 + 2, by4)
    {
      var next := bx4 + 2;
      forall pl | 1 <= pl < Planes(f)
        ensures PlaneIs(pl, known, next, by4)
      {
        QuietLevel(pl, bx4, by4);
        QuietBlock(pl, bx4, by4);
        Advance(pl, known, bx4, by4);
      }
    }

    /** A block with coded pixels: backups, direction search and kernel calls. */
    method FilterCoded(st: Scan, lrBak: array2<Columns>, bptrs: seq<int>, slot: int, bx: int, yLvl: int, uvLvl: int,
                       ghost known: int -> int, ghost by4: int)
      returns (st': Scan)
      requires Valid() && IsBlock(f, bx, by4) && BlockOn(f, bx, by4)
      requires yLvl == Level(f, 0, bx, by4) && uvLvl == Level(f, 1, bx, by4)
      requires LeftsValid(lrBak) && 0 <= st.bit < 2 && st.edges == EdgesOf(bx, by4) && PtrsAt(bptrs, bx, by4)
      requires bx > 0 ==> LeftsOk(st.bit, st.lastSkip, st.prevFlag, lrBak, bx, by4)
      requires 0 <= slot < 2 && (by4 > 0 ==> LinesAre(slot, by4))
      requires Reaches(known, by4) && AllPlanes(known, bx, by4)
      modifies lrBak, Buffers()
      ensures AllPlanes(known, bx + 2, by4) && st'.edges.left && ScanIs(st', lrBak, bx + 2, by4)
    {
      var flag := Flags(yLvl != 0, uvLvl != 0);
      SaveLeft(st, lrBak, bptrs, bx, flag, known, by4);
      SaveRight(1 - st.bit, st.edges.right, lrBak, bptrs, bx, flag, known, by4);
      FilterPlanes(st.bit, st.edges, lrBak, bptrs, slot, bx, yLvl, uvLvl, known, by4);
      st' := Scan(st.edges.(left := true), 1 - st.bit, false, flag);
      UnflaggedPlanes(bx, by4, yLvl, uvLvl, flag);
    }

    /** Planes without a flag keep their pixels. */
    lemma UnflaggedPlanes(bx4: int, by4: int, yLvl: int, uvLvl: int, flag: Flags)
      requires Valid() && IsBlock(f, bx4, by4) && BlockOn(f, bx4, by4)
      requires yLvl == Level(f, 0, bx4, by4) && uvLvl == Level(f, 1, bx4, by4) && flag == Flags(yLvl != 0, uvLvl != 0)
      ensures forall pl :: 0 <= pl < Planes(f) && !flag.Contains(pl) ==> Same(pl, bx4, by4)
    {
      forall pl | 0 <= pl < Planes(f) && !flag.Contains(pl)
        ensures Same(pl, bx4, by4)
      {
        QuietLevel(pl, bx4, by4);
        QuietBlock(pl, bx4, by4);
      }
    }

    /** The search and the calls of one block. */
    method FilterPlanes(bit: int, edges: Edges, lrBak: array2<Columns>, bptrs: seq<int>, slot: int, bx: int,
                        yLvl: int, uvLvl: int, ghost known: int -> int, ghost by4: int)
      requires Valid() && IsBlock(f, bx, by4) && BlockOn(f, bx, by4)
      requires yLvl == Level(f, 0, bx, by4) && uvLvl == Level(f, 1, bx, by4)
      requires LeftsValid(lrBak) && 0 <= bit < 2 && edges == EdgesOf(bx, by4) && PtrsAt(bptrs, bx, by4)
      requires 0 <= slot < 2 && (by4 > 0 ==> LinesAre(slot, by4))
      requires Reaches(known, by4) && AllPlanes(known, bx, by4)
      requires bx > 0 ==> forall pl :: 0 <= pl < Planes(f) && Level(f, pl, bx, by4) != 0 ==> LeftIs(lrBak[bit, pl], pl, bx, by4)
      modifies Buffers()
      ensures AllPlanes(known, bx + 2, by4)
    {
      var dir, variance := Search(bptrs[0], PriOf(yLvl, f.depth), PriOf(uvLvl, f.depth), known, bx, by4);
      FilterLuma(bptrs[0], lrBak[bit, 0], slot, bx, yLvl, dir, variance, edges, known, by4);
      FilterChroma(bptrs, lrBak, bit, slot, bx, uvLvl, dir, edges, known, by4);
    }

    // ----- A superblock, a row, a call -----

    /** Where the scan of a row stands before superblock `sbx`. */
    function Pos(sbx: int): int {
      Min(16 * sbx, f.bw)
    }

    /** Passing over blocks no plane of which CDEF changes. */
    lemma {:induction false} SkipBlocks(known: int -> int, bx4: int, end: int, by4: int)
      requires Valid() && AllPlanes(known, bx4, by4) && 0 <= bx4 <= end <= f.bw && bx4 % 2 == 0 && end % 2 == 0
      requires 0 <= by4 < f.bh && by4 % 2 == 0
      requires forall bx, pl :: bx4 <= bx < end && bx % 2 == 0 && 0 <= pl < Planes(f) ==> Same(pl, bx, by4)
      ensures AllPlanes(known, end, by4)
      decreases end - bx4
    {
      if bx4 < end {
        var next := bx4 + 2;
        forall pl | 0 <= pl < Planes(f)
          ensures PlaneIs(pl, known, next, by4)
        {
          Advance(pl, known, bx4, by4);
        }
        SkipBlocks(known, next, end, by4);
      }
    }

    lemma AdvanceAll(known: int -> int, bx4: int, by4: int)
      requires PicValid() && AllPlanes(known, bx4, by4)
      requires forall pl :: 0 <= pl < Planes(f) ==> Same(pl, bx4, by4)
      ensures AllPlanes(known, bx4 + 2, by4)
    {
      var next := bx4 + 2;
      forall pl | 0 <= pl < Planes(f)
        ensures PlaneIs(pl, known, next, by4)
      {
        Advance(pl, known, bx4, by4);
      }
    }

    /** A block of a row, whichever way it goes. */
    method FilterBlockAt(st: Scan, lrBak: array2<Columns>, bptrs: seq<int>, slot: int, bx: int, yLvl: int, uvLvl: int,
                         noskipMask: seq<bool>, ghost known: int -> int, ghost by4: int)
      returns (st': Scan)
      requires Valid() && IsBlock(f, bx, by4) && CdefIdx(f, bx, by4) != -1 && |noskipMask| == 32
      requires yLvl == Level(f, 0, bx, by4) && uvLvl == Level(f, 1, bx, by4)
      requires InMask(noskipMask, bx) == AnyCoded(f, bx, by4)
      requires ScanIs(st, lrBak, bx, by4) && PtrsAt(bptrs, bx, by4)
      requires 0 <= slot < 2 && (by4 > 0 ==> LinesAre(slot, by4))
      requires Reaches(known, by4) && AllPlanes(known, bx, by4)
      modifies lrBak, Buffers()
      ensures AllPlanes(known, bx + 2, by4) && ScanIs(st', lrBak, bx + 2, by4)
    {
      st' := st;
      if bx + 2 >= f.bw {
        st' := st'.(edges := st'.edges.(right := false));
      }
      if !InMask(noskipMask, bx) {
        forall pl | 0 <= pl < Planes(f)
          ensures Same(pl, bx, by4)
        {
          QuietBlock(pl, bx, by4);
        }
        AdvanceAll(known, bx, by4);
        st' := st'.(lastSkip := true, edges := st'.edges.(left := true));
      } else {
        st' := FilterCoded(st', lrBak, bptrs, slot, bx, yLvl, uvLvl, known, by4);
      }
    }

    /** A superblock of a row that is not skipped as a whole. */
    method FilterSuperblock(st: Scan, lrBak: array2<Columns>, iptrs: seq<int>, slot: int, sbx: int, yLvl: int, uvLvl: int,
                            noskipMask: seq<bool>, ghost known: int -> int, ghost by4: int)
      returns (st': Scan)
      requires Valid() && 0 <= sbx < 2 * f.sb128w && IsBlock(f, 0, by4) && |noskipMask| == 32
      requires forall bx :: InSuperblock(sbx, bx) ==> PlainBlock(bx, by4, yLvl, uvLvl, noskipMask)
      requires ScanIs(st, lrBak, Pos(sbx), by4) && PtrsAt(iptrs, 16 * sbx, by4)
      requires 0 <= slot < 2 && (by4 > 0 ==> LinesAre(slot, by4))
      requires Reaches(known, by4) && AllPlanes(known, Pos(sbx), by4)
      modifies lrBak, Buffers()
      ensures AllPlanes(known, Pos(sbx + 1), by4) && ScanIs(st', lrBak, Pos(sbx + 1), by4)
    {
      st' := st;
      var bptrs := iptrs;
      var bx := sbx * 16;
      var end := Pos(sbx + 1);
      ghost var at := Pos(sbx);
      SuperblockStart(sbx);
      while bx < end
        invariant InsideRow(sbx, bx, at)
        invariant PtrsAt(bptrs, bx, by4)
        invariant AllPlanes(known, at, by4) && ScanIs(st', lrBak, at, by4)
      {
        RowStep(sbx, bx, at);
        assert PlainBlock(bx, by4, yLvl, uvLvl, noskipMask);
        st' := FilterBlockAt(st', lrBak, bptrs, slot, bx, yLvl, uvLvl, noskipMask, known, by4);
        bptrs := AdvancePtrs(bptrs, 8, bx, by4);
        bx := bx + 2;
        at := bx;
      }
      RowEnd(sbx, bx, at);
    }

    /** The block counter of a superblock, and where in the row it stands. */
    predicate InsideRow(sbx: int, bx: int, at: int) {
      f.bw % 2 == 0 && bx % 2 == 0 && 16 * sbx <= bx <= Max(Pos(sbx + 1), 16 * sbx) && at == Min(bx, f.bw)
    }

    lemma SuperblockStart(sbx: int)
      requires f.bw % 2 == 0
      ensures InsideRow(sbx, 16 * sbx, Pos(sbx))
    {
      assert 16 * sbx == 2 * (8 * sbx);
    }

    lemma RowStep(sbx: int, bx: int, at: int)
      requires InsideRow(sbx, bx, at) && bx < Pos(sbx + 1)
      ensures at == bx && InSuperblock(sbx, bx) && InsideRow(sbx, bx + 2, bx + 2)
    {
      EvenMin(sbx + 1, f.bw);
      NextColumn(Pos(sbx + 1), bx);
      assert bx + 2 <= Pos(sbx + 1) && (bx + 2) % 2 == 0;
    }

    lemma RowEnd(sbx: int, bx: int, at: int)
      requires InsideRow(sbx, bx, at) && bx >= Pos(sbx + 1)
      ensures at == Pos(sbx + 1)
    {
    }

    predicate InSuperblock(sbx: int, bx: int) {
      16 * sbx <= bx < Pos(sbx + 1) && bx % 2 == 0
    }

    /** What the source reads once for a superblock holds for each of its blocks. */
    ghost predicate PlainBlock(bx: int, by4: int, yLvl: int, uvLvl: int, noskipMask: seq<bool>)
      requires ValidFrame(f) && |noskipMask| == 32
    {
      && IsBlock(f, bx, by4) && CdefIdx(f, bx, by4) != -1
      && yLvl == Level(f, 0, bx, by4) && uvLvl == Level(f, 1, bx, by4)
      && InMask(noskipMask, bx) == AnyCoded(f, bx, by4)
    }

    /** The pointers moved right by `n` luma pixels. */
    method AdvancePtrs(ptrs: seq<int>, n: int, ghost bx4: int, ghost by4: int) returns (next: seq<int>)
      requires ValidFrame(f) && PtrsAt(ptrs, bx4, by4) && (n == 8 || n == 64)
      ensures PtrsAt(next, bx4 + n / 4, by4)
    {
      var ssHor := if f.layout.I444? then 0 else 1;
      next := [ptrs[0] + n, ptrs[1] + Shr(n, ssHor), ptrs[2] + Shr(n, ssHor)];
    }

    lemma CodedIs(bx: int, by4: int, row: seq<seq<bool>>, c: int)
      requires ValidFrame(f) && 0 <= bx < 32 * f.sb128w && 0 <= by4 < f.bh
      requires row == MaskAt(f, bx, by4).noskip[by4 % 32 / 2] && c == bx % 32
      ensures |row| == 2 && |row[0]| == 16 && |row[1]| == 16
      ensures (row[0] + row[1])[c] == Coded(f, bx, by4)
    {
      ColumnInHalf(bx);
      MaskBit(row, c);
    }

    lemma MaskBits(bx4: int, by4: int, row: seq<seq<bool>>, c: int)
      requires ValidFrame(f) && IsBlock(f, bx4, by4) && bx4 + 1 < 32 * f.sb128w && c == bx4 % 32 && c + 1 == (bx4 + 1) % 32
      requires row == MaskAt(f, bx4, by4).noskip[by4 % 32 / 2] && row == MaskAt(f, bx4 + 1, by4).noskip[by4 % 32 / 2]
      ensures |row| == 2 && |row[0]| == 16 && |row[1]| == 16
      ensures InMask(row[0] + row[1], bx4) == AnyCoded(f, bx4, by4)
    {
      CodedIs(bx4, by4, row, c);
      CodedIs(bx4 + 1, by4, row, c + 1);
    }

    /** The 32-bit mask of a row of a superblock says which of its blocks were coded. */
    lemma MaskOfBlock(sbx: int, bx4: int, by4: int, m: Av1Filter)
      requires ValidFrame(f) && IsBlock(f, bx4, by4) && 16 * sbx <= bx4 < 16 * sbx + 16 && 0 <= sbx < 2 * f.sb128w
      requires m == MaskAt(f, 16 * sbx, by4)
      ensures InMask(m.noskip[by4 % 32 / 2][0] + m.noskip[by4 % 32 / 2][1], bx4) == AnyCoded(f, bx4, by4)
    {
      RecordOfBlock(sbx, bx4, by4);
      EvenColumn(bx4);
      MaskBits(bx4, by4, m.noskip[by4 % 32 / 2], bx4 % 32);
    }

    lemma RecordOfBlock(sbx: int, bx4: int, by4: int)
      requires ValidFrame(f) && IsBlock(f, bx4, by4) && 16 * sbx <= bx4 < 16 * sbx + 16 && 0 <= sbx < 2 * f.sb128w
      ensures bx4 + 1 < 32 * f.sb128w
      ensures MaskAt(f, bx4, by4) == MaskAt(f, 16 * sbx, by4) && MaskAt(f, bx4 + 1, by4) == MaskAt(f, 16 * sbx, by4)
    {
      RowIsWhole(f);
      NextColumn(f.bw, bx4);
      NextInArea(sbx, bx4);
      AreaColumns(sbx, bx4);
      AreaColumns(sbx, bx4 + 1);
      SameRecord(f, 16 * sbx, bx4, by4);
      SameRecord(f, 16 * sbx, bx4 + 1, by4);
    }

    /** A superblock that is skipped as a whole. */
    lemma QuietSuperblock(sbx: int, by4: int)
      requires Valid() && 0 <= sbx < 2 * f.sb128w && IsBlock(f, 0, by4)
      requires QuietArea(MaskAt(f, 16 * sbx, by4).cdefIdx[by4 / 16 % 2 * 2 + sbx % 2])
      ensures forall bx, pl :: InSuperblock(sbx, bx) && 0 <= pl < Planes(f) ==> Same(pl, bx, by4)
    {
      forall bx, pl | InSuperblock(sbx, bx) && 0 <= pl < Planes(f)
        ensures Same(pl, bx, by4)
      {
        AreaOfBlock(f, sbx, bx, by4);
        if BlockOn(f, bx, by4) {
          QuietLevel(pl, bx, by4);
        }
        QuietBlock(pl, bx, by4);
      }
    }

    /** `cdef_idx` is unset, or both its strengths are zero. */
    predicate QuietArea(cdefIdx: int)
      requires ValidFrame(f) && -1 <= cdefIdx < 8
    {
      cdefIdx == -1 || (f.yStrength[cdefIdx] == 0 && f.uvStrength[cdefIdx] == 0)
    }

    /** The filter index of a superblock, and the record it is in. */
    method LookUp(sbx: int, by4: int, lflvlOffset: int) returns (m: Av1Filter, cdefIdx: int)
      requires ValidFrame(f) && 0 <= sbx < 2 * f.sb128w && IsBlock(f, 0, by4) && lflvlOffset == MaskOffset(f, by4)
      ensures m == MaskAt(f, 16 * sbx, by4) && ValidFilter(m)
      ensures cdefIdx == m.cdefIdx[by4 / 16 % 2 * 2 + sbx % 2] && -1 <= cdefIdx < 8
    {
      var sb64Idx := by4 / 16 % 2 * 2 + sbx % 2;
      MaskIndexInRange(f, 16 * sbx, by4);
      assert MaskIndex(f, 16 * sbx, by4) == lflvlOffset + sbx / 2;
      m := f.mask[lflvlOffset + sbx / 2];
      cdefIdx := m.cdefIdx[sb64Idx];
    }

    /** A superblock of a row: its filter index is looked up, and it is filtered or passed over. */
    method ScanSuperblock(st: Scan, lrBak: array2<Columns>, iptrs: seq<int>, slot: int, sbx: int, by4: int,
                          lflvlOffset: int, ghost known: int -> int)
      returns (st': Scan)
      requires Valid() && 0 <= sbx < 2 * f.sb128w && IsBlock(f, 0, by4) && lflvlOffset == MaskOffset(f, by4)
      requires ScanIs(st, lrBak, Pos(sbx), by4) && PtrsAt(iptrs, 16 * sbx, by4)
      requires 0 <= slot < 2 && (by4 > 0 ==> LinesAre(slot, by4))
      requires Reaches(known, by4) && AllPlanes(known, Pos(sbx), by4)
      modifies lrBak, Buffers()
      ensures AllPlanes(known, Pos(sbx + 1), by4) && ScanIs(st', lrBak, Pos(sbx + 1), by4)
    {
      var m, cdefIdx := LookUp(sbx, by4, lflvlOffset);
      if cdefIdx == -1 || (f.yStrength[cdefIdx] == 0 && f.uvStrength[cdefIdx] == 0) {
        SkipSuperblock(known, st, lrBak, sbx, by4, cdefIdx, Pos(sbx), Pos(sbx + 1));
        st' := st.(lastSkip := true, edges := st.edges.(left := true));
      } else {
        var noskipRow := m.noskip[by4 % 32 / 2];
        PlainSuperblock(sbx, by4, m, cdefIdx);
        st' := FilterSuperblock(st, lrBak, iptrs, slot, sbx, f.yStrength[cdefIdx], f.uvStrength[cdefIdx],
                                noskipRow[0] + noskipRow[1], known, by4);
        RowHasStarted(sbx);
        st' := st'.(edges := st'.edges.(left := true));
      }
    }

    lemma RowHasStarted(sbx: int)
      requires ValidFrame(f) && sbx >= 0
      ensures Pos(sbx + 1) > 0
    {
    }

    lemma EvenMin(k: int, bw: int)
      requires bw % 2 == 0
      ensures Min(16 * k, bw) % 2 == 0
    {
      assert 16 * k == 2 * (8 * k);
    }

    /** Passing over a superblock keeps the invariant of the row. */
    lemma SkipSuperblock(known: int -> int, st: Scan, lrBak: array2<Columns>, sbx: int, by4: int, cdefIdx: int,
                         start: int, end: int)
      requires Valid() && 0 <= sbx < 2 * f.sb128w && IsBlock(f, 0, by4)
      requires cdefIdx == MaskAt(f, 16 * sbx, by4).cdefIdx[by4 / 16 % 2 * 2 + sbx % 2] && QuietArea(cdefIdx)
      requires start == Pos(sbx) && end == Pos(sbx + 1) && AllPlanes(known, start, by4) && ScanIs(st, lrBak, start, by4)
      ensures AllPlanes(known, end, by4)
      ensures ScanIs(st.(lastSkip := true, edges := st.edges.(left := true)), lrBak, end, by4)
    {
      QuietSuperblock(sbx, by4);
      SuperblockSpan(sbx, start, end);
      SkipBlocks(known, start, end, by4);
      if end < f.bw {
        forall pl | 0 <= pl < Planes(f)
          ensures LeftOk(st.bit, true, st.prevFlag, lrBak, pl, end, by4)
        {
          assert InSuperblock(sbx, end - 2);
        }
      }
    }

    lemma SuperblockSpan(sbx: int, start: int, end: int)
      requires f.bw > 0 && f.bw % 2 == 0 && sbx >= 0 && start == Pos(sbx) && end == Pos(sbx + 1)
      ensures 0 <= start <= end <= f.bw && start % 2 == 0 && end % 2 == 0 && end > 0
      ensures forall bx :: start <= bx < end && bx % 2 == 0 ==> InSuperblock(sbx, bx)
      ensures end < f.bw ==> InSuperblock(sbx, end - 2)
    {
      EvenMin(sbx, f.bw);
      EvenMin(sbx + 1, f.bw);
      forall bx | start <= bx < end && bx % 2 == 0
        ensures InSuperblock(sbx, bx)
      {
      }
    }

    lemma PlainSuperblock(sbx: int, by4: int, m: Av1Filter, cdefIdx: int)
      requires ValidFrame(f) && 0 <= sbx < 2 * f.sb128w && IsBlock(f, 0, by4)
      requires m == MaskAt(f, 16 * sbx, by4) && cdefIdx == m.cdefIdx[by4 / 16 % 2 * 2 + sbx % 2] && cdefIdx != -1
      ensures forall bx :: InSuperblock(sbx, bx) ==>
                PlainBlock(bx, by4, f.yStrength[cdefIdx], f.uvStrength[cdefIdx],
                           m.noskip[by4 % 32 / 2][0] + m.noskip[by4 % 32 / 2][1])
    {
      forall bx | InSuperblock(sbx, bx)
        ensures PlainBlock(bx, by4, f.yStrength[cdefIdx], f.uvStrength[cdefIdx],
                           m.noskip[by4 % 32 / 2][0] + m.noskip[by4 % 32 / 2][1])
      {
        AreaOfBlock(f, sbx, bx, by4);
        MaskOfBlock(sbx, bx, by4, m);
      }
    }

    // ----- A row, a call -----

    /** One block row: the scan starts with nothing saved and nothing to the left. */
    method FilterRow(lrBak: array2<Columns>, ptrs: seq<int>, slot: int, by4: int, bit: int, edges: Edges,
                     lflvlOffset: int, ghost known: int -> int)
      returns (bit': int)
      requires Valid() && IsBlock(f, 0, by4) && lflvlOffset == MaskOffset(f, by4)
      requires LeftsValid(lrBak) && 0 <= bit < 2 && edges.top == (by4 > 0) && edges.bottom == (by4 + 2 < f.bh)
      requires PtrsAt(ptrs, 0, by4) && 0 <= slot < 2 && (by4 > 0 ==> LinesAre(slot, by4))
      requires Reaches(known, by4) && AllPlanes(known, 0, by4)
      modifies lrBak, Buffers()
      ensures LeftsValid(lrBak) && 0 <= bit' < 2 && AllPlanes(known, 0, by4 + 2)
    {
      var iptrs := ptrs;
      var st := Scan(edges.(left := false, right := true), bit, true, Flags(false, false));
      assert Pos(0) == 0;
      for sbx := 0 to 2 * f.sb128w
        invariant PtrsAt(iptrs, 16 * sbx, by4)
        invariant AllPlanes(known, Pos(sbx), by4) && ScanIs(st, lrBak, Pos(sbx), by4)
      {
        st := ScanSuperblock(st, lrBak, iptrs, slot, sbx, by4, lflvlOffset, known);
        iptrs := AdvancePtrs(iptrs, 64, 16 * sbx, by4);
      }
      RowIsWhole(f);
      NextRows(known, by4);
      bit' := st.bit;
    }

    lemma NextRows(known: int -> int, by4: int)
      requires PicValid() && AllPlanes(known, f.bw, by4)
      ensures AllPlanes(known, 0, by4 + 2)
    {
      var next := by4 + 2;
      forall pl | 0 <= pl < Planes(f)
        ensures PlaneIs(pl, known, 0, next)
      {
        NextRow(pl, known, by4);
      }
    }

    /** Rows enough to filter everything above block row `by4`: two more than those. */
    ghost predicate KnownTo(known: int -> int, by4: int) {
      forall pl :: 0 <= pl < Planes(f) ==> known(pl) >= Min(Y0(f, pl, f.bh), Y0(f, pl, by4) + 2)
    }

    /** What one call leaves to the next: the two toggled line slots, and a picture filtered so far. */
    ghost predicate Handover(known: int -> int, by4: int)
      requires MemValid()
      reads this`toggle, lineBuf, Buffers()
    {
      && (toggle == 0 || toggle == 1)
      && AllPlanes(known, 0, by4)
      && (0 < by4 < f.bh ==> LinesAre(toggle, by4))
    }

    lemma KnownReaches(known: int -> int, by4: int, byEnd: int)
      requires KnownTo(known, byEnd) && by4 + 2 <= byEnd
      ensures Reaches(known, by4)
    {
    }

    /** The pointers moved down by one block row; an odd chroma stride would be rounded. */
    method NextRowPtrs(ptrs: seq<int>, ghost by4: int) returns (next: seq<int>)
      requires ValidFrame(f) && PtrsAt(ptrs, 0, by4)
      ensures PtrsAt(next, 0, by4 + 2)
    {
      var ssVer := if f.layout.I420? then 1 else 0;
      next := [ptrs[0] + 8 * f.yStride, ptrs[1] + 8 * Shr(f.uvStride, ssVer), ptrs[2] + 8 * Shr(f.uvStride, ssVer)];
      forall pl | 0 <= pl < Planes(f)
        ensures next[pl] == Addr(pl, 0, Y0(f, pl, by4 + 2))
      {
        RowsDown(pl, Y0(f, pl, by4), BlockH(f, pl));
      }
    }

    lemma RowsDown(pl: int, y: int, h: int)
      requires 0 <= pl < |origin|
      ensures Addr(pl, 0, y + h) == Addr(pl, 0, y) + h * Stride(f, pl)
    {
      assert (y + h) * Stride(f, pl) == y * Stride(f, pl) + h * Stride(f, pl);
    }

    /** `rav1d_cdef_brow`: for any cut of the frame into consecutive calls, the block rows of this one
        end up as if filtered from a frozen copy of the picture, and the next call can start. */
    method Brow(p: seq<int>, lflvlOffset: int, byStart: int, byEnd: int, ghost known: int -> int)
      requires Valid() && 0 <= byStart <= byEnd <= f.bh && byStart % 2 == 0 && byEnd % 2 == 0
      requires byStart < byEnd ==> lflvlOffset == MaskOffset(f, byStart) && OneArea(byStart, byEnd)
      requires PtrsAt(p, 0, byStart) && KnownTo(known, byEnd) && Handover(known, byStart)
      modifies this`toggle, lineBuf, Buffers()
      ensures Handover(known, byEnd)
    {
      var edges := Edges(false, false, byStart > 0, true);
      var ptrs := p;
      var bit := 0;
      var lrBak := new Columns[2, 3]((_, _) => [[0, 0], [0, 0], [0, 0], [0, 0], [0, 0], [0, 0], [0, 0], [0, 0]]);
      var by4 := byStart;
      while by4 < byEnd
        invariant InCall(byStart, by4, byEnd) && BetweenRows(lrBak, ptrs, bit, edges, by4)
        invariant Handover(known, by4)
      {
        CallStep(f, byStart, by4, byEnd);
        KnownReaches(known, by4, byEnd);
        ptrs, bit, edges := BrowTurn(lrBak, ptrs, by4, bit, edges, lflvlOffset, known);
        by4 := by4 + 2;
      }
      assert by4 == byEnd;
    }

    /** The body of the loop. */
    method BrowTurn(lrBak: array2<Columns>, ptrs: seq<int>, by4: int, bit: int, edges: Edges, lflvlOffset: int,
                    ghost known: int -> int)
      returns (ptrs': seq<int>, bit': int, edges': Edges)
      requires Valid() && IsBlock(f, 0, by4) && lflvlOffset == MaskOffset(f, by4)
      requires BetweenRows(lrBak, ptrs, bit, edges, by4) && Reaches(known, by4) && Handover(known, by4)
      modifies lrBak, this`toggle, lineBuf, Buffers()
      ensures BetweenRows(lrBak, ptrs', bit', edges', by4 + 2) && Handover(known, by4 + 2)
    {
      edges' := edges;
      if by4 + 2 >= f.bh {
        edges' := edges'.(bottom := false);
      }
      bit' := BrowStep(lrBak, ptrs, by4, bit, edges', lflvlOffset, known);
      ptrs' := NextRowPtrs(ptrs, by4);
      edges' := edges'.(top := true);
    }

    /** The locals of a call, between two block rows. */
    ghost predicate BetweenRows(lrBak: array2<Columns>, ptrs: seq<int>, bit: int, edges: Edges, by4: int)
      reads lrBak
    {
      && LeftsValid(lrBak) && 0 <= bit < 2 && PtrsAt(ptrs, 0, by4)
      && edges.top == (by4 > 0) && (by4 < f.bh ==> edges.bottom)
    }

    /** The backup of the two lines below, and the row. */
    method BrowStep(lrBak: array2<Columns>, ptrs: seq<int>, by4: int, bit: int, edges: Edges, lflvlOffset: int,
                    ghost known: int -> int)
      returns (bit': int)
      requires Valid() && IsBlock(f, 0, by4) && lflvlOffset == MaskOffset(f, by4)
      requires LeftsValid(lrBak) && 0 <= bit < 2 && edges.top == (by4 > 0) && edges.bottom == (by4 + 2 < f.bh)
      requires PtrsAt(ptrs, 0, by4) && Reaches(known, by4) && Handover(known, by4)
      modifies lrBak, this`toggle, lineBuf, Buffers()
      ensures LeftsValid(lrBak) && 0 <= bit' < 2 && Handover(known, by4 + 2)
    {
      var tf := if toggle != 0 then 1 else 0;
      if edges.bottom {
        Backup2Lines(1 - tf, ptrs, known, by4);
      }
      bit' := FilterRow(lrBak, ptrs, tf, by4, bit, edges, lflvlOffset, known);
      toggle := 1 - toggle;
    }

    // ----- The callers -----

    /** `rav1d_filter_sbrow_cdef`: the block row left over from above, then all of this superblock row
        but the part the next one's deblocking may still change. */
    method FilterSbrow(sby: int, sb128: bool, ghost known: int -> int)
      requires Valid() && 0 <= sby && sby * SbStep(sb128) < f.bh
      requires KnownTo(known, CdefEnd(f, sby, sb128)) && Handover(known, CdefStart(sby, sb128))
      modifies this`toggle, lineBuf, Buffers()
      ensures Handover(known, CdefEnd(f, sby, sb128))
    {
      var start := sby * SbStep(sb128);
      var p := LfOffsets(start);
      var prevMask, maskOffset := MaskOffsets(sby, sb128, start);
      var end := CdefEnd(f, sby, sb128);
      ghost var from := CdefStart(sby, sb128);
      SbrowFrom(f, sby, sb128, start, end, from);
      FilterCalls(p, sby != 0, prevMask, maskOffset, start, end, known, from);
    }

    /** The filter records of the superblock row, and of the one above. */
    method MaskOffsets(sby: int, sb128: bool, start: int) returns (prevMask: int, maskOffset: int)
      requires ValidFrame(f) && 0 <= sby && start == sby * SbStep(sb128) < f.bh
      ensures maskOffset == MaskOffset(f, start)
      ensures sby != 0 ==> prevMask == MaskOffset(f, start - 2)
    {
      var shift := if sb128 then 0 else 1;
      prevMask, maskOffset := Shr(sby - 1, shift) * f.sb128w, Shr(sby, shift) * f.sb128w;
      SbrowRows(f, sby, sb128, start, CdefEnd(f, sby, sb128));
      RecordsOfRow(f, start, Shr(sby, shift), maskOffset);
      if sby != 0 {
        RowsAbove(sby, sb128, start);
        RecordsOfRow(f, start - 2, Shr(sby - 1, shift), prevMask);
      }
    }

    /** Its two calls. */
    method FilterCalls(p: seq<int>, above: bool, prevMask: int, maskOffset: int, start: int, end: int, ghost known: int -> int,
                       ghost from: int)
      requires Valid() && 0 <= start <= end <= f.bh && start % 2 == 0 && end % 2 == 0 && OneArea(start, end)
      requires PtrsAt(p, 0, start) && maskOffset == MaskOffset(f, start)
      requires above ==> 2 <= start && OneArea(start - 2, start) && prevMask == MaskOffset(f, start - 2)
      requires KnownTo(known, end) && Handover(known, from) && from == if above then start - 2 else start
      modifies this`toggle, lineBuf, Buffers()
      ensures Handover(known, end)
    {
      KnownBefore(known, start, end);
      if above {
        FilterAbove(p, prevMask, start, known);
      }
      Brow(p, maskOffset, start, end, known);
    }

    /** The call for the block row the superblock row above left over. */
    method FilterAbove(p: seq<int>, prevMask: int, start: int, ghost known: int -> int)
      requires Valid() && 2 <= start <= f.bh && start % 2 == 0 && OneArea(start - 2, start)
      requires prevMask == MaskOffset(f, start - 2)
      requires PtrsAt(p, 0, start) && KnownTo(known, start) && Handover(known, start - 2)
      modifies this`toggle, lineBuf, Buffers()
      ensures Handover(known, start)
    {
      var pUp := UpOneRow(p, start);
      Brow(pUp, prevMask, start - 2, start, known);
    }

    lemma KnownBefore(known: int -> int, by4: int, byEnd: int)
      requires KnownTo(known, byEnd) && by4 <= byEnd
      ensures KnownTo(known, by4)
    {
    }

    /** `lf_offsets`: where row `4 * by4` of the picture starts in each plane. */
    method LfOffsets(by4: int) returns (p: seq<int>)
      requires ValidFrame(f) && |origin| == Planes(f)
      ensures PtrsAt(p, 0, by4)
    {
      var ssVer := if f.layout.I420? then 1 else 0;
      var y := by4 * 4;
      if f.layout.I400? {
        p := [origin[0] + y * f.yStride, origin[0] + y * f.yStride, origin[0] + y * f.yStride];
      } else {
        RowOffset(y, by4, f.uvStride, ssVer);
        p := [origin[0] + y * f.yStride, origin[1] + Shr(y * f.uvStride, ssVer), origin[2] + Shr(y * f.uvStride, ssVer)];
      }
    }

    lemma RowOffset(y: int, by4: int, stride: int, ssVer: nat)
      requires y == 4 * by4 && ssVer < 2
      ensures Shr(y * stride, ssVer) == if ssVer == 1 then (by4 * 2) * stride else (by4 * 4) * stride
    {
      assert y * stride == 2 * ((by4 * 2) * stride);
    }

    method UpOneRow(p: seq<int>, ghost by4: int) returns (up: seq<int>)
      requires ValidFrame(f) && PtrsAt(p, 0, by4)
      ensures PtrsAt(up, 0, by4 - 2)
    {
      var ssVer := if f.layout.I420? then 1 else 0;
      up := [p[0] - 8 * f.yStride, p[1] - Shr(8 * f.uvStride, ssVer), p[2] - Shr(8 * f.uvStride, ssVer)];
      forall pl | 0 <= pl < Planes(f)
        ensures up[pl] == Addr(pl, 0, Y0(f, pl, by4 - 2))
      {
        RowsDown(pl, Y0(f, pl, by4 - 2), BlockH(f, pl));
      }
    }

    // ----- The frame -----

    /** All superblock rows, from the first: the whole picture is the one section 7.15 describes. */
    method FilterFrame(sb128: bool, ghost known: int -> int)
      requires Valid() && (toggle == 0 || toggle == 1) && AllPlanes(known, 0, 0)
      requires forall pl :: 0 <= pl < Planes(f) ==> known(pl) >= Y0(f, pl, f.bh)
      modifies this`toggle, lineBuf, Buffers()
      ensures forall pl, x, y :: InPlane(f, pl, x, y) ==>
                In(pic[pl], Addr(pl, x, y)) && pic[pl][Addr(pl, x, y)] == Expected(f, pre, pl, x, y)
    {
      var sby := 0;
      ghost var at := 0;
      while sby * SbStep(sb128) < f.bh
        invariant 0 <= sby && Handover(known, at)
        invariant at == if sby * SbStep(sb128) < f.bh then CdefStart(sby, sb128) else f.bh
        decreases f.bh - sby
      {
        FilterSbrow(sby, sb128, known);
        at := CdefEnd(f, sby, sb128);
        NextSbrow(f, sby, sb128);
        sby := sby + 1;
      }
      WholeFrameIsPost(known);
    }

    // ----- The frame, while it is being deblocked -----

    lemma AddrInjective(pl: int, x1: int, y1: int, x2: int, y2: int)
      requires ValidFrame(f) && |origin| == Planes(f) && InPlane(f, pl, x1, y1) && InPlane(f, pl, x2, y2)
      requires Addr(pl, x1, y1) == Addr(pl, x2, y2)
      ensures x1 == x2 && y1 == y2
    {
      StrideNotZero(pl);
      AtInjective(origin[pl], Stride(f, pl), X0(f, pl, f.bw), x1, y1, x2, y2);
    }

    /** The plane holds `stage` in the rows before `y` and up to pixel `x` of row `y`, from row `start`
        on, and what it held at `was` elsewhere. */
    ghost predicate StageWritten(d: seq<int>, was: seq<int>, pl: int, stage: Image, start: int, x: int, y: int)
      requires 0 <= pl < |origin|
    {
      |d| == |was| &&
      forall px, py :: InPlane(f, pl, px, py) ==>
        && 0 <= Addr(pl, px, py) < |d|
        && d[Addr(pl, px, py)] ==
           if start <= py && (py < y || (py == y && px < x)) then stage(pl, px, py) else was[Addr(pl, px, py)]
    }

    lemma StageStep(d: seq<int>, was: seq<int>, pl: int, stage: Image, start: int, x: int, y: int)
      requires ValidFrame(f) && |origin| == Planes(f) && InPlane(f, pl, x, y) && start <= y
      requires StageWritten(d, was, pl, stage, start, x, y)
      ensures 0 <= Addr(pl, x, y) < |d|
      ensures StageWritten(d[Addr(pl, x, y) := stage(pl, x, y)], was, pl, stage, start, x + 1, y)
    {
      forall px, py | InPlane(f, pl, px, py) && Addr(pl, px, py) == Addr(pl, x, y)
        ensures px == x && py == y
      {
        AddrInjective(pl, px, py, x, y);
      }
    }

    /** What deblocking may do to a plane: any change from row `start` on, none above. */
    method DeblockPlane(pl: int, stage: Image, start: int)
      requires ValidFrame(f) && PicValid() && 0 <= pl < Planes(f) && 0 <= start
      modifies pic[pl]
      ensures StageWritten(pic[pl][..], old(pic[pl][..]), pl, stage, start, 0, Y0(f, pl, f.bh))
    {
      ghost var was := pic[pl][..];
      StrideNotZero(pl);
      assert StageWritten(was, was, pl, stage, start, 0, start);
      var y := start;
      while y < Y0(f, pl, f.bh)
        invariant start <= y && StageWritten(pic[pl][..], was, pl, stage, start, 0, y)
      {
        for x := 0 to X0(f, pl, f.bw)
          invariant StageWritten(pic[pl][..], was, pl, stage, start, x, y)
        {
          StageStep(pic[pl][..], was, pl, stage, start, x, y);
          ghost var d := pic[pl][..];
          pic[pl][Addr(pl, x, y)] := stage(pl, x, y);
          assert pic[pl][..] == d[Addr(pl, x, y) := stage(pl, x, y)];
        }
        y := y + 1;
      }
    }

    /** Newly delivered rows hold the frozen picture, and nothing filtered has changed. */
    lemma DeliveredIs(d: seq<int>, was: seq<int>, pl: int, stage: Image, k1: int -> int, k2: int -> int, by4: int)
      requires |origin| == Planes(f) && 0 <= pl < Planes(f) && by4 < f.bh && Y0(f, pl, by4) <= k1(pl)
      requires StageWritten(d, was, pl, stage, k1(pl), 0, Y0(f, pl, f.bh)) && Holds(was, pl, k1, 0, by4)
      requires Delivers(f, stage, pre, k1, k2)
      ensures Holds(d, pl, k2, 0, by4)
    {
    }

    /** Deblocking one more superblock row, as CDEF sees it: rows from `k1` on become those of `stage`,
        of which the ones before `k2` are final. */
    method Deblock(stage: Image, k1: int -> int, ghost k2: int -> int, ghost by4: int)
      requires Valid() && Handover(k1, by4) && by4 < f.bh
      requires StartsIn(f, k1, by4)
      requires Delivers(f, stage, pre, k1, k2)
      modifies Buffers()
      ensures Handover(k2, by4)
    {
      for pl := 0 to Planes(f)
        invariant forall p :: 0 <= p < pl ==> PlaneIs(p, k2, 0, by4)
        invariant forall p :: pl <= p < Planes(f) ==> PlaneIs(p, k1, 0, by4)
      {
        DeblockOnePlane(pl, stage, k1, k2, by4);
      }
    }

    method DeblockOnePlane(pl: int, stage: Image, k1: int -> int, ghost k2: int -> int, ghost by4: int)
      requires ValidFrame(f) && PicValid() && 0 <= pl < Planes(f) && by4 < f.bh
      requires PlaneIs(pl, k1, 0, by4) && 0 <= k1(pl) && Y0(f, pl, by4) <= k1(pl)
      requires Delivers(f, stage, pre, k1, k2)
      modifies pic[pl]
      ensures PlaneIs(pl, k2, 0, by4)
    {
      ghost var was := pic[pl][..];
      HoldsIsPlaneIs(pl, k1, 0, by4);
      DeblockPlane(pl, stage, k1(pl));
      DeliveredIs(pic[pl][..], was, pl, stage, k1, k2, by4);
      HoldsIsPlaneIs(pl, k2, 0, by4);
    }

    /** Deblocking and filtering in turn, superblock row by superblock row. Whatever the rows not yet
        delivered hold in between, the picture ends up as if filtered from its deblocked copy. */
    method FilterWhileDeblocking(sb128: bool, stages: seq<Image>)
      requires Valid() && (toggle == 0 || toggle == 1)
      requires f.bh <= |stages| * SbStep(sb128) && Stages(f, sb128, stages, pre)
      modifies this`toggle, lineBuf, Buffers()
      ensures forall pl, x, y :: InPlane(f, pl, x, y) ==>
                In(pic[pl], Addr(pl, x, y)) && pic[pl][Addr(pl, x, y)] == Expected(f, pre, pl, x, y)
    {
      var sby := 0;
      ghost var at := 0;
      while sby * SbStep(sb128) < f.bh
        invariant 0 <= sby && Handover(Delivered(f, sby - 1, sb128), at)
        invariant at == if sby * SbStep(sb128) < f.bh then CdefStart(sby, sb128) else f.bh
        invariant at == f.bh ==> AllDelivered(f, Delivered(f, sby - 1, sb128))
        decreases f.bh - sby
      {
        StageInRange(f, sby, sb128, |stages|);
        DeblockAndFilterSbrow(sby, sb128, stages[sby]);
        at := CdefEnd(f, sby, sb128);
        NextSbrow(f, sby, sb128);
        sby := sby + 1;
      }
      WholeFrameIsPost(Delivered(f, sby - 1, sb128));
    }

    /** One superblock row: deblocked as far as it can be, then filtered as far as it is delivered. */
    method DeblockAndFilterSbrow(sby: int, sb128: bool, stage: Image)
      requires Valid() && 0 <= sby && sby * SbStep(sb128) < f.bh
      requires Delivers(f, stage, pre, Delivered(f, sby - 1, sb128), Delivered(f, sby, sb128))
      requires Handover(Delivered(f, sby - 1, sb128), CdefStart(sby, sb128))
      modifies this`toggle, lineBuf, Buffers()
      ensures Handover(Delivered(f, sby, sb128), CdefEnd(f, sby, sb128))
      ensures CdefEnd(f, sby, sb128) == f.bh ==> AllDelivered(f, Delivered(f, sby, sb128))
    {
      var k1, k2 := Delivered(f, sby - 1, sb128), Delivered(f, sby, sb128);
      StartIsDelivered(f, sby, sb128);
      Deblock(stage, k1, k2, CdefStart(sby, sb128));
      EndIsDelivered(sby, sb128);
      FilterSbrow(sby, sb128, k2);
    }

    lemma EndIsDelivered(sby: int, sb128: bool)
      requires sby >= 0
      ensures KnownTo(Delivered(f, sby, sb128), CdefEnd(f, sby, sb128))
      ensures CdefEnd(f, sby, sb128) == f.bh ==> AllDelivered(f, Delivered(f, sby, sb128))
    {
    }

    lemma WholeFrameIsPost(known: int -> int)
      requires Valid() && AllPlanes(known, 0, f.bh) && AllDelivered(f, known)
      ensures forall pl, x, y :: InPlane(f, pl, x, y) ==>
                In(pic[pl], Addr(pl, x, y)) && pic[pl][Addr(pl, x, y)] == Expected(f, pre, pl, x, y)
    {
      forall pl, x, y | InPlane(f, pl, x, y)
        ensures In(pic[pl], Addr(pl, x, y)) && pic[pl][Addr(pl, x, y)] == post(pl, x, y)
      {
        assert PlaneIs(pl, known, 0, f.bh) && Done(pl, x, y, 0, f.bh);
      }
    }
  }

  /** No strength at all. */
  predicate Quiet(s: Strength) {
    s.pri == 0 && s.sec == 0
  }

  predicate InCall(byStart: int, by4: int, byEnd: int) {
    byStart % 2 == 0 && byEnd % 2 == 0 && by4 % 2 == 0 && byStart <= by4 <= byEnd
  }

  /** The rows lie in one row of 128x128 areas. */
  predicate OneArea(byStart: int, byEnd: int) {
    (byEnd - 1) / 32 == byStart / 32
  }

  lemma CallStep(f: Frame, byStart: int, by4: int, byEnd: int)
    requires InCall(byStart, by4, byEnd) && by4 < byEnd <= f.bh && 0 <= byStart && f.bw > 0 && OneArea(byStart, byEnd)
    ensures InCall(byStart, by4 + 2, byEnd) && by4 + 2 <= byEnd && IsBlock(f, 0, by4)
    ensures MaskOffset(f, by4) == MaskOffset(f, byStart)
  {
    assert by4 / 32 == byStart / 32;
  }

  function SbStep(sb128: bool): int {
    if sb128 then 32 else 16
  }

  /** Block row the filter has reached when superblock row `sby` comes: two 4x4 rows above it. */
  function CdefStart(sby: int, sb128: bool): int {
    if sby == 0 then 0 else sby * SbStep(sb128) - 2
  }

  /** And where it stops: `sby + 1 < sbh` says that another superblock row follows. */
  function CdefEnd(f: Frame, sby: int, sb128: bool): int {
    var nBlks := SbStep(sb128) - if (sby + 1) * SbStep(sb128) < f.bh then 2 else 0;
    Min(sby * SbStep(sb128) + nBlks, f.bh)
  }

  /** The two calls for a superblock row follow each other, and each gets the filter records of its rows. */
  lemma SbrowRows(f: Frame, sby: int, sb128: bool, start: int, end: int)
    requires f.bh > 0 && f.bh % 2 == 0 && 0 <= sby && start == sby * SbStep(sb128) < f.bh && end == CdefEnd(f, sby, sb128)
    ensures 0 <= start < end <= f.bh && start % 2 == 0 && end % 2 == 0
    ensures OneArea(start, end) && start / 32 == Shr(sby, if sb128 then 0 else 1)
    ensures sby == 0 ==> start == 0
  {
    SbrowSpan(f, sby, sb128, start, end);
    if sb128 {
      Rows32(sby, start, end);
    } else {
      Rows16(sby, start, end);
    }
  }

  lemma SbrowSpan(f: Frame, sby: int, sb128: bool, start: int, end: int)
    requires f.bh > 0 && f.bh % 2 == 0 && 0 <= sby && start == sby * SbStep(sb128) < f.bh && end == CdefEnd(f, sby, sb128)
    ensures start < end <= f.bh && end <= start + SbStep(sb128)
    ensures start == if sb128 then 32 * sby else 16 * sby
    ensures start % 2 == 0 && end % 2 == 0
  {
    EvenEnd(f.bh, start, SbStep(sb128), if sb128 then 16 * sby else 8 * sby, end);
  }

  lemma EvenEnd(bh: int, start: int, step: int, half: int, end: int)
    requires bh % 2 == 0 && start == 2 * half < bh && (step == 16 || step == 32)
    requires end == Min(start + step, bh) || end == Min(start + step - 2, bh)
    ensures start % 2 == 0 && end % 2 == 0 && start < end <= bh
  {
  }

  lemma Rows32(sby: int, start: int, end: int)
    requires start == 32 * sby && start < end <= start + 32
    ensures OneArea(start, end) && start / 32 == sby
  {
    RowIs(start, sby);
    RowIs(end - 1, sby);
  }

  lemma Rows16(sby: int, start: int, end: int)
    requires start == 16 * sby && start < end <= start + 16
    ensures OneArea(start, end) && start / 32 == sby / 2
  {
    var k := sby / 2;
    assert sby == 2 * k || sby == 2 * k + 1;
    RowIs(start, k);
    RowIs(end - 1, k);
  }

  lemma RowIs(v: int, k: int)
    requires 32 * k <= v < 32 * k + 32
    ensures v / 32 == k
  {
  }

  lemma RecordsOfRow(f: Frame, by4: int, row: int, offset: int)
    requires by4 / 32 == row && offset == row * f.sb128w
    ensures offset == MaskOffset(f, by4)
  {
  }

  /** Where a superblock row's calls start and end. */
  lemma SbrowFrom(f: Frame, sby: int, sb128: bool, start: int, end: int, from: int)
    requires f.bh > 0 && f.bh % 2 == 0 && 0 <= sby && start == sby * SbStep(sb128) < f.bh && end == CdefEnd(f, sby, sb128)
    requires from == CdefStart(sby, sb128)
    ensures 0 <= start < end <= f.bh && start % 2 == 0 && end % 2 == 0 && OneArea(start, end)
    ensures sby == 0 ==> from == start
    ensures sby != 0 ==> from == start - 2 && 2 <= start && OneArea(start - 2, start)
  {
    SbrowRows(f, sby, sb128, start, end);
    if sby != 0 {
      RowsAbove(sby, sb128, start);
    }
  }

  lemma RowsAbove(sby: int, sb128: bool, start: int)
    requires 0 < sby && start == sby * SbStep(sb128)
    ensures 2 <= start && start % 2 == 0 && CdefStart(sby, sb128) == start - 2
    ensures OneArea(start - 2, start) && (start - 2) / 32 == Shr(sby - 1, if sb128 then 0 else 1)
  {
    if sb128 {
      assert start == 2 * (16 * sby);
      RowIs(start - 2, sby - 1);
      RowIs(start - 1, sby - 1);
    } else {
      var k := (sby - 1) / 2;
      assert start == 2 * (8 * sby) && (sby - 1 == 2 * k || sby - 1 == 2 * k + 1);
      RowIs(start - 2, k);
      RowIs(start - 1, k);
    }
  }

  /** The next superblock row starts where this one ended. */
  lemma NextSbrow(f: Frame, sby: int, sb128: bool)
    requires f.bh > 0 && 0 <= sby && sby * SbStep(sb128) < f.bh
    ensures CdefEnd(f, sby, sb128) == if (sby + 1) * SbStep(sb128) < f.bh then CdefStart(sby + 1, sb128) else f.bh
    ensures sby < f.bh
  {
    if sb128 {
      assert sby * SbStep(sb128) == 32 * sby;
    } else {
      assert sby * SbStep(sb128) == 16 * sby;
    }
  }

  /** The rows of each plane that no later deblocking changes once superblock row `sby` is deblocked:
      those CDEF is about to filter, and the two below them. */
  function Delivered(f: Frame, sby: int, sb128: bool): int -> int {
    pl => if sby < 0 then 0 else Min(Y0(f, pl, f.bh), Y0(f, pl, CdefEnd(f, sby, sb128)) + 2)
  }

  predicate AllDelivered(f: Frame, known: int -> int) {
    forall pl :: 0 <= pl < Planes(f) ==> known(pl) >= Y0(f, pl, f.bh)
  }

  /** Each stage of deblocking delivers its rows of the deblocked picture, and may hold anything below. */
  ghost predicate Stages(f: Frame, sb128: bool, stages: seq<Image>, pre: Image) {
    forall sby :: 0 <= sby < |stages| ==> Delivers(f, stages[sby], pre, Delivered(f, sby - 1, sb128), Delivered(f, sby, sb128))
  }

  ghost predicate Delivers(f: Frame, stage: Image, pre: Image, k1: int -> int, k2: int -> int) {
    forall pl, x, y :: InPlane(f, pl, x, y) && k1(pl) <= y < k2(pl) ==> stage(pl, x, y) == pre(pl, x, y)
  }

  lemma StageInRange(f: Frame, sby: int, sb128: bool, n: nat)
    requires sby * SbStep(sb128) < f.bh <= n * SbStep(sb128)
    ensures sby < n
  {
    MulInverse(sby, n, SbStep(sb128));
  }

  /** What is filtered was delivered before. */
  predicate StartsIn(f: Frame, known: int -> int, by4: int) {
    forall pl :: 0 <= pl < Planes(f) ==> 0 <= known(pl) && Y0(f, pl, by4) <= known(pl)
  }

  lemma StartIsDelivered(f: Frame, sby: int, sb128: bool)
    requires f.bh > 0 && 0 <= sby && sby * SbStep(sb128) < f.bh
    ensures CdefStart(sby, sb128) < f.bh && StartsIn(f, Delivered(f, sby - 1, sb128), CdefStart(sby, sb128))
  {
    var start, known := CdefStart(sby, sb128), Delivered(f, sby - 1, sb128);
    if sby > 0 {
      MulMonotone(sby - 1, sby, SbStep(sb128));
      NextSbrow(f, sby - 1, sb128);
      RowsAbove(sby, sb128, sby * SbStep(sb128));
      assert 0 <= start < f.bh && CdefEnd(f, sby - 1, sb128) == start;
    }
    forall pl | 0 <= pl < Planes(f)
      ensures 0 <= known(pl) && Y0(f, pl, start) <= known(pl)
    {
      if sby > 0 {
        RowIsAbove(f, pl, start);
        assert known(pl) == Min(Y0(f, pl, f.bh), Y0(f, pl, start) + 2);
      } else {
        assert known(pl) == 0;
      }
    }
  }

  lemma RowIsAbove(f: Frame, pl: int, by4: int)
    requires 0 <= by4 < f.bh
    ensures 0 <= Y0(f, pl, by4) <= Min(Y0(f, pl, f.bh), Y0(f, pl, by4) + 2)
  {
  }

  lemma EvenColumn(bx4: int)
    requires bx4 >= 0 && bx4 % 2 == 0
    ensures (bx4 + 1) / 32 == bx4 / 32 && (bx4 + 1) % 32 == bx4 % 32 + 1
  {
    var q, r := bx4 / 32, bx4 % 32;
    assert bx4 == 2 * (bx4 / 2) && r == 2 * (bx4 / 2 - 16 * q);
    DivUnique(bx4 + 1, 32, q, r + 1);
  }

  lemma NextInArea(sbx: int, bx4: int)
    requires bx4 % 2 == 0 && bx4 < 16 * sbx + 16
    ensures bx4 + 1 < 16 * sbx + 16
  {
    assert 16 * sbx + 16 == 2 * (8 * sbx + 8);
  }

  lemma AreaColumns(sbx: int, bx4: int)
    requires 16 * sbx <= bx4 < 16 * sbx + 16
    ensures 16 * sbx / 32 == bx4 / 32
  {
    assert sbx == 2 * (sbx / 2) || sbx == 2 * (sbx / 2) + 1;
    RowIs(16 * sbx, sbx / 2);
    RowIs(bx4, sbx / 2);
  }

  lemma ColumnInHalf(bx: int)
    ensures bx % 32 % 16 == bx % 16
  {
    var q, r := bx / 32, bx % 32;
    DivUnique(bx, 16, 2 * q + r / 16, r % 16);
  }

  lemma MaskBit(row: seq<seq<bool>>, i: int)
    requires |row| == 2 && |row[0]| == 16 && |row[1]| == 16 && 0 <= i < 32
    ensures (row[0] + row[1])[i] == row[i / 16][i % 16]
  {
  }

  lemma LevelIsStrong(level: int, depth: int)
    requires 0 < level < 64 && depth in {8, 10, 12}
    ensures PriOf(level, depth) > 0 || SecOf(level, depth) > 0
  {
  }

  lemma QuietPixel(f: Frame, pre: Image, pl: int, x: int, y: int, bx4: int, by4: int)
    requires ValidFrame(f) && 0 <= pl < Planes(f) && IsBlock(f, bx4, by4) && InBlockOf(f, pl, x, y, bx4, by4)
    requires BlockOn(f, bx4, by4) ==> Quiet(BlockStrength(f, pre, pl, bx4, by4))
    ensures InPlane(f, pl, x, y) && Expected(f, pre, pl, x, y) == pre(pl, x, y)
  {
    BlockInPlane(f, pl, x, y, bx4, by4);
    if BlockOn(f, bx4, by4) {
      var s := BlockStrength(f, pre, pl, bx4, by4);
      ExpectedOn(f, pre, pl, x, y, bx4, by4, s);
      QuietFrom(f, pre, pl, x, y, s);
    }
  }

  lemma QuietFrom(f: Frame, pre: Image, pl: int, x: int, y: int, s: Strength)
    requires InPlane(f, pl, x, y) && ValidStrength(s) && Quiet(s)
    ensures FilteredAt(f, pre, pl, x, y, s) == pre(pl, x, y)
  {
    QuietFilter(PlaneWindow(f, pre, pl), x, y, s, pre(pl, x, y));
  }

  lemma QuietFilter(win: Window, x: int, y: int, s: Strength, v: int)
    requires ValidStrength(s) && Quiet(s) && win(x, y) == Px(v)
    ensures Filtered(win, x, y, s) == v
  {
    CdefKernel.ZeroStrengthIsIdentity(win, x, y, s);
  }

  lemma MissingCell(win: Window, e: Edges, w: int, h: int, x: int, y: int, src: array<int>, off: int, stride: int,
                    left: Columns, top: array<int>, topOff: int, botOff: int)
    requires IsColumns(left) && -2 <= x && h <= 8 && Hidden(e, w, h, x, y) && win(x, y) == Missing
    ensures CellShows(win, e, w, h, x, y, src, off, stride, left, top, topOff, botOff)
  {
  }

  /** The buffer a cell is read from holds this value. */
  ghost predicate IsSource(src: array<int>, off: int, stride: int, left: Columns, top: array<int>, topOff: int, botOff: int,
                           h: int, x: int, y: int, v: int)
    requires IsColumns(left) && h <= 8 && x >= -2
    reads src, top
  {
    if y < 0 then In(top, At(topOff, stride, x, y + 2)) && top[At(topOff, stride, x, y + 2)] == v
    else if y >= h then In(src, At(botOff, stride, x, y - h)) && src[At(botOff, stride, x, y - h)] == v
    else if x < 0 then left[y][x + 2] == v
    else In(src, At(off, stride, x, y)) && src[At(off, stride, x, y)] == v
  }

  /** A cell shows the value its source holds. */
  lemma PixelCell(win: Window, e: Edges, w: int, h: int, x: int, y: int, src: array<int>, off: int, stride: int,
                  left: Columns, top: array<int>, topOff: int, botOff: int, v: int)
    requires IsColumns(left) && -2 <= x && h <= 8 && !Hidden(e, w, h, x, y) && win(x, y) == Px(v)
    requires IsSource(src, off, stride, left, top, topOff, botOff, h, x, y, v)
    ensures CellShows(win, e, w, h, x, y, src, off, stride, left, top, topOff, botOff)
  {
  }

  /** FilterBlock, with the filtered block as a function. */
  method FilterTo(dst: array<int>, off: int, stride: int, left: Columns, top: array<int>, topOff: int, botOff: int,
                  s: Strength, w: int, h: int, e: Edges, ghost win: Window, ghost out: (int, int) -> int)
    requires w in {4, 8} && h in {4, 8} && w <= Abs(stride) && dst != top && IsColumns(left)
    requires Shows(win, e, w, h, dst, off, stride, left, top, topOff, botOff)
    requires ValidStrength(s) && ValidPixels(win, s.depth) && (s.pri > 0 || s.sec > 0)
    requires Outputs(out, win, s, w, h)
    modifies dst
    ensures forall x, y :: InRect(x, y, 0, w, 0, h) ==>
              In(dst, At(off, stride, x, y)) && dst[At(off, stride, x, y)] == out(x, y)
    ensures forall i :: In(dst, i) && !InBlock(i, off, stride, w, h) ==> dst[i] == old(dst[i])
  {
    FilterBlock(dst, off, stride, left, top, topOff, botOff, s, w, h, e, win);
  }

  // ----- A picture -----

  /** The picture some buffers hold. */
  ghost function ImageOf(f: Frame, contents: seq<seq<int>>, origin: seq<int>): Image
    requires |contents| == Planes(f) && |origin| == Planes(f)
  {
    (pl, x, y) =>
      if InPlane(f, pl, x, y) && 0 <= At(origin[pl], Stride(f, pl), x, y) < |contents[pl]|
      then contents[pl][At(origin[pl], Stride(f, pl), x, y)] else 0
  }

  /** Buffers of their own for each plane, with at least the rows of the frame. */
  ghost predicate IsPicture(f: Frame, pic: seq<array<int>>, origin: seq<int>, rows: seq<int>) {
    && |pic| == Planes(f) && |origin| == Planes(f) && |rows| == Planes(f)
    && (forall pl :: 0 <= pl < Planes(f) ==> Y0(f, pl, f.bh) <= rows[pl])
    && (forall p, q :: 0 <= p < Planes(f) && 0 <= q < Planes(f) && p != q ==> pic[p] != pic[q])
    && (forall pl, x, y :: 0 <= pl < Planes(f) && 0 <= x < Abs(Stride(f, pl)) && 0 <= y < rows[pl] ==>
          In(pic[pl], At(origin[pl], Stride(f, pl), x, y)))
  }

  ghost function Contents(pic: seq<array<int>>): (r: seq<seq<int>>)
    reads pic
    ensures |r| == |pic| && forall pl :: 0 <= pl < |pic| ==> r[pl] == pic[pl][..]
  {
    seq(|pic|, pl requires 0 <= pl < |pic| reads pic => pic[pl][..])
  }

  /** A whole picture, deblocked and of legal pixels: in place, it becomes the one section 7.15 makes
      of its own copy. */
  method FilterPicture(f: Frame, pic: seq<array<int>>, origin: seq<int>, sbh: int, sb128: bool, ghost rows: seq<int>)
    requires ValidFrame(f) && IsPicture(f, pic, origin, rows) && sbh >= 1
    requires ValidImage(f, ImageOf(f, Contents(pic), origin))
    modifies set pl | 0 <= pl < |pic| :: pic[pl]
    ensures forall pl, x, y :: InPlane(f, pl, x, y) ==>
              In(pic[pl], At(origin[pl], Stride(f, pl), x, y))
              && pic[pl][At(origin[pl], Stride(f, pl), x, y)] ==
                 Expected(f, ImageOf(f, old(Contents(pic)), origin), pl, x, y)
  {
    ghost var pre := ImageOf(f, Contents(pic), origin);
    var task := new CdefTask(f, pic, origin, sbh, rows, pre, CdefOf(f, pre));
    ghost var known := (pl: int) => Y0(f, pl, f.bh);
    forall pl | 0 <= pl < Planes(f)
      ensures task.PlaneIs(pl, known, 0, 0)
    {
      PictureIsPre(task, pl, known);
    }
    task.FilterFrame(sb128, known);
  }

  /** At the start every pixel is unfiltered. */
  lemma PictureIsPre(task: CdefTask, pl: int, known: int -> int)
    requires task.PicValid() && 0 <= pl < Planes(task.f) && X0(task.f, pl, task.f.bw) <= Abs(Stride(task.f, pl))
    requires task.pre == ImageOf(task.f, Contents(task.pic), task.origin)
    ensures task.PlaneIs(pl, known, 0, 0)
  {
    forall x, y | InPlane(task.f, pl, x, y) && y < known(pl)
      ensures In(task.pic[pl], task.Addr(pl, x, y)) && task.pic[pl][task.Addr(pl, x, y)] == task.pre(pl, x, y)
    {
      assert In(task.pic[pl], task.Addr(pl, x, y));
    }
  }

  /** A picture that is being deblocked, of legal pixels once it is: in place, deblocking and filtering
      in turn, it becomes the one section 7.15 makes of the deblocked picture. Nothing is assumed about
      what the buffers hold before. */
  method DeblockAndFilter(f: Frame, pic: seq<array<int>>, origin: seq<int>, sbh: int, sb128: bool, stages: seq<Image>,
                          ghost rows: seq<int>, ghost pre: Image)
    requires ValidFrame(f) && IsPicture(f, pic, origin, rows) && sbh >= 1 && ValidImage(f, pre)
    requires f.bh <= |stages| * SbStep(sb128) && Stages(f, sb128, stages, pre)
    modifies set pl | 0 <= pl < |pic| :: pic[pl]
    ensures forall pl, x, y :: InPlane(f, pl, x, y) ==>
              In(pic[pl], At(origin[pl], Stride(f, pl), x, y))
              && pic[pl][At(origin[pl], Stride(f, pl), x, y)] == Expected(f, pre, pl, x, y)
    ensures forall pl, x, y :: InPlane(f, pl, x, y) ==>
              In(pic[pl], At(origin[pl], Stride(f, pl), x, y))
              && PixelIs(f, pre, pl, x, y, pic[pl][At(origin[pl], Stride(f, pl), x, y)])
  {
    var task := new CdefTask(f, pic, origin, sbh, rows, pre, CdefOf(f, pre));
    task.FilterWhileDeblocking(sb128, stages);
    FrameIsSmoothed(f, pre);
  }

  lemma FrameIsSmoothed(f: Frame, pre: Image)
    requires ValidFrame(f)
    ensures forall pl, x, y :: InPlane(f, pl, x, y) ==> PixelIs(f, pre, pl, x, y, Expected(f, pre, pl, x, y))
  {
    forall pl, x, y | InPlane(f, pl, x, y)
      ensures PixelIs(f, pre, pl, x, y, Expected(f, pre, pl, x, y))
    {
      ExpectedIsSmoothed(f, pre, pl, x, y);
    }
  }
}
