/**
 * The index forms of src/disjoint_mut.rs: what a borrow registers (`to_range(usize::MAX)`), what it
 * touches (`to_range(len)` and the range check of `get_mut`), and the typed borrows that scale an
 * index by the size of an element. None is a panic, arithmetic overflow included: the registry exists
 * in debug builds only.
 */
module DisjointIndex {
  import opened Bits

  const USIZE_MAX: int := 0xffff_ffff_ffff_ffff

  /** Allocations are smaller than this. */
  const ISIZE_MAX: int := 0x7fff_ffff_ffff_ffff

  datatype Option<T> = None | Some(value: T)

  /** `Range<usize>`. */
  datatype Span = Span(start: int, end: int)

  /** The types that implement SliceBounds. */
  datatype Slice =
    | Range(start: int, end: int)
    | RangeFrom(start: int)
    | RangeInclusive(start: int, last: int)
    | RangeTo(end: int)
    | RangeToInclusive(last: int)
    | RangeFull
    | StartLen(start: int, len: int)

  predicate IsUsize(v: int) {
    0 <= v <= USIZE_MAX
  }

  predicate ValidSlice(s: Slice) {
    match s
    case Range(a, b) => IsUsize(a) && IsUsize(b)
    case RangeFrom(a) => IsUsize(a)
    case RangeInclusive(a, b) => IsUsize(a) && IsUsize(b)
    case RangeTo(b) => IsUsize(b)
    case RangeToInclusive(b) => IsUsize(b)
    case RangeFull => true
    case StartLen(a, n) => IsUsize(a) && IsUsize(n)
  }

  function Checked(v: int): Option<int> {
    if IsUsize(v) then Some(v) else None
  }

  /** `SliceBounds::to_range`. */
  function ToRange(s: Slice, len: int): Option<Span> {
    match s
    case Range(a, b) => Some(Span(a, b))
    case RangeFrom(a) => Some(Span(a, len))
    case RangeInclusive(a, b) => if IsUsize(b + 1) then Some(Span(a, b + 1)) else None
    case RangeTo(b) => Some(Span(0, b))
    case RangeToInclusive(b) => if IsUsize(b + 1) then Some(Span(0, b + 1)) else None
    case RangeFull => Some(Span(0, len))
    case StartLen(a, n) => if IsUsize(a + n) then Some(Span(a, a + n)) else None
  }

  /** `TranslateRange::mul`, form by form: the inclusive ones scale their last index. */
  function Mul(s: Slice, size: int): Option<Slice> {
    var r := match s
      case Range(a, b) => Range(a * size, b * size)
      case RangeFrom(a) => RangeFrom(a * size)
      case RangeInclusive(a, b) => RangeInclusive(a * size, b * size)
      case RangeTo(b) => RangeTo(b * size)
      case RangeToInclusive(b) => RangeToInclusive(b * size)
      case RangeFull => RangeFull
      case StartLen(a, n) => StartLen(a * size, n * size);
    if ValidSlice(r) then Some(r) else None
  }

  /** `Bounds::from`. */
  function Bound(s: Slice): Option<Span> {
    ToRange(s, USIZE_MAX)
  }

  /** `DisjointMutIndex::get_mut`: the indices a borrow touches. */
  function GetMut(s: Slice, len: int): Option<Span> {
    match ToRange(s, len)
    case None => None
    case Some(r) => if r.start <= r.end <= len then Some(r) else None
  }

  predicate Has(r: Span, i: int) {
    r.start <= i < r.end
  }

  /** The indices each form means on a buffer of `len` elements. */
  predicate Touches(s: Slice, len: int, i: int) {
    match s
    case Range(a, b) => a <= i < b
    case RangeFrom(a) => a <= i < len
    case RangeInclusive(a, b) => a <= i <= b
    case RangeTo(b) => 0 <= i < b
    case RangeToInclusive(b) => 0 <= i <= b
    case RangeFull => 0 <= i < len
    case StartLen(a, n) => a <= i < a + n
  }

  /** When the buffer has all of them, and the range is not reversed. */
  predicate InBounds(s: Slice, len: int) {
    match s
    case Range(a, b) => a <= b <= len
    case RangeFrom(a) => a <= len
    case RangeInclusive(a, b) => a <= b + 1 <= len
    case RangeTo(b) => b <= len
    case RangeToInclusive(b) => b < len
    case RangeFull => true
    case StartLen(a, n) => a + n <= len
  }

  /** Where the range starts, and how many elements it has. */
  function First(s: Slice): int {
    match s
    case Range(a, _) => a
    case RangeFrom(a) => a
    case RangeInclusive(a, _) => a
    case StartLen(a, _) => a
    case _ => 0
  }

  function Count(s: Slice, len: int): int {
    match s
    case Range(a, b) => b - a
    case RangeFrom(a) => len - a
    case RangeInclusive(a, b) => b - a + 1
    case RangeTo(b) => b
    case RangeToInclusive(b) => b + 1
    case RangeFull => len
    case StartLen(_, n) => n
  }

  /** A borrow returns exactly when the buffer has the range, and then touches exactly its indices. */
  lemma TouchedIs(s: Slice, len: int)
    requires ValidSlice(s) && 0 <= len <= ISIZE_MAX
    ensures GetMut(s, len).Some? <==> InBounds(s, len)
    ensures GetMut(s, len).Some? ==>
              && (forall i :: Has(GetMut(s, len).value, i) <==> Touches(s, len, i))
              && GetMut(s, len).value == Span(First(s), First(s) + Count(s, len))
  {
  }

  /** A borrow registers the indices it means on the longest buffer there can be; it panics when the end
      is no usize. */
  lemma BoundIs(s: Slice)
    requires ValidSlice(s)
    ensures Bound(s).Some? <==> IsUsize(First(s) + Count(s, USIZE_MAX)) || s.Range?
    ensures Bound(s).Some? ==>
              Bound(s).value.start == First(s) && forall i :: Has(Bound(s).value, i) <==> Touches(s, USIZE_MAX, i)
  {
  }

  /** `Bounds::overlaps`. */
  predicate Overlaps(a: Span, b: Span) {
    a.start < b.end && b.start < a.end
  }

  predicate Share(a: Span, b: Span, i: int) {
    Has(a, i) && Has(b, i)
  }

  /** Ranges that share an index overlap; ranges that overlap share one, unless one of them is empty. */
  lemma OverlapsIffShared(a: Span, b: Span)
    ensures a.start < a.end && b.start < b.end ==> (Overlaps(a, b) <==> exists i :: Share(a, b, i))
    ensures (exists i :: Share(a, b, i)) ==> Overlaps(a, b)
  {
    if a.start < a.end && b.start < b.end && Overlaps(a, b) {
      var i := if a.start < b.start then b.start else a.start;
      assert Share(a, b, i);
    }
  }

  /** The check is stricter than sharing: an empty range strictly inside another one counts. */
  lemma EmptyInsideOverlaps(a: Span, at: int)
    requires a.start < at < a.end
    ensures Overlaps(a, Span(at, at)) && !exists i :: Share(a, Span(at, at), i)
  {
  }

  /** The range is empty and lies strictly inside the other. */
  predicate EmptyInside(a: Span, b: Span) {
    a.start == a.end && b.start < a.start < b.end
  }

  /** Overlapping is sharing an index, but for exactly one family of ranges: an empty one strictly
      inside another counts as overlapping it, and shares nothing. */
  lemma OverlapsIsSharingIff(a: Span, b: Span)
    requires a.start <= a.end && b.start <= b.end
    ensures (Overlaps(a, b) <==> exists i :: Share(a, b, i)) <==> !EmptyInside(a, b) && !EmptyInside(b, a)
  {
    OverlapsIffShared(a, b);
  }

  /** Every index a borrow touches is inside the range it registered. */
  lemma BoundCoversTouched(s: Slice, len: int)
    requires ValidSlice(s) && 0 <= len <= ISIZE_MAX && GetMut(s, len).Some?
    ensures Bound(s).Some?
    ensures forall i :: Has(GetMut(s, len).value, i) ==> Has(Bound(s).value, i)
  {
  }

  lemma TouchedIsInside(s: Slice, len: int)
    requires ValidSlice(s) && GetMut(s, len).Some? && len >= 0
    ensures 0 <= GetMut(s, len).value.start <= GetMut(s, len).value.end <= len
  {
  }

  /** Borrows the registry lets coexist touch no common index. */
  lemma DisjointBoundsAreSafe(s1: Slice, s2: Slice, len: int, i: int)
    requires ValidSlice(s1) && ValidSlice(s2) && 0 <= len <= ISIZE_MAX
    requires GetMut(s1, len).Some? && GetMut(s2, len).Some?
    requires Bound(s1).Some? && Bound(s2).Some? ==> !Overlaps(Bound(s1).value, Bound(s2).value)
    ensures !Share(GetMut(s1, len).value, GetMut(s2, len).value, i)
  {
    BoundCoversTouched(s1, len);
    BoundCoversTouched(s2, len);
  }

  // ----- Typed borrows -----

  datatype TypedBorrow = TypedBorrow(bytes: Span, count: int)

  /** `mut_slice_as` and `slice_as` on a buffer of `len` bytes: scale the index, borrow the bytes,
      cast them, and check the length. A cast fails when the bytes are no whole number of elements. */
  function SliceAs(s: Slice, size: int, len: int): Option<TypedBorrow>
    requires size > 0
  {
    match Mul(s, size)
    case None => None
    case Some(t) =>
      match GetMut(t, len)
      case None => None
      case Some(bytes) =>
        if (bytes.end - bytes.start) % size != 0 then None else
        var count := (bytes.end - bytes.start) / size;
        match ToRange(s, len / size)
        case None => None
        case Some(r) => if r.start <= r.end && count == r.end - r.start then Some(TypedBorrow(bytes, count)) else None
  }

  /** The elements asked for, when the buffer has them. */
  function Elements(s: Slice, size: int, len: int): Option<Span>
    requires size > 0
  {
    GetMut(s, len / size)
  }

  predicate IsInclusive(s: Slice) {
    s.RangeInclusive? || s.RangeToInclusive?
  }

  predicate IsOpen(s: Slice) {
    s.RangeFrom? || s.RangeFull?
  }

  lemma BoundedByWhole(y: int, size: int, len: int)
    requires size > 0 && y * size <= len
    ensures y <= len / size
  {
    var q := len / size;
    assert (q + 1) * size == q * size + size;
    MulInverse(y, q + 1, size);
  }

  lemma OpenIsWhole(x: int, size: int, len: int)
    requires size > 0 && x * size <= len && (len - x * size) % size == 0
    ensures len / size * size == len && x <= len / size && (len - x * size) / size == len / size - x
  {
    var n := (len - x * size) / size;
    assert len == (n + x) * size + 0 by {
      assert (n + x) * size == n * size + x * size;
    }
    DivUnique(len, size, n + x, 0);
    BoundedByWhole(x, size, len);
  }

  /** The bytes of elements `x` to `y`. */
  lemma ScaledSpan(x: int, y: int, size: int, len: int)
    requires size > 0 && x * size <= y * size <= len
    ensures x <= y <= len / size
    ensures (y * size - x * size) % size == 0 && (y * size - x * size) / size == y - x
  {
    MulInverse(x, y + 1, size);
    BoundedByWhole(y, size, len);
    assert (y - x) * size == y * size - x * size;
    DivUnique(y * size - x * size, size, y - x, 0);
  }

  /** Scaling the last index instead of the end makes one byte more than a whole number of elements. */
  lemma InclusiveIsNotWhole(x: int, last: int, size: int)
    requires size > 1
    ensures (last * size + 1 - x * size) % size == 1
  {
    assert (last - x) * size == last * size - x * size;
    DivUnique(last * size + 1 - x * size, size, last - x, 1);
  }

  /** Scaling an index and then resolving it is resolving it and then scaling, but for the inclusive forms. */
  lemma ScalingCommutes(s: Slice, size: int, len: int)
    requires ValidSlice(s) && size > 0 && !IsInclusive(s) && Mul(s, size).Some?
    requires IsOpen(s) ==> len == len / size * size
    requires ToRange(Mul(s, size).value, len).Some?
    ensures ToRange(s, len / size).Some?
    ensures var r := ToRange(s, len / size).value; ToRange(Mul(s, size).value, len).value == Span(r.start * size, r.end * size)
  {
    if s.StartLen? {
      assert (s.start + s.len) * size == s.start * size + s.len * size;
      ScalingKeepsOrder(s.start + s.len, 0, size);
      AtLeastOnce(s.start + s.len, size);
    }
  }

  lemma AtLeastOnce(v: int, size: int)
    requires size > 0 && v >= 0
    ensures v <= v * size
  {
    MulMonotone(0, v, size - 1);
    assert v * size == v + v * (size - 1);
  }

  /** An open index that resolves to whole elements needs a buffer of whole elements. */
  lemma OpenNeedsWhole(s: Slice, size: int, len: int)
    requires ValidSlice(s) && size > 0 && IsOpen(s) && SliceAs(s, size, len).Some?
    ensures len == len / size * size
  {
    OpenIsWhole(if s.RangeFrom? then s.start else 0, size, len);
  }

  lemma InclusiveNeedsBytes(s: Slice, size: int, len: int)
    requires ValidSlice(s) && size > 0 && IsInclusive(s) && SliceAs(s, size, len).Some?
    ensures size == 1
  {
    if size > 1 {
      InclusiveIsNotWhole(if s.RangeInclusive? then s.start else 0, s.last, size);
    }
  }

  /** A typed borrow that returns touches exactly the bytes of the elements asked for, and has as many
      elements. */
  lemma SliceAsIsExact(s: Slice, size: int, len: int)
    requires ValidSlice(s) && size > 0 && 0 <= len <= ISIZE_MAX && SliceAs(s, size, len).Some?
    ensures size == 1 || !IsInclusive(s)
    ensures Elements(s, size, len).Some?
    ensures var b, r := SliceAs(s, size, len).value, Elements(s, size, len).value;
            b.count == r.end - r.start && b.bytes == Span(r.start * size, r.end * size)
  {
    if IsInclusive(s) {
      InclusiveNeedsBytes(s, size, len);
      InclusiveBytes(s, len);
    } else {
      if IsOpen(s) {
        OpenNeedsWhole(s, size, len);
      }
      ScalingCommutes(s, size, len);
      var r := ToRange(s, len / size).value;
      ScaledSpan(r.start, r.end, size, len);
    }
  }

  /** On bytes nothing is scaled. */
  lemma InclusiveBytes(s: Slice, len: int)
    requires ValidSlice(s)
    ensures Mul(s, 1) == Some(s) && Elements(s, 1, len) == GetMut(s, len)
  {
  }

  /** The forms whose scaled index means the same elements. */
  predicate Scales(s: Slice, size: int, len: int)
    requires size > 0
  {
    size == 1 || if IsInclusive(s) then false else IsOpen(s) ==> len % size == 0
  }

  /** A typed borrow of elements the buffer has returns exactly when the form scales: an inclusive
      range never does for elements of more than a byte, and an open one needs a buffer of whole
      elements. */
  lemma SliceAsSucceeds(s: Slice, size: int, len: int)
    requires ValidSlice(s) && size > 0 && 0 <= len <= ISIZE_MAX && Elements(s, size, len).Some?
    ensures SliceAs(s, size, len).Some? <==> Scales(s, size, len)
  {
    if SliceAs(s, size, len).Some? {
      SliceAsIsExact(s, size, len);
      if IsOpen(s) {
        OpenIsWhole(if s.RangeFrom? then s.start else 0, size, len);
        DivUnique(len, size, len / size, 0);
      }
    }
    if Scales(s, size, len) {
      ScalesReturns(s, size, len);
    }
  }

  lemma Fits(y: int, size: int, len: int)
    requires size > 0 && 0 <= y <= len / size
    ensures 0 <= y * size <= len
  {
    MulMonotone(y, len / size, size);
    MulMonotone(0, y, size);
  }

  lemma ScalesReturns(s: Slice, size: int, len: int)
    requires ValidSlice(s) && size > 0 && 0 <= len <= ISIZE_MAX && Elements(s, size, len).Some?
    requires Scales(s, size, len)
    ensures SliceAs(s, size, len).Some?
  {
    if IsInclusive(s) {
      InclusiveBytes(s, len);
    } else {
      var r := Elements(s, size, len).value;
      Fits(r.start, size, len);
      Fits(r.end, size, len);
      MulMonotone(r.start, r.end, size);
      MulFits(s, size, len, r);
      if IsOpen(s) {
        WholeBuffer(size, len);
      }
      ScalingCommutes(s, size, len);
      ScaledSpan(r.start, r.end, size, len);
      Returns(s, size, len, Mul(s, size).value, Span(r.start * size, r.end * size), r);
    }
  }

  lemma Returns(s: Slice, size: int, len: int, t: Slice, bytes: Span, r: Span)
    requires size > 0 && Mul(s, size) == Some(t) && GetMut(t, len) == Some(bytes) && ToRange(s, len / size) == Some(r)
    requires (bytes.end - bytes.start) % size == 0 && (bytes.end - bytes.start) / size == r.end - r.start && r.start <= r.end
    ensures SliceAs(s, size, len) == Some(TypedBorrow(bytes, r.end - r.start))
  {
  }

  lemma WholeBuffer(size: int, len: int)
    requires size > 0 && (size == 1 || len % size == 0)
    ensures len == len / size * size
  {
  }

  lemma MulFits(s: Slice, size: int, len: int, r: Span)
    requires ValidSlice(s) && size > 0 && 0 <= len <= ISIZE_MAX && !IsInclusive(s)
    requires Elements(s, size, len) == Some(r) && 0 <= r.start * size <= r.end * size <= len
    ensures Mul(s, size).Some? && ToRange(Mul(s, size).value, len).Some?
  {
    if s.StartLen? {
      assert (s.start + s.len) * size == s.start * size + s.len * size;
      MulMonotone(0, s.len, size);
    }
  }

  /** A typed borrow returns exactly when the buffer has the elements and the form scales; it has their
      number, and touches the bytes from the first one's on. */
  lemma TypedTouches(s: Slice, size: int, len: int)
    requires ValidSlice(s) && size > 0 && 0 <= len <= ISIZE_MAX
    ensures SliceAs(s, size, len).Some? <==> InBounds(s, len / size) && Scales(s, size, len)
    ensures SliceAs(s, size, len).Some? ==>
              var b := SliceAs(s, size, len).value;
              b.count == Count(s, len / size) && b.bytes == Span(First(s) * size, (First(s) + b.count) * size)
  {
    WholeIsLess(len, size);
    TouchedIs(s, len / size);
    if SliceAs(s, size, len).Some? {
      SliceAsIsExact(s, size, len);
    }
    if InBounds(s, len / size) {
      SliceAsSucceeds(s, size, len);
    }
  }

  lemma WholeIsLess(len: int, size: int)
    requires size > 0 && len >= 0
    ensures 0 <= len / size <= len
  {
    AtLeastOnce(len / size, size);
  }

  /** The most common form: `n` elements from `a` on, exactly when the buffer has that many bytes. */
  lemma StartLenTouches(a: int, n: int, size: int, len: int)
    requires IsUsize(a) && IsUsize(n) && size > 0 && 0 <= len <= ISIZE_MAX
    ensures SliceAs(StartLen(a, n), size, len) ==
            if (a + n) * size <= len then Some(TypedBorrow(Span(a * size, (a + n) * size), n)) else None
  {
    TypedTouches(StartLen(a, n), size, len);
    if (a + n) * size <= len {
      BoundedByWhole(a + n, size, len);
    } else if a + n <= len / size {
      Fits(a + n, size, len);
    }
  }

  /** Scaling maps disjoint element ranges to disjoint byte ranges, and overlapping ones to overlapping. */
  lemma ScalingKeepsOverlap(a: Span, b: Span, size: int)
    requires size > 0
    ensures Overlaps(Span(a.start * size, a.end * size), Span(b.start * size, b.end * size)) <==> Overlaps(a, b)
  {
    ScalingKeepsOrder(a.start, b.end, size);
    ScalingKeepsOrder(b.start, a.end, size);
  }

  lemma ScalingKeepsOrder(x: int, y: int, size: int)
    requires size > 0
    ensures x * size < y * size <==> x < y
  {
    if x < y {
      MulMonotone(x + 1, y, size);
      assert (x + 1) * size == x * size + size;
    } else {
      MulMonotone(y, x, size);
    }
  }
}
