/**
 * The CDEF kernel of src/cdef.rs: the padded 12x12 scratch block with its sentinel value, the
 * three filter paths, and the proof that they compute the filter of section 7.15.3.
 */
module CdefKernel {
  import opened Bits
  import opened CdefSpec

  const TMP_STRIDE := 12
  const TMP_LEN := 144
  const SENTINEL := -0x8000

  /** DAV1D_CDEF_DIRECTIONS: offsets into the scratch block, directions 6, 7, 0 .. 7, 0, 1. */
  const DIRECTIONS: seq<seq<int>> := [
    [1 * 12 + 0, 2 * 12 + 0],
    [1 * 12 + 0, 2 * 12 - 1],
    [-1 * 12 + 1, -2 * 12 + 2],
    [0 * 12 + 1, -1 * 12 + 2],
    [0 * 12 + 1, 0 * 12 + 2],
    [0 * 12 + 1, 1 * 12 + 2],
    [1 * 12 + 1, 2 * 12 + 2],
    [1 * 12 + 0, 2 * 12 + 1],
    [1 * 12 + 0, 2 * 12 + 0],
    [1 * 12 + 0, 2 * 12 - 1],
    [-1 * 12 + 1, -2 * 12 + 2],
    [0 * 12 + 1, -1 * 12 + 2]
  ]

  function Encode(s: Sample): int {
    if s.Missing? then SENTINEL else s.v
  }

  function Cell(x: int, y: int): int {
    (y + 2) * TMP_STRIDE + x + 2
  }

  /** The scratch block holds the window of a w x h block, two pixels around it included. */
  ghost predicate Encodes(tmp: seq<int>, win: Window, w: int, h: int) {
    && |tmp| == TMP_LEN
    && forall x, y :: -2 <= x < w + 2 && -2 <= y < h + 2 ==>
         0 <= Cell(x, y) < TMP_LEN && tmp[Cell(x, y)] == Encode(win(x, y))
  }

  /** The offset table is the direction table of the specification. */
  lemma DirectionTable(dir: int, k: int)
    requires -2 <= dir < 10 && 0 <= k < 2
    ensures DIRECTIONS[dir + 2][k] == Direction(dir, k).0 * TMP_STRIDE + Direction(dir, k).1
  {
    var d := dir % 8;
    assert dir == d || dir == d - 8 || dir == d + 8;
  }

  lemma DirectionShort(dir: int, k: int)
    requires 0 <= k < 2
    ensures var d := Direction(dir, k); -2 <= d.0 <= 2 && -2 <= d.1 <= 2
  {
  }

  /** A cell two or fewer pixels away holds that pixel of the window. */
  lemma OffsetCell(tmp: seq<int>, win: Window, w: int, h: int, x: int, y: int, dx: int, dy: int)
    requires Encodes(tmp, win, w, h) && 0 <= x < w <= 8 && 0 <= y < h <= 8
    requires -2 <= dx <= 2 && -2 <= dy <= 2
    ensures 0 <= Cell(x, y) + (dy * 12 + dx) < TMP_LEN
    ensures tmp[Cell(x, y) + (dy * 12 + dx)] == Encode(win(x + dx, y + dy))
  {
    assert Cell(x, y) + (dy * 12 + dx) == Cell(x + dx, y + dy);
  }

  /** The three table entries a step uses: `dir + 2`, `dir + 4` and `dir + 0`. */
  datatype Offsets = Offsets(pri: int, ccw: int, cw: int)

  function OffsetsAt(dir: int, k: int): Offsets
    requires 0 <= dir < 8 && 0 <= k < 2
  {
    Offsets(DIRECTIONS[dir + 2][k], DIRECTIONS[dir + 4][k], DIRECTIONS[dir + 0][k])
  }

  /** The cells a step reads around cell `i` hold these taps. */
  ghost predicate Reads(tmp: seq<int>, i: int, o: Offsets, t: Taps) {
    && Pair(tmp, i, o.pri, t.p0, t.p1)
    && Pair(tmp, i, o.ccw, t.s0, t.s1)
    && Pair(tmp, i, o.cw, t.s2, t.s3)
  }

  ghost predicate Pair(tmp: seq<int>, i: int, off: int, a: Sample, b: Sample) {
    && 0 <= i + off < |tmp| && 0 <= i - off < |tmp|
    && tmp[i + off] == Encode(a) && tmp[i - off] == Encode(b)
  }

  /** The step `k` of pixel (x, y) reads exactly the six taps of the specification. */
  lemma ReadsTaps(tmp: seq<int>, win: Window, w: int, h: int, x: int, y: int, dir: int, k: int)
    requires Encodes(tmp, win, w, h) && 0 <= x < w <= 8 && 0 <= y < h <= 8
    requires 0 <= dir < 8 && 0 <= k < 2
    ensures Reads(tmp, Cell(x, y), OffsetsAt(dir, k), TapsAt(win, x, y, dir, k))
  {
    ReadsPair(tmp, win, w, h, x, y, dir, k);
    ReadsPair(tmp, win, w, h, x, y, dir + 2, k);
    ReadsPair(tmp, win, w, h, x, y, dir - 2, k);
  }

  lemma ReadsPair(tmp: seq<int>, win: Window, w: int, h: int, x: int, y: int, dir: int, k: int)
    requires Encodes(tmp, win, w, h) && 0 <= x < w <= 8 && 0 <= y < h <= 8
    requires -2 <= dir < 10 && 0 <= k < 2
    ensures Pair(tmp, Cell(x, y), DIRECTIONS[dir + 2][k],
                 Look(win, x, y, Direction(dir, k), 1), Look(win, x, y, Direction(dir, k), -1))
  {
    DirectionTable(dir, k);
    DirectionShort(dir, k);
    PairCells(tmp, win, w, h, x, y, Direction(dir, k), DIRECTIONS[dir + 2][k]);
  }

  lemma PairCells(tmp: seq<int>, win: Window, w: int, h: int, x: int, y: int, d: (int, int), off: int)
    requires Encodes(tmp, win, w, h) && 0 <= x < w <= 8 && 0 <= y < h <= 8
    requires -2 <= d.0 <= 2 && -2 <= d.1 <= 2 && off == d.0 * 12 + d.1
    ensures Pair(tmp, Cell(x, y), off, Look(win, x, y, d, 1), Look(win, x, y, d, -1))
  {
    OffsetCell(tmp, win, w, h, x, y, d.1, d.0);
    OffsetCell(tmp, win, w, h, x, y, -d.1, -d.0);
  }

  function Constrain(diff: int, threshold: int, shift: nat): int {
    var adiff := Abs(diff);
    ApplySign(Min(adiff, Max(0, threshold - Shr(adiff, shift))), diff)
  }

  /** A tap never pulls further than its own difference, and never the other way. */
  lemma ConstrainedBetween(diff: int, threshold: int, damping: int)
    requires threshold >= 0
    ensures Min(0, diff) <= Constrained(diff, threshold, damping) <= Max(0, diff)
  {
  }

  lemma DoubleProduct(a: int, b: int, bound: int)
    requires b * a <= bound
    ensures 2 * a * b <= 2 * bound
  {
  }

  lemma ReachBound(log: nat, damping: int)
    requires log < damping <= 14
    ensures 2 * Pow2(log) * Pow2(damping - log) <= 0x8000
  {
    Pow2Add(damping - log, log);
    Pow2Monotone(damping, 14);
    assert Pow2(14) == 0x4000;
    DoubleProduct(Pow2(log), Pow2(damping - log), Pow2(14));
  }

  /** A sentinel cell is further than any strength reaches, for every damping up to 14. */
  lemma SentinelIsInert(px: int, threshold: int, damping: int)
    requires 0 <= px && 0 < threshold <= 0x8000 && damping <= 14
    ensures Constrain(SENTINEL - px, threshold, Max(0, damping - FloorLog2(threshold))) == 0
  {
    var log := FloorLog2(threshold);
    var adiff := Abs(SENTINEL - px);
    if log < damping {
      ReachBound(log, damping);
      ShrAtLeast(adiff, damping - log, 2 * Pow2(log));
    } else {
      assert Shr(adiff, 0) == adiff;
    }
  }

  /** One tap of the code is one tap of the specification, sentinel or not. */
  lemma TapTerm(s: Sample, px: int, threshold: int, damping: int)
    requires 0 <= px && 0 < threshold <= 0x8000 && damping <= 14
    requires s.Px? ==> 0 <= s.v
    ensures Constrain(Encode(s) - px, threshold, Max(0, damping - FloorLog2(threshold)))
         == Term(s, px, threshold, damping)
  {
    if s.Missing? {
      SentinelIsInert(px, threshold, damping);
    }
  }

  // ----- The clip that two of the three paths leave out -----

  predicate Within(s: Sample, lo: int, hi: int) {
    s.Px? ==> lo <= s.v <= hi
  }

  predicate TapsWithin(t: Taps, lo: int, hi: int) {
    && Within(t.p0, lo, hi) && Within(t.p1, lo, hi) && Within(t.s0, lo, hi)
    && Within(t.s1, lo, hi) && Within(t.s2, lo, hi) && Within(t.s3, lo, hi)
  }

  /** Low and High are the hull of the accumulator and the available taps. */
  lemma Hull(t: Taps, lo: int, hi: int)
    ensures Low(t, lo) <= lo && hi <= High(t, hi)
    ensures TapsWithin(t, Low(t, lo), High(t, hi))
  {
  }

  lemma TermWithin(s: Sample, px: int, threshold: int, damping: int, lo: int, hi: int)
    requires threshold >= 0 && lo <= px <= hi && Within(s, lo, hi)
    ensures lo - px <= Term(s, px, threshold, damping) <= hi - px
    ensures threshold == 0 ==> Term(s, px, threshold, damping) == 0
  {
    if s.Px? {
      ConstrainedBetween(s.v - px, threshold, damping);
    }
  }

  lemma PullWithin(t: Taps, px: int, s: Strength, lo: int, hi: int)
    requires ValidStrength(s) && lo <= px <= hi && TapsWithin(t, lo, hi)
    ensures 2 * (lo - px) <= PriPull(t, px, s) <= 2 * (hi - px)
    ensures 4 * (lo - px) <= SecPull(t, px, s) <= 4 * (hi - px)
    ensures s.pri == 0 ==> PriPull(t, px, s) == 0
    ensures s.sec == 0 ==> SecPull(t, px, s) == 0
  {
    TermWithin(t.p0, px, s.pri, s.damping, lo, hi);
    TermWithin(t.p1, px, s.pri, s.damping, lo, hi);
    TermWithin(t.s0, px, s.sec, s.damping, lo, hi);
    TermWithin(t.s1, px, s.sec, s.damping, lo, hi);
    TermWithin(t.s2, px, s.sec, s.damping, lo, hi);
    TermWithin(t.s3, px, s.sec, s.damping, lo, hi);
  }

  /** A total tap weight of 12/16 cannot leave the hull. */
  lemma RoundedWithin(px: int, sum: int, lo: int, hi: int)
    requires lo <= px <= hi
    requires 12 * (lo - px) <= sum <= 12 * (hi - px)
    ensures lo <= Rounded(px, sum) <= hi
  {
  }

  /** With one strength zero, the sum already stays in the hull of the pixel and its taps: the
      clip of section 7.15.3 changes nothing. */
  lemma ClipIsNoOp(t0: Taps, t1: Taps, px: int, s: Strength)
    requires ValidStrength(s)
    requires s.pri == 0 || s.sec == 0
    ensures Combine(t0, t1, px, s) == Rounded(px, Sum(t0, t1, px, s))
  {
    var lo, hi := Low(t1, Low(t0, px)), High(t1, High(t0, px));
    HullOfBoth(t0, t1, px);
    PullWithin(t0, px, s, lo, hi);
    PullWithin(t1, px, s, lo, hi);
    RoundedWithin(px, Sum(t0, t1, px, s), lo, hi);
  }

  lemma HullOfBoth(t0: Taps, t1: Taps, px: int)
    ensures var lo, hi := Low(t1, Low(t0, px)), High(t1, High(t0, px));
            lo <= px <= hi && TapsWithin(t0, lo, hi) && TapsWithin(t1, lo, hi)
  {
    Hull(t0, px, px);
    Hull(t1, Low(t0, px), High(t0, px));
  }

  /** Filtering with both strengths zero is the identity: skipping such a block loses nothing. */
  lemma ZeroStrengthIsIdentity(win: Window, x: int, y: int, s: Strength)
    requires ValidStrength(s) && win(x, y).Px?
    requires s.pri == 0 && s.sec == 0
    ensures Filtered(win, x, y, s) == win(x, y).v
  {
    var px := win(x, y).v;
    var t0, t1 := TapsAt(win, x, y, s.dir, 0), TapsAt(win, x, y, s.dir, 1);
    ClipIsNoOp(t0, t1, px, s);
    HullOfBoth(t0, t1, px);
    PullWithin(t0, px, s, Low(t1, Low(t0, px)), High(t1, High(t0, px)));
    PullWithin(t1, px, s, Low(t1, Low(t0, px)), High(t1, High(t0, px)));
  }

  /** A filtered pixel is a pixel again: between 0 and bitdepth_max, whatever is missing. */
  lemma CombineInRange(t0: Taps, t1: Taps, px: int, s: Strength, top: int)
    requires ValidStrength(s) && 0 <= px <= top && TapsWithin(t0, 0, top) && TapsWithin(t1, 0, top)
    ensures 0 <= Combine(t0, t1, px, s) <= top
  {
    HullOfBoth(t0, t1, px);
    HullInRange(t0, px, px, top);
    HullInRange(t1, Low(t0, px), High(t0, px), top);
  }

  lemma HullInRange(t: Taps, lo: int, hi: int, top: int)
    requires 0 <= lo <= hi <= top && TapsWithin(t, 0, top)
    ensures 0 <= Low(t, lo) && High(t, hi) <= top
  {
  }

  // ----- The kernel -----

  function AsU32(v: int): int {
    if v < 0 then v + 0x1_0000_0000 else v
  }

  function AsI32(v: int): int {
    if v >= 0x8000_0000 then v - 0x1_0000_0000 else v
  }

  /** `cmp::min(a as c_uint, b as c_uint) as c_int`. */
  function UMin(a: int, b: int): int {
    AsI32(Min(AsU32(a), AsU32(b)))
  }

  /** `pri_tap_k & 3 | 2`. */
  function NextPriTap(tap: int): int {
    var low := tap % 4;
    if (low / 2) % 2 == 0 then low + 2 else low
  }

  /** `as_::<BD::Pixel>()`: the truncating cast to the 8 or 16 bit pixel type. */
  function AsPixel(depth: int, v: int): int {
    if depth == 8 then v % 0x100 else v % 0x1_0000
  }

  /** The sentinel never becomes the unsigned minimum nor the signed maximum. */
  lemma SentinelIsNoExtreme(s: Sample, acc: int)
    requires 0 <= acc < 0x8000 && Within(s, 0, 0x7fff)
    ensures UMin(Encode(s), acc) == Lower(acc, s)
    ensures Max(Encode(s), acc) == Upper(acc, s)
  {
  }

  /** The two cells at one table offset: their weighted pull and the running extremes. */
  method Tap(tmp: seq<int>, i: int, off: int, px: int, tap: int, strength: int, shift: nat, min: int, max: int,
             ghost damping: int, ghost a: Sample, ghost b: Sample)
    returns (sum: int, min': int, max': int)
    requires 1 <= tap <= 4 && Pair(tmp, i, off, a, b) && Within(a, 0, 0x7fff) && Within(b, 0, 0x7fff)
    requires 0 <= px && 0 <= min < 0x8000 && 0 <= max < 0x8000
    requires 0 < strength <= 240 && damping <= 14 && shift == Max(0, damping - FloorLog2(strength))
    ensures sum == Weigh(tap, Term(a, px, strength, damping) + Term(b, px, strength, damping))
    ensures min' == Lower(Lower(min, a), b) && max' == Upper(Upper(max, a), b)
    ensures 0 <= min' < 0x8000 && 0 <= max' < 0x8000
  {
    var p0 := tmp[i + off];
    var p1 := tmp[i - off];
    TapTerm(a, px, strength, damping);
    TapTerm(b, px, strength, damping);
    var c0, c1 := Constrain(p0 - px, strength, shift), Constrain(p1 - px, strength, shift);
    sum := Weigh(tap, c0) + Weigh(tap, c1);
    min', max' := Extremes(p0, min, max, a);
    min', max' := Extremes(p1, min', max', b);
  }

  method Extremes(p: int, min: int, max: int, ghost s: Sample) returns (min': int, max': int)
    requires p == Encode(s) && Within(s, 0, 0x7fff) && 0 <= min < 0x8000 && 0 <= max < 0x8000
    ensures min' == Lower(min, s) && max' == Upper(max, s)
    ensures 0 <= min' < 0x8000 && 0 <= max' < 0x8000
  {
    SentinelIsNoExtreme(s, min);
    SentinelIsNoExtreme(s, max);
    min' := UMin(p, min);
    max' := Max(p, max);
  }

  /** What one pixel reads: its own value and the taps of both steps. */
  ghost predicate Scene(tmp: seq<int>, i: int, o: seq<Offsets>, t: seq<Taps>, px: int, s: Strength) {
    && |o| == 2 && |t| == 2
    && (forall k :: 0 <= k < 2 ==> Reads(tmp, i, o[k], t[k]) && TapsWithin(t[k], 0, 0x7fff))
    && 0 <= px < 0x8000 && ValidStrength(s)
  }

  /** The sum after the first `k` steps, and the hull so far. */
  ghost function SumBefore(t: seq<Taps>, px: int, s: Strength, k: int): int
    requires |t| == 2 && 0 <= k <= 2 && ValidStrength(s)
  {
    if k == 0 then 0 else
    SumBefore(t, px, s, k - 1)
    + Weigh(PriTap(s, k - 1), PriPull(t[k - 1], px, s)) + Weigh(SecTap(k - 1), SecPull(t[k - 1], px, s))
  }

  ghost function LowBefore(t: seq<Taps>, px: int, k: int): int
    requires |t| == 2 && 0 <= k <= 2
  {
    if k == 0 then px else Low(t[k - 1], LowBefore(t, px, k - 1))
  }

  ghost function HighBefore(t: seq<Taps>, px: int, k: int): int
    requires |t| == 2 && 0 <= k <= 2
  {
    if k == 0 then px else High(t[k - 1], HighBefore(t, px, k - 1))
  }

  lemma BeforeStep(t: seq<Taps>, px: int, s: Strength, k: int)
    requires |t| == 2 && 0 <= k < 2 && ValidStrength(s)
    ensures SecTap(k) == 2 - k
    ensures SumBefore(t, px, s, k + 1) ==
            SumBefore(t, px, s, k) + Weigh(PriTap(s, k), PriPull(t[k], px, s)) + Weigh(2 - k, SecPull(t[k], px, s))
    ensures LowBefore(t, px, k + 1) == Low(t[k], LowBefore(t, px, k))
    ensures HighBefore(t, px, k + 1) == High(t[k], HighBefore(t, px, k))
  {
  }

  lemma BeforeIsAll(t: seq<Taps>, px: int, s: Strength)
    requires |t| == 2 && ValidStrength(s)
    ensures SumBefore(t, px, s, 2) == Sum(t[0], t[1], px, s)
    ensures LowBefore(t, px, 2) == Low(t[1], Low(t[0], px))
    ensures HighBefore(t, px, 2) == High(t[1], High(t[0], px))
  {
    BeforeStep(t, px, s, 0);
    BeforeStep(t, px, s, 1);
    assert SumBefore(t, px, s, 0) == 0 && LowBefore(t, px, 0) == px && HighBefore(t, px, 0) == px;
  }

  lemma NoPull(t: Taps, px: int, s: Strength)
    requires ValidStrength(s)
    ensures s.pri == 0 ==> PriPull(t, px, s) == 0
    ensures s.sec == 0 ==> SecPull(t, px, s) == 0
  {
  }

  lemma NextTap(s: Strength)
    requires s.depth >= 8
    ensures NextPriTap(PriTap(s, 0)) == PriTap(s, 1)
  {
  }

  /** All four secondary cells of a step. */
  method SecTaps(tmp: seq<int>, i: int, o: Offsets, px: int, s: Strength, secTap: int, secShift: nat,
                 min: int, max: int, ghost t: Taps) returns (sum: int, min': int, max': int)
    requires Reads(tmp, i, o, t) && TapsWithin(t, 0, 0x7fff) && ValidStrength(s) && s.sec > 0
    requires 1 <= secTap <= 4
    requires 0 <= px && 0 <= min < 0x8000 && 0 <= max < 0x8000
    requires secShift == s.damping - FloorLog2(s.sec)
    ensures sum == Weigh(secTap, SecPull(t, px, s))
    ensures min' == Lower(Lower(Lower(Lower(min, t.s0), t.s1), t.s2), t.s3) && 0 <= min' < 0x8000
    ensures max' == Upper(Upper(Upper(Upper(max, t.s0), t.s1), t.s2), t.s3) && 0 <= max' < 0x8000
  {
    var s0, s2;
    s0, min', max' := Tap(tmp, i, o.ccw, px, secTap, s.sec, secShift, min, max, s.damping, t.s0, t.s1);
    s2, min', max' := Tap(tmp, i, o.cw, px, secTap, s.sec, secShift, min', max', s.damping, t.s2, t.s3);
    sum := s0 + s2;
  }

  /** All six cells of a step. */
  method BothTaps(tmp: seq<int>, i: int, o: Offsets, px: int, s: Strength, priTap: int, secTap: int,
                  priShift: nat, secShift: nat, min: int, max: int, ghost t: Taps)
    returns (sum: int, min': int, max': int)
    requires Reads(tmp, i, o, t) && TapsWithin(t, 0, 0x7fff) && ValidStrength(s) && s.pri > 0 && s.sec > 0
    requires 0 <= px && 0 <= min < 0x8000 && 0 <= max < 0x8000 && 1 <= priTap <= 4 && 1 <= secTap <= 4
    requires priShift == Max(0, s.damping - FloorLog2(s.pri)) && secShift == s.damping - FloorLog2(s.sec)
    ensures sum == Weigh(priTap, PriPull(t, px, s)) + Weigh(secTap, SecPull(t, px, s))
    ensures min' == Low(t, min) && max' == High(t, max) && 0 <= min' < 0x8000 && 0 <= max' < 0x8000
  {
    var p, sec;
    p, min', max' := Tap(tmp, i, o.pri, px, priTap, s.pri, priShift, min, max, s.damping, t.p0, t.p1);
    sec, min', max' := SecTaps(tmp, i, o, px, s, secTap, secShift, min', max', t);
    sum := p + sec;
  }

  /** The loop of the path with both strengths. */
  method SumBoth(tmp: seq<int>, i: int, o: seq<Offsets>, px: int, s: Strength, priTap: int,
                 priShift: nat, secShift: nat, ghost t: seq<Taps>) returns (sum: int, min: int, max: int)
    requires Scene(tmp, i, o, t, px, s) && s.pri > 0 && s.sec > 0 && priTap == PriTap(s, 0)
    requires priShift == Max(0, s.damping - FloorLog2(s.pri)) && secShift == s.damping - FloorLog2(s.sec)
    ensures sum == SumBefore(t, px, s, 2) && min == LowBefore(t, px, 2) && max == HighBefore(t, px, 2)
  {
    sum, max, min := 0, px, px;
    var priTapK := priTap;
    NextTap(s);
    for k := 0 to 2
      invariant 0 <= min < 0x8000 && 0 <= max < 0x8000
      invariant k < 2 ==> priTapK == PriTap(s, k)
      invariant sum == SumBefore(t, px, s, k)
      invariant min == LowBefore(t, px, k) && max == HighBefore(t, px, k)
    {
      var part;
      BeforeStep(t, px, s, k);
      part, min, max := BothTaps(tmp, i, o[k], px, s, priTapK, 2 - k, priShift, secShift, min, max, t[k]);
      sum := sum + part;
      priTapK := NextPriTap(priTapK);
    }
  }

  /** The loop of the path with a primary strength only: no running extremes. */
  method SumPrimary(tmp: seq<int>, i: int, o: seq<Offsets>, px: int, s: Strength, priTap: int,
                    priShift: nat, ghost t: seq<Taps>) returns (sum: int)
    requires Scene(tmp, i, o, t, px, s) && s.pri > 0 && s.sec == 0 && priTap == PriTap(s, 0)
    requires priShift == Max(0, s.damping - FloorLog2(s.pri))
    ensures sum == SumBefore(t, px, s, 2)
  {
    sum := 0;
    var priTapK := priTap;
    NextTap(s);
    for k := 0 to 2
      invariant k < 2 ==> priTapK == PriTap(s, k)
      invariant sum == SumBefore(t, px, s, k)
    {
      var p, _, _ := Tap(tmp, i, o[k].pri, px, priTapK, s.pri, priShift, px, px, s.damping, t[k].p0, t[k].p1);
      sum := sum + p;
      priTapK := NextPriTap(priTapK);
      NoPull(t[k], px, s);
    }
  }

  /** The loop of the path with a secondary strength only. */
  method SumSecondary(tmp: seq<int>, i: int, o: seq<Offsets>, px: int, s: Strength, secShift: nat,
                      ghost t: seq<Taps>) returns (sum: int)
    requires Scene(tmp, i, o, t, px, s) && s.pri == 0 && s.sec > 0
    requires secShift == s.damping - FloorLog2(s.sec)
    ensures sum == SumBefore(t, px, s, 2)
  {
    sum := 0;
    for k := 0 to 2
      invariant sum == SumBefore(t, px, s, k)
    {
      var sec, _, _ := SecTaps(tmp, i, o[k], px, s, 2 - k, secShift, px, px, t[k]);
      sum := sum + sec;
      NoPull(t[k], px, s);
    }
  }

  /** One pixel, on the path its strengths select. */
  method FilterPixel(tmp: seq<int>, i: int, o: seq<Offsets>, px: int, s: Strength, ghost t: seq<Taps>)
    returns (v: int)
    requires Scene(tmp, i, o, t, px, s) && (s.pri > 0 || s.sec > 0)
    ensures v == Combine(t[0], t[1], px, s)
  {
    BeforeIsAll(t, px, s);
    if s.pri != 0 {
      var priTap := 4 - Shr(s.pri, s.depth - 8) % 2;
      var priShift := Max(0, s.damping - FloorLog2(s.pri));
      if s.sec != 0 {
        var secShift := s.damping - FloorLog2(s.sec);
        var sum, min, max := SumBoth(tmp, i, o, px, s, priTap, priShift, secShift, t);
        v := Clip3(min, max, px + (sum - (if sum < 0 then 1 else 0) + 8) / 16);
      } else {
        var sum := SumPrimary(tmp, i, o, px, s, priTap, priShift, t);
        v := px + (sum - (if sum < 0 then 1 else 0) + 8) / 16;
        ClipIsNoOp(t[0], t[1], px, s);
      }
    } else {
      var secShift := s.damping - FloorLog2(s.sec);
      var sum := SumSecondary(tmp, i, o, px, s, secShift, t);
      v := px + (sum - (if sum < 0 then 1 else 0) + 8) / 16;
      ClipIsNoOp(t[0], t[1], px, s);
    }
  }
}
