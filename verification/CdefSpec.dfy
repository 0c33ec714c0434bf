/**
 * The CDEF filter of the AV1 Bitstream & Decoding Process Specification, section 7.15.3,
 * written with explicit availability: a sample outside the frame is `Missing`.
 */
module CdefSpec {
  import opened Bits

  datatype Sample = Missing | Px(v: int)

  /** The pixels around a block, addressed (x, y) relative to its top-left corner. */
  type Window = (int, int) -> Sample

  datatype Strength = Strength(pri: int, sec: int, dir: int, damping: int, depth: int)

  /** The ranges section 5.9.19 gives the filter parameters, scaled by the bit depth. */
  predicate ValidStrength(s: Strength) {
    && s.depth in {8, 10, 12}
    && 0 <= s.pri <= 240 && 0 <= s.sec <= 64
    && 0 <= s.dir < 8
    && 0 <= s.damping <= 14
    && (s.sec > 0 ==> FloorLog2(s.sec) <= s.damping)
  }

  ghost predicate ValidPixels(win: Window, depth: int)
    requires depth in {8, 10, 12}
  {
    forall x, y :: win(x, y).Px? ==> 0 <= win(x, y).v < Pow2(depth)
  }

  /** Cdef_Directions as (dy, dx), with the direction taken modulo 8. */
  function Direction(dir: int, k: int): (int, int) {
    var d := dir % 8;
    if k == 0 then
      if d == 0 then (-1, 1)
      else if d <= 3 then (0, 1)
      else if d == 4 then (1, 1)
      else (1, 0)
    else
      if d == 0 then (-2, 2)
      else if d == 1 then (-1, 2)
      else if d == 2 then (0, 2)
      else if d == 3 then (1, 2)
      else if d == 4 then (2, 2)
      else if d == 5 then (2, 1)
      else if d == 6 then (2, 0)
      else (2, -1)
  }

  /** Cdef_Pri_Taps: {4, 2} or {3, 3}, by the parity of the unscaled strength. */
  function PriTap(s: Strength, k: int): (r: int)
    requires s.depth >= 8
    ensures 1 <= r <= 4
  {
    if Shr(s.pri, s.depth - 8) % 2 == 0 then (if k == 0 then 4 else 2) else 3
  }

  /** Cdef_Sec_Taps. */
  function SecTap(k: int): (r: int)
    ensures 1 <= r <= 4
  {
    if k == 0 then 2 else 1
  }

  function Constrained(diff: int, threshold: int, damping: int): int
    requires threshold >= 0
  {
    if threshold == 0 then 0 else
    var adj := Max(0, damping - FloorLog2(threshold));
    ApplySign(Clip3(0, Abs(diff), threshold - Shr(Abs(diff), adj)), diff)
  }

  function Look(win: Window, x: int, y: int, d: (int, int), sign: int): Sample {
    win(x + sign * d.1, y + sign * d.0)
  }

  /** The six taps of one step: two along the direction, four along the directions 45 degrees
      to either side. */
  datatype Taps = Taps(p0: Sample, p1: Sample, s0: Sample, s1: Sample, s2: Sample, s3: Sample)

  function TapsAt(win: Window, x: int, y: int, dir: int, k: int): Taps {
    Taps(Look(win, x, y, Direction(dir, k), 1), Look(win, x, y, Direction(dir, k), -1),
         Look(win, x, y, Direction(dir + 2, k), 1), Look(win, x, y, Direction(dir + 2, k), -1),
         Look(win, x, y, Direction(dir - 2, k), 1), Look(win, x, y, Direction(dir - 2, k), -1))
  }

  function Term(s: Sample, px: int, threshold: int, damping: int): int
    requires threshold >= 0
  {
    if s.Missing? then 0 else Constrained(s.v - px, threshold, damping)
  }

  function PriPull(t: Taps, px: int, s: Strength): int
    requires ValidStrength(s)
  {
    Term(t.p0, px, s.pri, s.damping) + Term(t.p1, px, s.pri, s.damping)
  }

  function SecPull(t: Taps, px: int, s: Strength): int
    requires ValidStrength(s)
  {
    Term(t.s0, px, s.sec, s.damping) + Term(t.s1, px, s.sec, s.damping) +
    Term(t.s2, px, s.sec, s.damping) + Term(t.s3, px, s.sec, s.damping)
  }

  /** `tap * v` for the tap weights 1 to 4, spelled out by weight. */
  function Weigh(tap: int, v: int): int
    requires 1 <= tap <= 4
  {
    if tap == 1 then v else if tap == 2 then 2 * v else if tap == 3 then 3 * v else 4 * v
  }

  lemma WeighIsProduct(tap: int, v: int)
    requires 1 <= tap <= 4
    ensures Weigh(tap, v) == tap * v
  {
  }

  function Sum(t0: Taps, t1: Taps, px: int, s: Strength): int
    requires ValidStrength(s)
  {
    Weigh(PriTap(s, 0), PriPull(t0, px, s)) + Weigh(SecTap(0), SecPull(t0, px, s)) +
    Weigh(PriTap(s, 1), PriPull(t1, px, s)) + Weigh(SecTap(1), SecPull(t1, px, s))
  }

  /** The sum is the pulls, each times its tap weight. */
  lemma SumIsWeighted(t0: Taps, t1: Taps, px: int, s: Strength)
    requires ValidStrength(s)
    ensures Sum(t0, t1, px, s) ==
            PriTap(s, 0) * PriPull(t0, px, s) + SecTap(0) * SecPull(t0, px, s) +
            PriTap(s, 1) * PriPull(t1, px, s) + SecTap(1) * SecPull(t1, px, s)
  {
    WeighIsProduct(PriTap(s, 0), PriPull(t0, px, s));
    WeighIsProduct(SecTap(0), SecPull(t0, px, s));
    WeighIsProduct(PriTap(s, 1), PriPull(t1, px, s));
    WeighIsProduct(SecTap(1), SecPull(t1, px, s));
  }

  function Lower(acc: int, s: Sample): int {
    if s.Missing? then acc else Min(s.v, acc)
  }

  function Upper(acc: int, s: Sample): int {
    if s.Missing? then acc else Max(s.v, acc)
  }

  /** The smallest available tap of a step, or `acc` when that is smaller. */
  function Low(t: Taps, acc: int): int {
    Lower(Lower(Lower(Lower(Lower(Lower(acc, t.p0), t.p1), t.s0), t.s1), t.s2), t.s3)
  }

  function High(t: Taps, acc: int): int {
    Upper(Upper(Upper(Upper(Upper(Upper(acc, t.p0), t.p1), t.s0), t.s1), t.s2), t.s3)
  }

  function Rounded(px: int, sum: int): int {
    px + (sum - (if sum < 0 then 1 else 0) + 8) / 16
  }

  /** The weighted taps, always clipped to the hull of the pixel and its available taps. */
  function Combine(t0: Taps, t1: Taps, px: int, s: Strength): int
    requires ValidStrength(s)
  {
    Clip3(Low(t1, Low(t0, px)), High(t1, High(t0, px)), Rounded(px, Sum(t0, t1, px, s)))
  }

  /** CdefFrame at (x, y) of the block. */
  function Filtered(win: Window, x: int, y: int, s: Strength): int
    requires ValidStrength(s)
    requires win(x, y).Px?
  {
    Combine(TapsAt(win, x, y, s.dir, 0), TapsAt(win, x, y, s.dir, 1), win(x, y).v, s)
  }
}
