/**
 * What the filter of section 7.15.3 does to a pixel, told by the pixel and its neighbours alone: which
 * differences count and how far, the weights, the rounding, and the clip.
 */
module CdefMeaning {
  import opened Bits
  import opened CdefSpec

  // ----- One difference -----

  /** Differences are damped by this part of themselves. */
  function Part(threshold: int, damping: int): (r: int)
    requires threshold > 0
    ensures r > 0
  {
    Pow2(Max(0, damping - FloorLog2(threshold)))
  }

  /** A difference is within reach when it is passed on whole. */
  predicate WithinReach(d: int, threshold: int, damping: int)
    requires threshold > 0
  {
    Abs(d) + Abs(d) / Part(threshold, damping) <= threshold
  }

  /** A difference within reach is passed on whole, one beyond `threshold` times the part not at all,
      and in between what passes shrinks as the difference grows; the sign is kept. */
  lemma ConstrainedPasses(d: int, threshold: int, damping: int)
    requires threshold > 0
    ensures var c, m := Constrained(d, threshold, damping), Abs(d) / Part(threshold, damping);
            && (Abs(d) + m <= threshold ==> c == d)
            && (Abs(d) >= threshold * Part(threshold, damping) ==> c == 0)
            && (Abs(d) + m > threshold ==> Abs(c) == Max(0, threshold - m))
            && (d >= 0 ==> c >= 0) && (d <= 0 ==> c <= 0)
            && Constrained(-d, threshold, damping) == -c
  {
    ConstrainedSize(d, threshold, damping, Abs(d) / Part(threshold, damping));
    ConstrainedSize(-d, threshold, damping, Abs(d) / Part(threshold, damping));
    ReachEnds(Abs(d), threshold, Part(threshold, damping));
  }

  lemma ConstrainedSize(d: int, threshold: int, damping: int, m: int)
    requires threshold > 0 && m == Abs(d) / Part(threshold, damping)
    ensures Constrained(d, threshold, damping) == ApplySign(Clip3(0, Abs(d), threshold - m), d)
  {
    ShrIsDiv(Abs(d), Max(0, damping - FloorLog2(threshold)));
  }

  lemma ReachEnds(a: int, threshold: int, part: int)
    requires a >= 0 && part > 0
    ensures a / part >= 0
    ensures a >= threshold * part ==> a / part >= threshold
  {
    QuotientAtLeast(a, part, 0);
    if a >= threshold * part {
      QuotientAtLeast(a, part, threshold);
    }
  }

  lemma QuotientAtLeast(v: int, n: int, q: int)
    requires n > 0 && q * n <= v
    ensures q <= v / n
  {
    assert (v / n + 1) * n == v / n * n + n;
    MulInverse(q, v / n + 1, n);
  }

  /** How much of a difference counts. */
  function Passed(d: int, threshold: int, damping: int): int
    requires threshold >= 0
  {
    if threshold == 0 then 0
    else if WithinReach(d, threshold, damping) then d
    else
      var rest := Max(0, threshold - Abs(d) / Part(threshold, damping));
      if d > 0 then rest else -rest
  }

  lemma ConstrainedIsPassed(d: int, threshold: int, damping: int)
    requires threshold >= 0
    ensures Constrained(d, threshold, damping) == Passed(d, threshold, damping)
  {
    if threshold > 0 {
      ConstrainedPasses(d, threshold, damping);
    }
  }

  // ----- The weighted differences -----

  function Pull(s: Sample, px: int, threshold: int, damping: int): int
    requires threshold >= 0
  {
    if s.Missing? then 0 else Passed(s.v - px, threshold, damping)
  }

  lemma TermIsPull(s: Sample, px: int, threshold: int, damping: int)
    requires threshold >= 0
    ensures Term(s, px, threshold, damping) == Pull(s, px, threshold, damping)
  {
    if s.Px? {
      ConstrainedIsPassed(s.v - px, threshold, damping);
    }
  }

  /** The primary taps of a step, and the secondary ones. */
  function Along(t: Taps, px: int, s: Strength): int
    requires s.pri >= 0
  {
    Pull(t.p0, px, s.pri, s.damping) + Pull(t.p1, px, s.pri, s.damping)
  }

  function Across(t: Taps, px: int, s: Strength): int
    requires s.sec >= 0
  {
    Pull(t.s0, px, s.sec, s.damping) + Pull(t.s1, px, s.sec, s.damping)
    + Pull(t.s2, px, s.sec, s.damping) + Pull(t.s3, px, s.sec, s.damping)
  }

  /** The weights, in sixteenths: 4 and 2 for an even unscaled primary strength, 3 and 3 for an odd
      one, 2 and 1 for the secondary strength. */
  function Weighted(along0: int, along1: int, across0: int, across1: int, s: Strength): int
    requires s.depth >= 8
  {
    (if s.pri / Pow2(s.depth - 8) % 2 == 0 then 4 * along0 + 2 * along1 else 3 * along0 + 3 * along1)
    + 2 * across0 + across1
  }

  function Pulls(t0: Taps, t1: Taps, px: int, s: Strength): int
    requires ValidStrength(s)
  {
    Weighted(Along(t0, px, s), Along(t1, px, s), Across(t0, px, s), Across(t1, px, s), s)
  }

  lemma StepIsPull(t: Taps, px: int, s: Strength)
    requires ValidStrength(s)
    ensures PriPull(t, px, s) == Along(t, px, s) && SecPull(t, px, s) == Across(t, px, s)
  {
    TermIsPull(t.p0, px, s.pri, s.damping);
    TermIsPull(t.p1, px, s.pri, s.damping);
    TermIsPull(t.s0, px, s.sec, s.damping);
    TermIsPull(t.s1, px, s.sec, s.damping);
    TermIsPull(t.s2, px, s.sec, s.damping);
    TermIsPull(t.s3, px, s.sec, s.damping);
  }

  lemma SumIsPulls(t0: Taps, t1: Taps, px: int, s: Strength)
    requires ValidStrength(s)
    ensures Sum(t0, t1, px, s) == Pulls(t0, t1, px, s)
  {
    StepIsPull(t0, px, s);
    StepIsPull(t1, px, s);
    SumIsWeighted(t0, t1, px, s);
    ShrIsDiv(s.pri, s.depth - 8);
    assert PriTap(s, 0) == if s.pri / Pow2(s.depth - 8) % 2 == 0 then 4 else 3;
    assert PriTap(s, 1) == if s.pri / Pow2(s.depth - 8) % 2 == 0 then 2 else 3;
  }

  /** The plain difference of an available tap; a strength of zero takes none. */
  function Difference(s: Sample, px: int, threshold: int): int {
    if s.Missing? || threshold == 0 then 0 else s.v - px
  }

  function Differences(t0: Taps, t1: Taps, px: int, s: Strength): int
    requires s.depth >= 8
  {
    Weighted(AlongAll(t0, px, s.pri), AlongAll(t1, px, s.pri), AcrossAll(t0, px, s.sec), AcrossAll(t1, px, s.sec), s)
  }

  function AlongAll(t: Taps, px: int, pri: int): int {
    Difference(t.p0, px, pri) + Difference(t.p1, px, pri)
  }

  function AcrossAll(t: Taps, px: int, sec: int): int {
    Difference(t.s0, px, sec) + Difference(t.s1, px, sec) + Difference(t.s2, px, sec) + Difference(t.s3, px, sec)
  }

  predicate TapInReach(s: Sample, px: int, threshold: int, damping: int)
    requires threshold >= 0
  {
    threshold > 0 && s.Px? ==> WithinReach(s.v - px, threshold, damping)
  }

  predicate InReach(t: Taps, px: int, s: Strength)
    requires ValidStrength(s)
  {
    && TapInReach(t.p0, px, s.pri, s.damping) && TapInReach(t.p1, px, s.pri, s.damping)
    && TapInReach(t.s0, px, s.sec, s.damping) && TapInReach(t.s1, px, s.sec, s.damping)
    && TapInReach(t.s2, px, s.sec, s.damping) && TapInReach(t.s3, px, s.sec, s.damping)
  }

  /** Taps within reach count with their whole difference. */
  lemma InReachIsWhole(t0: Taps, t1: Taps, px: int, s: Strength)
    requires ValidStrength(s) && InReach(t0, px, s) && InReach(t1, px, s)
    ensures Pulls(t0, t1, px, s) == Differences(t0, t1, px, s)
  {
  }

  // ----- Rounding -----

  /** `q` is the integer nearest to `n` sixteenths, halves away from zero. */
  predicate NearestSixteenth(q: int, n: int) {
    2 * Abs(16 * q - n) <= 16 && (2 * Abs(16 * q - n) == 16 ==> Abs(16 * q) > Abs(n))
  }

  lemma RoundedIsNearest(px: int, n: int)
    ensures NearestSixteenth(Rounded(px, n) - px, n)
  {
  }

  // ----- The clip -----

  predicate IsTap(v: int, t: Taps) {
    t.p0 == Px(v) || t.p1 == Px(v) || t.s0 == Px(v) || t.s1 == Px(v) || t.s2 == Px(v) || t.s3 == Px(v)
  }

  /** The pixel and its available taps. */
  predicate Present(v: int, px: int, t0: Taps, t1: Taps) {
    v == px || IsTap(v, t0) || IsTap(v, t1)
  }

  ghost predicate IsLeast(v: int, px: int, t0: Taps, t1: Taps) {
    Present(v, px, t0, t1) && forall u :: Present(u, px, t0, t1) ==> v <= u
  }

  ghost predicate IsGreatest(v: int, px: int, t0: Taps, t1: Taps) {
    Present(v, px, t0, t1) && forall u :: Present(u, px, t0, t1) ==> u <= v
  }

  lemma LowIsLeastOf(t: Taps, acc: int)
    ensures Low(t, acc) == acc || IsTap(Low(t, acc), t)
    ensures Low(t, acc) <= acc && forall u :: IsTap(u, t) ==> Low(t, acc) <= u
  {
  }

  lemma HighIsGreatestOf(t: Taps, acc: int)
    ensures High(t, acc) == acc || IsTap(High(t, acc), t)
    ensures High(t, acc) >= acc && forall u :: IsTap(u, t) ==> High(t, acc) >= u
  {
  }

  /** The clip of the filter is to the least and the greatest of the pixel and its available taps. */
  lemma HullIs(t0: Taps, t1: Taps, px: int)
    ensures IsLeast(Low(t1, Low(t0, px)), px, t0, t1) && IsGreatest(High(t1, High(t0, px)), px, t0, t1)
  {
    LowIsLeastOf(t0, px);
    LowIsLeastOf(t1, Low(t0, px));
    HighIsGreatestOf(t0, px);
    HighIsGreatestOf(t1, High(t0, px));
  }

  // ----- The filtered pixel -----

  /** `v` is the pixel moved by the nearest integer to `n` sixteenths, but not past the pixel's
      least and greatest available neighbours. */
  ghost predicate MovedBy(v: int, n: int, px: int, t0: Taps, t1: Taps) {
    exists q, lo, hi :: NearestSixteenth(q, n) && IsLeast(lo, px, t0, t1) && IsGreatest(hi, px, t0, t1)
                        && v == Clip3(lo, hi, px + q)
  }

  /** The description leaves no choice. */
  lemma MovedByUnique(v1: int, v2: int, n: int, px: int, t0: Taps, t1: Taps)
    requires MovedBy(v1, n, px, t0, t1) && MovedBy(v2, n, px, t0, t1)
    ensures v1 == v2
  {
    var q1, lo1, hi1 :| NearestSixteenth(q1, n) && IsLeast(lo1, px, t0, t1) && IsGreatest(hi1, px, t0, t1)
                        && v1 == Clip3(lo1, hi1, px + q1);
    var q2, lo2, hi2 :| NearestSixteenth(q2, n) && IsLeast(lo2, px, t0, t1) && IsGreatest(hi2, px, t0, t1)
                        && v2 == Clip3(lo2, hi2, px + q2);
    NearestUnique(q1, q2, n);
    HullUnique(lo1, lo2, hi1, hi2, px, t0, t1);
  }

  lemma HullUnique(lo1: int, lo2: int, hi1: int, hi2: int, px: int, t0: Taps, t1: Taps)
    requires IsLeast(lo1, px, t0, t1) && IsLeast(lo2, px, t0, t1)
    requires IsGreatest(hi1, px, t0, t1) && IsGreatest(hi2, px, t0, t1)
    ensures lo1 == lo2 && hi1 == hi2
  {
    assert Present(lo1, px, t0, t1) && Present(lo2, px, t0, t1) && Present(hi1, px, t0, t1) && Present(hi2, px, t0, t1);
  }

  lemma NearestUnique(q1: int, q2: int, n: int)
    requires NearestSixteenth(q1, n) && NearestSixteenth(q2, n)
    ensures q1 == q2
  {
  }

  /** The taps of a step: the pixels one step of a direction away to either side, for the direction
      itself and the two that are two further on and two before. */
  lemma TapsAre(win: Window, x: int, y: int, dir: int, k: int)
    ensures var t, p, a, b := TapsAt(win, x, y, dir, k), Direction(dir, k), Direction(dir + 2, k), Direction(dir - 2, k);
            && t.p0 == win(x + p.1, y + p.0) && t.p1 == win(x - p.1, y - p.0)
            && t.s0 == win(x + a.1, y + a.0) && t.s1 == win(x - a.1, y - a.0)
            && t.s2 == win(x + b.1, y + b.0) && t.s3 == win(x - b.1, y - b.0)
  {
  }

  /** What the filter makes of the pixel (x, y). */
  ghost predicate Smoothed(v: int, win: Window, x: int, y: int, s: Strength)
    requires ValidStrength(s)
  {
    win(x, y).Px? && MovedByTaps(v, TapsAt(win, x, y, s.dir, 0), TapsAt(win, x, y, s.dir, 1), win(x, y).v, s)
  }

  /** By the taps' weighted pulls; by their plain differences when all are within reach. */
  ghost predicate MovedByTaps(v: int, t0: Taps, t1: Taps, px: int, s: Strength)
    requires ValidStrength(s)
  {
    && MovedBy(v, Pulls(t0, t1, px, s), px, t0, t1)
    && (InReach(t0, px, s) && InReach(t1, px, s) ==> MovedBy(v, Differences(t0, t1, px, s), px, t0, t1))
  }

  lemma CombineMoves(t0: Taps, t1: Taps, px: int, s: Strength)
    requires ValidStrength(s)
    ensures MovedByTaps(Combine(t0, t1, px, s), t0, t1, px, s)
  {
    var n := Pulls(t0, t1, px, s);
    SumIsPulls(t0, t1, px, s);
    CombineClips(t0, t1, px, s, n);
    if InReach(t0, px, s) && InReach(t1, px, s) {
      InReachIsWhole(t0, t1, px, s);
    }
  }

  lemma CombineClips(t0: Taps, t1: Taps, px: int, s: Strength, n: int)
    requires ValidStrength(s) && Sum(t0, t1, px, s) == n
    ensures MovedBy(Combine(t0, t1, px, s), n, px, t0, t1)
  {
    var lo, hi, q := Low(t1, Low(t0, px)), High(t1, High(t0, px)), Rounded(px, n) - px;
    HullIs(t0, t1, px);
    RoundedIsNearest(px, n);
    assert Combine(t0, t1, px, s) == Clip3(lo, hi, px + q);
  }

  /** The filter of section 7.15.3 smooths. */
  lemma FilteredIsSmoothed(win: Window, x: int, y: int, s: Strength)
    requires ValidStrength(s) && win(x, y).Px?
    ensures Smoothed(Filtered(win, x, y, s), win, x, y, s)
  {
    CombineMoves(TapsAt(win, x, y, s.dir, 0), TapsAt(win, x, y, s.dir, 1), win(x, y).v, s);
  }
}
