/** When reads pass exactly inside one window of the delay ring, the DQS-enable search finds every window between 948 ps
    and 34943 ps wide, and both bounds are sharp: of every width outside them, some window is missed. */
module DqsEnableArc {
  import opened DqsEnable

  /** One turn of the ring: 16 cycles of 8 phase taps of 312 ps. */
  const RING: int := 39936

  predicate InArc(a: int, width: int, x: int) {
    (x - a) % RING <= width
  }

  /** Reads pass exactly when the delay lies on the arc of this width that starts at a. */
  ghost predicate PassesOnArc(test: ReadTest, a: int, width: int) {
    forall v, p, d | 0 <= v < 16 && 0 <= p <= 7 && 0 <= d <= 31 :: test(v, p, d) <==> InArc(a, width, Ps(8 * v + p, d))
  }

  /** The arc unrolled from pointer base, where a read fails: one interval between two visits of that setting. */
  ghost predicate Unrolled(test: ReadTest, base: int, lo: int, hi: int) {
    && 312 < lo <= hi < 312 + RING && hi - lo < RING - 4992
    && forall k, d | 1 <= k && 0 <= d <= 31 && Ps(k, d) < lo + RING :: At(test, base, k, d) <==> lo <= Ps(k, d) <= hi
  }

  lemma TurnsDoNotMatter(x: int, z: int)
    ensures (x + RING * z) % RING == x % RING
  {
  }

  lemma AtOnArc(test: ReadTest, a: int, width: int, base: int, k: int, d: int)
    requires PassesOnArc(test, a, width) && 0 <= d <= 31
    ensures At(test, base, k, d) <==> InArc(a - 2496 * base, width, Ps(k, d))
  {
    var (q, p) := (k / 8, k % 8);
    NextCycle(base, q);
    ArcDecides(test, a, width, Cycle(base, q), p, d);
    hide PassesOnArc;
    OnRing(base, k, d);
    TurnsDoNotMatter(Ps(k, d) - (a - 2496 * base), -((base + q) / 16));
  }

  /** A step's own position and its position counted from base differ by whole turns. */
  lemma OnRing(base: int, k: int, d: int)
    ensures Ps(8 * Cycle(base, k / 8) + k % 8, d) == Ps(k, d) + 2496 * base + RING * -((base + k / 8) / 16)
  {
    var (q, p) := (k / 8, k % 8);
    assert k == 8 * q + p;
    assert Cycle(base, q) == base + q - 16 * ((base + q) / 16);
  }

  lemma Unroll(test: ReadTest, a: int, width: int, base: int) returns (lo: int)
    requires PassesOnArc(test, a, width) && 0 <= width < RING - 4992
    requires 0 <= base < 16 && !test(base, 1, 0)
    ensures Unrolled(test, base, lo, lo + width)
    ensures lo % 2496 == a % 2496
  {
    hide At, PassesOnArc, InArc;
    var start := a - 2496 * base;
    var z := (start - 312) / RING;
    lo := start - RING * z;
    assert 312 <= lo < 312 + RING by { Remainder(start - 312); }
    WholeCycles(a, base, z);
    AtPhase(test, base, 0, 1, 0);
    FullTurn0(base);
    forall k, d | 1 <= k && 0 <= d <= 31 && Ps(k, d) < lo + RING
      ensures At(test, base, k, d) == InArc(lo, width, Ps(k, d))
    {
      AtOnArc(test, a, width, base, k, d);
      ArcTurned(start, z, width, Ps(k, d));
    }
    assert !InArc(lo, width, 312);
    FailsAtTheStart(lo, width);
    forall k, d | 1 <= k && 0 <= d <= 31 && Ps(k, d) < lo + RING
      ensures At(test, base, k, d) <==> lo <= Ps(k, d) <= lo + width
    {
      ArcUnrolled(lo, width, Ps(k, d));
    }
  }

  lemma Remainder(x: int)
    ensures 0 <= x - RING * (x / RING) < RING
  {
  }

  lemma ArcTurned(start: int, z: int, width: int, x: int)
    ensures InArc(start, width, x) == InArc(start - RING * z, width, x)
  {
    TurnsDoNotMatter(x - start, z);
  }

  lemma FailsAtTheStart(lo: int, width: int)
    requires 312 <= lo < 312 + RING && 0 <= width && !InArc(lo, width, 312)
    ensures 312 < lo && lo + width < 312 + RING
  {
    if lo > 312 {
      TurnsDoNotMatter(312 - lo, 1);
    }
  }

  lemma ArcUnrolled(lo: int, width: int, x: int)
    requires 312 < lo && lo + width < 312 + RING && 312 <= x < lo + RING
    ensures InArc(lo, width, x) <==> lo <= x <= lo + width
  {
    if x < lo {
      TurnsDoNotMatter(x - lo, 1);
    }
  }

  lemma WholeCycles(a: int, base: int, z: int)
    ensures (a - 2496 * base - RING * z) % 2496 == a % 2496
  {
    assert a - 2496 * base - RING * z == 2496 * (a / 2496 - base - 16 * z) + a % 2496;
  }

  lemma FullTurn0(base: int)
    requires 0 <= base < 16
    ensures Cycle(base, 0) == base
  {
  }

  /** A usable step lies inside any window this wide. */
  lemma UsableStepInside(test: ReadTest, base: int, lo: int, hi: int) returns (k: int)
    requires Unrolled(test, base, lo, hi) && hi - lo >= 624
    ensures 1 <= k <= 127 && Usable(k) && At(test, base, k, 0) && lo <= Ps(k, 0) < lo + 624
    ensures Usable(k - 1) ==> Ps(k, 0) < lo + 312
  {
    hide At;
    k := (lo + 311) / 312;
    if !Usable(k) {
      k := k + 1;
    }
  }

  lemma SomethingPasses(test: ReadTest, base: int, lo: int, hi: int)
    requires Unrolled(test, base, lo, hi) && hi - lo >= 624
    ensures !NothingPasses(test, base)
  {
    hide At;
    var k := UsableStepInside(test, base, lo, hi);
  }

  /** The search begins with a whole phase tap, at the first usable step inside the window. */
  lemma BeginsInside(test: ReadTest, base: int, lo: int, hi: int, k0: int, d0: int)
    requires Unrolled(test, base, lo, hi) && hi - lo >= 624 && FirstPass(test, base, k0, d0)
    ensures d0 == 0 && 1 <= k0 <= 127 && Usable(k0) && lo <= Ps(k0, 0) < lo + (if k0 % 8 == 1 then 624 else 312)
  {
    hide At, Usable;
    var k := UsableStepInside(test, base, lo, hi);
    assert d0 == 0;
    assert k0 <= k;
    assert k0 != 0 by { AtPhase(test, base, 0, 0, 0); }
    assert At(test, base, k0, 0) <==> lo <= Ps(k0, 0) <= hi;
    assert k0 % 8 != 1 ==> Usable(k0 - 1) by { StepBefore(k0); }
    assert Usable(k0);
  }

  lemma StepBefore(k: int)
    ensures Usable(k - 1) <==> k % 8 != 1
  {
  }

  /** What the recorded range looks like. Unless the first pass is at phase 1, both ends are within one delay tap of the
      window's; then, the right end is a phase tap short, and in a window that ends before the first step tried the
      range is the one phase tap after the first pass. */
  lemma MeasuresTheWindow(test: ReadTest, lo: int, hi: int, g: Measure)
    requires Unrolled(test, g.base, lo, hi) && hi - lo >= 624 && Measured(test, g)
    requires 0 <= g.base < 16 && !test(g.base, 1, 0)
    ensures g.k0 % 8 != 1 ==> lo <= g.bgn < lo + 25 && hi - 25 < g.end <= hi
    ensures g.k0 % 8 == 1 && Ps(g.k0 + 2, 0) <= hi ==> lo <= g.bgn < lo + 624 && hi - 337 < g.end <= hi - 312
    ensures g.k0 % 8 == 1 && Ps(g.k0 + 2, 0) > hi ==> lo <= g.bgn == g.end == Ps(g.k0 + 1, 0) < lo + 936
  {
    hide At;
    var base := g.base;
    BeginsInside(test, base, lo, hi, g.k0, g.d0);
    var first := FirstTried(g.k0);
    if Ps(first, 0) > hi {
      EndsAtOnce(test, lo, hi, g);
    } else {
      assert At(test, base, first, 0);
      LeftEnd(test, lo, hi, g);
      RightStep(test, lo, hi, g);
      RightDelay(test, lo, hi, g);
    }
  }

  lemma LeftEnd(test: ReadTest, lo: int, hi: int, g: Measure)
    requires Unrolled(test, g.base, lo, hi) && PhasesMeasured(test, g, g.bgn) && Ps(FirstTried(g.k0), 0) <= hi
    requires 1 <= g.k0 <= 127 && lo <= 312 * g.k0 < lo + (if g.k0 % 8 == 1 then 624 else 312)
    ensures lo <= g.bgn < lo + (if g.k0 % 8 == 1 then 624 else 25)
  {
    hide At;
    assert At(test, g.base, FirstTried(g.k0), 0);
    if g.k0 % 8 != 1 {
      if EntersAt(test, g.base, g.k0 - 1, g.bgn) {
        var d :| PassesFirst(test, g.base, g.k0 - 1, d) && g.bgn == Ps(g.k0 - 1, d);
        assert At(test, g.base, g.k0 - 1, d);
        assert d > 0 ==> !At(test, g.base, g.k0 - 1, d - 1);
      } else {
        assert !At(test, g.base, g.k0 - 1, 12);
      }
    }
  }

  /** The first step tried already fails, and so does the next: the range is a single phase tap. */
  lemma EndsAtOnce(test: ReadTest, lo: int, hi: int, g: Measure)
    requires Unrolled(test, g.base, lo, hi) && Measured(test, g) && g.d0 == 0
    requires 0 <= g.base < 16 && !test(g.base, 1, 0) && 1 <= g.k0 <= 127 && lo <= 312 * g.k0
    requires var first := FirstTried(g.k0); Usable(first) && Usable(first + 1) && Ps(first, 0) > hi
    requires Ps(FirstTried(g.k0) + 1, 0) < lo + RING
    ensures g.bgn == g.end == Ps(g.k0 + 1, 0) && g.last == FirstTried(g.k0) && g.dEnd == 0
  {
    hide At, LeftEdge;
    var first := FirstTried(g.k0);
    assert !At(test, g.base, first, 0) && !At(test, g.base, first + 1, 0);
    assert g.fail == first + 1 by { assert g.fail > first + 1 ==> At(test, g.base, first + 1, 0); }
    assert g.last == first;
    assert g.dEnd == 0;
  }

  /** The last usable step kept is the last one inside the window. */
  lemma RightStep(test: ReadTest, lo: int, hi: int, g: Measure)
    requires Unrolled(test, g.base, lo, hi) && PhasesMeasured(test, g, g.bgn)
    requires 0 <= g.base < 16 && !test(g.base, 1, 0) && 1 <= g.k0 <= 127
    requires lo <= 312 * g.k0 < lo + 624 && Ps(FirstTried(g.k0), 0) <= hi
    ensures g.k0 <= g.last && 312 * g.last <= hi < 312 * g.last + 624
    ensures g.last % 8 != 7 ==> hi < 312 * g.last + 312
  {
    hide At, LeftEdge;
    var first := FirstTried(g.k0);
    if g.fail > 129 {
      RingCloses(test, g.base, first, g.fail);
    }
    assert !At(test, g.base, g.fail, 0) && Ps(g.fail, 0) < lo + RING;
    if g.last > first {
      assert At(test, g.base, g.last, 0);
    }
  }

  lemma RightDelay(test: ReadTest, lo: int, hi: int, g: Measure)
    requires Unrolled(test, g.base, lo, hi) && Measured(test, g) && g.d0 == 0
    requires 1 <= g.last && lo <= 312 * g.last <= hi < 312 * g.last + 624
    ensures 1 <= g.dEnd <= 31 && Ps(g.last, g.dEnd - 1) <= hi < Ps(g.last, g.dEnd)
  {
    hide At, FirstPass, PhasesMeasured;
    var e := (hi - 312 * g.last) / 25 + 1;
    assert !At(test, g.base, g.last, e) by { assert Ps(g.last, e) < lo + RING; }
    assert At(test, g.base, g.last, 0) by { assert Ps(g.last, 0) == 312 * g.last; }
    if g.dEnd <= 31 {
      assert !At(test, g.base, g.last, g.dEnd) && At(test, g.base, g.last, g.dEnd - 1);
    }
  }

  /** The centre of a recorded range, rounded up or moved up to the first phase tap, stays left of hi. */
  predicate CentreFits(hi: int, bgn: int, end: int) {
    bgn + end + 622 <= 2 * hi || (bgn == end && bgn % 2496 == 624 && bgn + 13 <= hi)
  }

  lemma RangeFits(test: ReadTest, lo: int, hi: int, g: Measure)
    requires Unrolled(test, g.base, lo, hi) && hi - lo >= 948 && Measured(test, g)
    requires 0 <= g.base < 16 && !test(g.base, 1, 0)
    ensures lo <= g.bgn <= g.end && CentreFits(hi, g.bgn, g.end)
  {
    hide Measured, Unrolled;
    MeasuresTheWindow(test, lo, hi, g);
    MeasuredRange(test, g);
  }

  /** Unfolded again, the centre is at or after the middle of the range and not past hi. */
  lemma CentreUnfolded(hi: int, bgn: int, end: int, phase: int, delay: int) returns (z: int)
    requires 0 < bgn <= end && CentreFits(hi, bgn, end) && IsCentre(bgn, end, phase, delay)
    ensures 0 <= z && (bgn + end) / 2 <= Ps(8 * z + phase, delay) <= hi
  {
    var mid0 := (bgn + end) / 2;
    z := (mid0 - 1) / 2496;
    var mid := (mid0 - 1) % 2496 + 1;
    assert mid0 == 2496 * z + mid;
    if bgn + end + 622 > 2 * hi {
      assert mid0 == bgn == 2496 * (bgn / 2496) + 624;
      Folded(bgn / 2496, 624);
    }
    assert mid <= Ps(phase, delay) <= mid + (if mid == 624 then 24 else 311);
    assert mid == 624 ==> phase == 1 && delay == 13;
    assert Ps(8 * z + phase, delay) == 2496 * z + Ps(phase, delay);
  }

  lemma Folded(cycles: int, mid: int)
    requires 0 < mid <= 2496
    ensures (2496 * cycles + mid - 1) % 2496 + 1 == mid
  {
  }

  /** The centre programmed lies in the window at some pointer. */
  lemma CentreIsInside(test: ReadTest, base: int, lo: int, hi: int, bgn: int, end: int, phase: int, delay: int)
    returns (z: int)
    requires Unrolled(test, base, lo, hi)
    requires lo <= bgn <= end && CentreFits(hi, bgn, end) && IsCentre(bgn, end, phase, delay)
    ensures 0 <= Cycle(base, z) < 16 && test(Cycle(base, z), phase, delay)
  {
    assert 1 <= phase <= 7 && 0 <= delay <= 31;
    hide At, IsCentre, CentreFits;
    z := CentreUnfolded(hi, bgn, end, phase, delay);
    AtPhase(test, base, z, phase, delay);
    assert At(test, base, 8 * z + phase, delay);
  }

  /** At least two cycles fail at the first step. */
  lemma TwoCyclesFail(test: ReadTest, a: int, width: int)
    requires PassesOnArc(test, a, width) && 0 <= width < RING - 4992
    ensures TwoFail(test)
  {
    // the two cycles visited last before the arc comes round again
    var s := (a - 312 - 1) / 2496;
    var x, y := s % 16, (s - 1) % 16;
    FailsJustBefore(test, a, width, s);
    FailsJustBefore(test, a, width, s - 1);
    assert x < y || y < x;
  }

  lemma FailsJustBefore(test: ReadTest, a: int, width: int, s: int)
    requires PassesOnArc(test, a, width) && 0 <= width < RING - 4992
    requires a - 4992 <= 312 + 2496 * s < a
    ensures !test(s % 16, 1, 0)
  {
    var z := s / 16;
    assert Ps(8 * (s % 16) + 1, 0) - a == 312 + 2496 * s - a + RING * (-z);
    TurnsDoNotMatter(312 + 2496 * s - a, -z);
  }

  /** Whatever the starting pointer, every window of 948 ps or more that leaves two cycles out is found. */
  lemma WideWindowIsFound(test: ReadTest, a: int, width: int, r: Outcome, g: Measure, pointer: int, phase: int, delay: int)
    requires PassesOnArc(test, a, width) && 948 <= width < RING - 4992
    requires Calibrated(test, r, g, pointer, phase, delay)
    ensures r == Programmed && test(pointer, phase, delay)
  {
    hide At, PassesOnArc, Unrolled, Measured, IsCentre, TwoFail, CentreFits;
    TwoCyclesFail(test, a, width);
    var lo := Unroll(test, a, width, g.base);
    SomethingPasses(test, g.base, lo, lo + width);
    if r == NoCentre {
      RangeFits(test, lo, lo + width, g);
      var z := CentreIsInside(test, g.base, lo, lo + width, g.bgn, g.end, phase, delay);
    }
  }

  /** The only usable steps inside such a window are phases 1 and 2 of one cycle, and the search begins at one of them. */
  lemma BeginsAtTheEnd(test: ReadTest, base: int, lo: int, hi: int, k0: int, d0: int)
    requires Unrolled(test, base, lo, hi) && FirstPass(test, base, k0, d0) && 0 <= hi - lo < 948
    requires lo % 2496 == (3132 - (hi - lo)) % 2496
    ensures d0 == 0 && 1 <= k0 <= 127 && (k0 % 8 == 1 || k0 % 8 == 2)
    ensures lo <= 312 * k0 && Ps(k0, 0) <= hi < Ps(FirstTried(k0), 0) < lo + RING - 312
  {
    hide At;
    var t := (hi - 3132) / 2496;
    EndOfWindow(lo, hi);
    assert lo <= Ps(k0, d0) <= hi by { assert At(test, base, k0, d0); }
    assert At(test, base, 8 * t + 10, 0) <==> lo <= Ps(8 * t + 10, 0) <= hi;
    StepAtTheEnd(lo, hi, t, k0, d0);
  }

  lemma StepAtTheEnd(lo: int, hi: int, t: int, k0: int, d0: int)
    requires hi == 3132 + 2496 * t && 0 <= hi - lo < 948 && lo <= Ps(k0, d0) <= hi && 0 <= d0 <= 12 && Usable(k0)
    ensures k0 == 8 * t + 9 || k0 == 8 * t + 10 || (d0 > 0 && lo <= Ps(8 * t + 10, 0))
    ensures d0 > 0 ==> lo <= Ps(8 * t + 10, 0)
    ensures k0 == 8 * t + 9 ==> k0 % 8 == 1
    ensures k0 == 8 * t + 10 ==> k0 % 8 == 2
  {
    var k := k0 - 8 * t;
    assert 7 <= k <= 10;
    StepsOfCycle(t);
  }

  lemma StepsOfCycle(t: int)
    ensures (8 * t + 8) % 8 == 0 && (8 * t + 9) % 8 == 1 && (8 * t + 10) % 8 == 2
  {
  }

  lemma EndOfWindow(lo: int, hi: int)
    requires lo % 2496 == (3132 - (hi - lo)) % 2496
    ensures hi == 3132 + 2496 * ((hi - 3132) / 2496)
  {
    assert lo - (3132 - (hi - lo)) == hi - 3132;
  }

  lemma PhaseTwoPasses(test: ReadTest, width: int)
    requires PassesOnArc(test, 3132 - width, width) && 12 <= width < 948
    ensures test(1, 2, 0)
  {
    assert InArc(3132 - width, width, 3120);
    hide InArc;
    assert Ps(8 * 1 + 2, 0) == 3120;
  }

  lemma ArcDecides(test: ReadTest, a: int, width: int, v: int, p: int, d: int)
    requires PassesOnArc(test, a, width) && 0 <= v < 16 && 0 <= p <= 7 && 0 <= d <= 31
    ensures test(v, p, d) <==> InArc(a, width, Ps(8 * v + p, d))
  {
    hide InArc, Ps;
  }

  lemma CentreIsOutside(k0: int, bgn: int, phase: int, delay: int, v: int, width: int)
    requires (k0 % 8 == 1 || k0 % 8 == 2) && 1 <= k0 && bgn == Ps(k0 + 1, 0) && IsCentre(bgn, bgn, phase, delay)
    requires 0 <= v < 16 && 0 <= width < 948
    ensures !InArc(3132 - width, width, Ps(8 * v + phase, delay)) && 1 <= phase <= 7 && 0 <= delay <= 31
  {
    var r := k0 % 8;
    assert bgn == 2496 * (k0 / 8) + 312 * (r + 1);
    assert (bgn - 1) % 2496 + 1 == 312 * (r + 1) by { Folded(k0 / 8, 312 * (r + 1)); }
    assert phase == r && delay == 13;
    assert Ps(8 * v + phase, delay) == 2496 * v + 312 * r + 325;
  }

  /** The bound is sharp: of every smaller width, the window that ends 12 ps after phase 2 of the second cycle is missed,
      whatever the starting pointer, although from 12 ps on a usable setting passes. */
  lemma NarrowWindowIsMissed(test: ReadTest, width: int, r: Outcome, g: Measure, pointer: int, phase: int, delay: int)
    requires PassesOnArc(test, 3132 - width, width) && 0 <= width < 948
    requires Calibrated(test, r, g, pointer, phase, delay) && 0 <= pointer < 16
    ensures r != Programmed
    ensures width >= 12 ==> test(1, 2, 0)
  {
    hide At, Unrolled, FirstPass, PhasesMeasured, IsCentre, TwoFail, PassesOnArc, InArc;
    if width >= 12 {
      PhaseTwoPasses(test, width);
    }
    if r == Programmed {
      var lo := Unroll(test, 3132 - width, width, g.base);
      BeginsAtTheEnd(test, g.base, lo, lo + width, g.k0, g.d0);
      EndsAtOnce(test, lo, lo + width, g);
      CentreIsOutside(g.k0, g.bgn, phase, delay, pointer, width);
      ArcDecides(test, 3132 - width, width, pointer, phase, delay);
    }
  }

  lemma WideArcTakesIn(width: int, v: int)
    requires width >= RING - 4992 && 0 <= v < 16 && v != 1
    ensures InArc(312 - width, width, Ps(8 * v + 1, 0))
  {
    var turn := if v == 0 then 0 else RING;
    var x := 2496 * v + width - turn;
    assert Ps(8 * v + 1, 0) - (312 - width) == x + turn;
    TurnsDoNotMatter(x, if v == 0 then 0 else 1);
    AtMost(x);
  }

  lemma AtMost(x: nat)
    ensures x % RING <= x
  {
  }

  /** The other bound is sharp too: of every greater width, the window that ends at the first step of a cycle leaves one
      failing cycle only, and the search does not start. */
  lemma WiderWindowIsMissed(test: ReadTest, width: int, r: Outcome, g: Measure, pointer: int, phase: int, delay: int)
    requires PassesOnArc(test, 312 - width, width) && width >= RING - 4992
    requires Calibrated(test, r, g, pointer, phase, delay)
    ensures r == NoFailingRead
  {
    hide InArc;
    forall v | 0 <= v < 16 && v != 1 ensures test(v, 1, 0) {
      WideArcTakesIn(width, v);
    }
  }

  /** The number of delay taps per phase tap reported for tracking, for every window of two phase taps or more. Where
      the search found the end from inside the window, the number is right unless the last step is at phase 1: the step
      before is then two phase taps back, and twice the number is reported if the delay chain still reaches the edge from
      there. Where the first step tried was past the window, the number is what is left of the window after the step
      before, down to a single tap, or the static value if that step is past the window too. */
  lemma TrackedTaps(test: ReadTest, lo: int, hi: int, g: Measure, n: int)
    requires Unrolled(test, g.base, lo, hi) && hi - lo >= 624 && Measured(test, g)
    requires 0 <= g.base < 16 && !test(g.base, 1, 0)
    requires Tracked(test, g.base, Previous(g.last, g.last % 8), g.dEnd, 12, n)
    ensures Ps(FirstTried(g.k0), 0) <= hi ==>
              if g.last % 8 == 1 && Ps(g.last - 2, 31) > hi then 24 <= n <= 25 else 12 <= n <= 13
    ensures Ps(FirstTried(g.k0), 0) > hi ==>
              g.k0 % 8 == 1 && n == if Ps(g.k0 + 1, 0) <= hi then (hi - Ps(g.k0 + 1, 0)) / 25 + 1 else 12
    ensures 12 <= n <= 13 <==>
              if Ps(FirstTried(g.k0), 0) <= hi then g.last % 8 != 1 || Ps(g.last - 2, 31) <= hi
              else Ps(g.k0 + 1, 0) > hi || Ps(g.k0 + 1, 11) <= hi
  {
    hide At, FirstPass, Unrolled, Tracked;
    BeginsInside(test, g.base, lo, hi, g.k0, g.d0);
    if Ps(FirstTried(g.k0), 0) > hi {
      hide PhasesMeasured;
      assert hi < lo + RING - 4992 by { ArcLength(test, g.base, lo, hi); }
      EndsAtOnce(test, lo, hi, g);
      TrackedAtOnce(test, g.base, lo, hi, g.k0 + 1, n);
    } else {
      RightStep(test, lo, hi, g);
      RightDelay(test, lo, hi, g);
      hide PhasesMeasured, Measured, FirstTried;
      TrackedInside(test, g.base, lo, hi, g.last, g.dEnd, n);
    }
  }

  /** From any pointer, the window of 948 ps at 2185 ps is calibrated, and a single tap per phase tap is reported. */
  lemma TrackedAsOne(test: ReadTest, r: Outcome, g: Measure, pointer: int, phase: int, delay: int, n: int)
    requires PassesOnArc(test, 2185, 948) && Calibrated(test, r, g, pointer, phase, delay)
    requires r == Programmed ==> Tracked(test, g.base, Previous(g.last, g.last % 8), g.dEnd, 12, n)
    ensures r == Programmed && n == 1
  {
    WideWindowIsFound(test, 2185, 948, r, g, pointer, phase, delay);
    hide At, Unrolled, PassesOnArc, IsCentre, TwoFail, Measured, Tracked, Previous;
    var lo := Unroll(test, 2185, 948, g.base);
    FirstOfTheLast(test, lo, g);
    TrackedTaps(test, lo, lo + 948, g, n);
  }

  lemma FirstOfTheLast(test: ReadTest, lo: int, g: Measure)
    requires Unrolled(test, g.base, lo, lo + 948) && Measured(test, g) && lo % 2496 == 2185
    ensures Ps(g.k0 + 1, 0) == lo + 935 && Ps(FirstTried(g.k0), 0) == lo + 1247
  {
    hide At, Unrolled, FirstPass, PhasesMeasured;
    BeginsInside(test, g.base, lo, lo + 948, g.k0, g.d0);
    hide Measured;
    var t := lo / 2496;
    assert lo == 2496 * t + 2185;
    StepsOfCycle(t);
    assert g.k0 == 8 * t + 9;
  }

  /** From any pointer, the window of 1972 ps at 936 ps is calibrated, and twice the number of taps is reported. */
  lemma TrackedDoubled(test: ReadTest, r: Outcome, g: Measure, pointer: int, phase: int, delay: int, n: int)
    requires PassesOnArc(test, 936, 1972) && Calibrated(test, r, g, pointer, phase, delay)
    requires r == Programmed ==> Tracked(test, g.base, Previous(g.last, g.last % 8), g.dEnd, 12, n)
    ensures r == Programmed && 24 <= n <= 25
  {
    WideWindowIsFound(test, 936, 1972, r, g, pointer, phase, delay);
    hide At, Unrolled, PassesOnArc, IsCentre, TwoFail, Measured, Tracked, Previous;
    var lo := Unroll(test, 936, 1972, g.base);
    LastAtPhaseOne(test, lo, g);
    TrackedTaps(test, lo, lo + 1972, g, n);
  }

  lemma LastAtPhaseOne(test: ReadTest, lo: int, g: Measure)
    requires Unrolled(test, g.base, lo, lo + 1972) && Measured(test, g) && lo % 2496 == 936
    requires 0 <= g.base < 16 && !test(g.base, 1, 0)
    ensures g.last % 8 == 1 && Ps(g.last, 0) == lo + 1872 && Ps(FirstTried(g.k0), 0) <= lo + 1972
  {
    hide At, Unrolled, FirstPass, PhasesMeasured;
    BeginsInside(test, g.base, lo, lo + 1972, g.k0, g.d0);
    RightStep(test, lo, lo + 1972, g);
    hide Measured;
    var t := lo / 2496;
    assert lo == 2496 * t + 936;
    StepsOfCycle(t);
    assert 8 * t + 7 <= g.last <= 8 * t + 9;
    assert (8 * t + 7) % 8 == 7;
  }

  lemma ArcLength(test: ReadTest, base: int, lo: int, hi: int)
    requires Unrolled(test, base, lo, hi)
    ensures 312 < lo <= hi < lo + RING - 4992
  {
  }

  /** The end was found at step last, delay dEnd, from inside the window. */
  lemma TrackedInside(test: ReadTest, base: int, lo: int, hi: int, last: int, dEnd: int, n: int)
    requires Unrolled(test, base, lo, hi) && hi - lo >= 624 && lo <= 312 * last && 1 <= dEnd <= 31
    requires Ps(last, dEnd - 1) <= hi < Ps(last, dEnd) && (last % 8 != 7 ==> hi < 312 * last + 312)
    requires Tracked(test, base, Previous(last, last % 8), dEnd, 12, n)
    ensures if last % 8 == 1 && Ps(last - 2, 31) > hi then 24 <= n <= 25 else 12 <= n <= 13
  {
    hide Tracked;
    ArcLength(test, base, lo, hi);
    hide Unrolled;
    var k := Previous(last, last % 8);
    assert k == if last % 8 == 1 then last - 2 else last - 1;
    hide Previous;
    TrackedFrom(test, base, lo, hi, k, dEnd, n);
  }

  /** Seen from step k, less than one phase tap before the end of the window or past it, from delay 0 on. */
  lemma TrackedAtOnce(test: ReadTest, base: int, lo: int, hi: int, k: int, n: int)
    requires Unrolled(test, base, lo, hi) && 1 <= k && lo <= Ps(k, 0) && hi < Ps(k + 1, 0)
    requires Ps(k, 31) < lo + RING && Tracked(test, base, k, 0, 12, n)
    ensures n == if Ps(k, 0) <= hi then (hi - Ps(k, 0)) / 25 + 1 else 12
  {
    hide At;
    if Ps(k, 0) <= hi {
      TrackedFrom(test, base, lo, hi, k, 0, n);
    } else {
      EdgesNeedAPass(test, base, k, 0);
    }
  }

  lemma EdgesNeedAPass(test: ReadTest, base: int, k: int, d0: int)
    ensures forall a, f | Edges(test, base, k, d0, a, f) :: d0 <= a < f && At(test, base, k, a)
  {
    hide At;
  }

  /** Seen from step k and a delay that passes, the number tracked ends at the right end of the window. */
  lemma TrackedFrom(test: ReadTest, base: int, lo: int, hi: int, k: int, d0: int, n: int)
    requires Unrolled(test, base, lo, hi) && 1 <= k && 0 <= d0 <= 31 && lo <= Ps(k, d0) <= hi
    requires Ps(k, 31) < lo + RING && Tracked(test, base, k, d0, 12, n)
    ensures if Ps(k, 31) <= hi then n == 12 else Ps(k, d0 + n - 1) <= hi < Ps(k, d0 + n)
  {
    hide At;
    var edge := (hi - 312 * k) / 25 + 1;
    assert Ps(k, 31) > hi ==> Edges(test, base, k, d0, d0, edge);
    if a, f :| Edges(test, base, k, d0, a, f) && f <= 31 && n == f - d0 {
      assert At(test, base, k, d0);
      assert At(test, base, k, f - 1) && !At(test, base, k, f);
    }
  }
}
