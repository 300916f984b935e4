/** The DQS-enable calibration: a VFIFO pointer of 16 read cycles, 8 phase taps of 312 ps in each, and 32 delay
    taps of 25 ps. The search finds the window in which reads pass and programs its centre. */
module DqsEnable {

  /** Pointer, phase and delay are passed to the hardware read test; any verdicts are possible. */
  type ReadTest = (int, int, int) -> bool

  /** The test k phase steps after pointer base at phase 0: pointer and phase together are one counter. */
  predicate At(test: ReadTest, base: int, k: int, d: int) {
    test(Cycle(base, k / 8), k % 8, d)
  }

  /** The pointer q cycles after base. */
  function Cycle(base: int, q: int): int { (base + q) % 16 }

  lemma AtPhase(test: ReadTest, base: int, q: int, p: int, d: int)
    requires 0 <= p <= 7
    ensures At(test, base, 8 * q + p, d) == test(Cycle(base, q), p, d)
    ensures Usable(8 * q + p) <==> p != 0
  {
  }

  lemma NextCycle(base: int, q: int)
    ensures Cycle(base, q + 1) == (Cycle(base, q) + 1) % 16
    ensures 0 <= Cycle(base, q) < 16
  {
  }

  /** The test j cycles after pointer base, at the phase and delay of the first step. */
  predicate PassesAt(test: ReadTest, base: int, j: int) {
    test(Cycle(base, j), 1, 0)
  }

  /** Two of the sixteen cycles fail at the first step: what step 1 waits for. */
  ghost predicate TwoFail(test: ReadTest) {
    exists x, y :: 0 <= x < y < 16 && !test(x, 1, 0) && !test(y, 1, 0)
  }

  lemma FailsTwice(test: ReadTest, base: int, i: int, j: int)
    requires 0 <= i < j < 16 && !PassesAt(test, base, i) && !PassesAt(test, base, j)
    ensures TwoFail(test)
  {
    var (x, y) := (Cycle(base, i), Cycle(base, j));
    assert x < y || y < x;
  }

  /** Picoseconds after pointer base, phase 0, delay 0. */
  function Ps(k: int, d: int): int { 312 * k + 25 * d }

  /** A phase step the search may use: phase 0 cannot be set on this hardware. */
  predicate Usable(k: int) { k % 8 != 0 }

  /** (k0, d0) is the first passing setting in the order of the search: by delay, then by phase step. */
  ghost predicate FirstPass(test: ReadTest, base: int, k0: int, d0: int) {
    && 0 <= d0 <= 12 && 0 <= k0 < 128 && Usable(k0) && At(test, base, k0, d0)
    && (forall k, d | 0 <= d < d0 && 0 <= k < 128 && Usable(k) :: !At(test, base, k, d))
    && (forall k | 0 <= k < k0 && Usable(k) :: !At(test, base, k, d0))
  }

  ghost predicate NothingPasses(test: ReadTest, base: int) {
    forall k, d | 0 <= d <= 12 && 0 <= k < 128 && Usable(k) :: !At(test, base, k, d)
  }

  /** The source lands one phase step too far after it backs off from a first pass at phase 1. */
  function Slip(p0: int): int { if p0 == 1 then 1 else 0 }

  ghost predicate FailsBelow(test: ReadTest, base: int, k: int, d: int) {
    forall e | 0 <= e < d :: !At(test, base, k, e)
  }

  /** The first pass at phase step k is d delay taps in. */
  ghost predicate PassesFirst(test: ReadTest, base: int, k: int, d: int) {
    0 <= d <= 12 && At(test, base, k, d) && FailsBelow(test, base, k, d)
  }

  /** Step 3a: from a first pass at (k0, 0), the left edge found by backing off one phase tap. */
  ghost predicate LeftEdge(test: ReadTest, base: int, k0: int, p0: int, bgn: int) {
    if p0 == 1 then bgn == Ps(k0, 0)
    else
      || (bgn == Ps(k0, 0) && FailsBelow(test, base, k0 - 1, 13))
      || EntersAt(test, base, k0 - 1, bgn)
  }

  ghost predicate EntersAt(test: ReadTest, base: int, k: int, bgn: int) {
    exists d :: PassesFirst(test, base, k, d) && bgn == Ps(k, d)
  }

  /** Step 4a: going forward from step k, the first failure is at end; a failure of k itself is forgiven. */
  ghost predicate FailsFirstAt(test: ReadTest, base: int, k: int, end: int) {
    k < end && Usable(end) && !At(test, base, end, 0) && PassesBetween(test, base, k, end)
  }

  ghost predicate PassesBetween(test: ReadTest, base: int, k: int, end: int) {
    forall j | k < j < end && Usable(j) :: At(test, base, j, 0)
  }

  /** At step k and delays from d0 on, reads fail up to delay a, then pass up to delay f, where they fail. */
  ghost predicate Edges(test: ReadTest, base: int, k: int, d0: int, a: int, f: int) {
    && d0 <= a < f
    && (forall e | d0 <= e < a :: !At(test, base, k, e))
    && (forall e | a <= e < f :: At(test, base, k, e))
    && !At(test, base, k, f)
  }

  /** n is the distance from d0 to the failing edge seen from step k, or the static value when no edge shows. */
  ghost predicate Tracked(test: ReadTest, base: int, k: int, d0: int, dtaps: int, n: int) {
    || (exists a, f :: Edges(test, base, k, d0, a, f) && f <= 31 && n == f - d0)
    || (n == dtaps && forall a, f | f <= 31 :: !Edges(test, base, k, d0, a, f))
  }

  /** The usable step before step k, which is at phase p. */
  function Previous(k: int, p: int): int { if p == 1 then k - 2 else k - 1 }

  class Enable {
    const test: ReadTest
    var pointer: int
    var phase: int
    var delay: int
    var dtapsPerPtap: int           // reported for tracking

    ghost predicate Valid()
      reads this
    {
      0 <= pointer < 16 && 0 <= phase <= 7 && 0 <= delay <= 31
    }

    constructor (test: ReadTest, pointer: int)
      requires 0 <= pointer < 16
      ensures Valid() && this.test == test && this.pointer == pointer
    {
      this.test := test;
      this.pointer, phase, delay, dtapsPerPtap := pointer, 0, 0, 0;
    }

    method Read() returns (pass: bool)
      ensures pass == test(pointer, phase, delay)
    {
      pass := test(pointer, phase, delay);
    }

    method IncrVfifo()
      requires Valid()
      modifies `pointer
      ensures Valid() && pointer == (old(pointer) + 1) % 16
    {
      pointer := (pointer + 1) % 16;
    }

    /** The pointer only moves forward: going back one cycle is going forward fifteen. */
    method DecrVfifo()
      requires Valid()
      modifies `pointer
      ensures Valid() && old(pointer) == (pointer + 1) % 16
    {
      for i := 0 to 15
        invariant Valid() && pointer == Cycle(old(pointer), i)
      {
        NextCycle(old(pointer), i);
        IncrVfifo();
      }
    }

    /** Step 1: push the pointer until the second failing read. */
    method FindFailingRead() returns (ok: bool)
      requires Valid() && phase == 1 && delay == 0
      modifies `pointer
      ensures Valid()
      ensures ok <==> TwoFail(test)
      ensures ok ==> !test(pointer, 1, 0)
    {
      var v, failCnt := 0, 0;
      ghost var base := pointer;
      hide Cycle;
      CycleReached(base, base);
      ghost var failed := -1;
      while v < 16
        invariant 0 <= v <= 16 && 0 <= failCnt <= 1 && Valid() && pointer == Cycle(base, v)
        invariant failCnt == 0 <==> failed == -1
        invariant failed == -1 || (0 <= failed < v && !PassesAt(test, base, failed))
        invariant forall j | 0 <= j < v && j != failed :: PassesAt(test, base, j)
      {
        var pass := Read();
        if !pass {
          failCnt := failCnt + 1;
          if failCnt == 2 {
            FailsTwice(test, base, failed, v);
            return true;
          }
          failed := v;
        }
        NextCycle(base, v);
        IncrVfifo();
        v := v + 1;
      }
      forall x, y | 0 <= x < y < 16 ensures test(x, 1, 0) || test(y, 1, 0) {
        var i, j := (x - base) % 16, (y - base) % 16;
        CycleReached(base, x);
        CycleReached(base, y);
        assert PassesAt(test, base, i) || PassesAt(test, base, j);
      }
      return false;
    }

    /** Step 2, inner sweep: the phases 1..7 of the current pointer. */
    method SweepPhases(ghost base: int, i: int, d: int, workBgn0: int) returns (found: bool, p: int, workBgn: int)
      requires Valid() && 0 <= i && pointer == Cycle(base, i) && delay == d
      modifies `phase
      ensures Valid() && workBgn == workBgn0 + 312 * p
      ensures found ==> 1 <= p <= 7 && phase == p && At(test, base, 8 * i + p, d)
      ensures !found ==> p == 8
      ensures forall k | 8 * i <= k < 8 * i + p && Usable(k) :: !At(test, base, k, d)
    {
      hide At, Cycle, Usable;
      found, p, workBgn := false, 0, workBgn0;
      while p <= 7
        invariant 0 <= p <= 8 && Valid() && workBgn == workBgn0 + 312 * p
        invariant forall k | 8 * i <= k < 8 * i + p && Usable(k) :: !At(test, base, k, d)
      {
        AtPhase(test, base, i, p, d);
        if p != 0 {
          phase := p;
          found := Read();
          if found {
            return;
          }
        }
        p, workBgn := p + 1, workBgn + 312;
      }
    }

    /** Step 2, middle sweep: every pointer at one delay. A full sweep brings the pointer back. */
    method SweepPointers(ghost base: int, d: int, workBgn0: int) returns (found: bool, i: int, p: int, workBgn: int)
      requires Valid() && 0 <= base < 16 && pointer == base && delay == d
      modifies `phase, `pointer
      ensures Valid() && (found ==> 0 <= i < 16 && pointer == Cycle(base, i))
      ensures found ==> 1 <= p <= 7 && phase == p && workBgn == workBgn0 + 312 * (8 * i + p) && At(test, base, 8 * i + p, d)
      ensures found ==> forall k | 0 <= k < 8 * i + p && Usable(k) :: !At(test, base, k, d)
      ensures !found ==> pointer == base && forall k | 0 <= k < 128 && Usable(k) :: !At(test, base, k, d)
    {
      hide At, Cycle, Usable;
      CycleReached(base, base);
      found, i, p, workBgn := false, 0, 0, workBgn0;
      while i < 16
        invariant 0 <= i <= 16 && Valid() && pointer == Cycle(base, i) && workBgn == workBgn0 + 312 * (8 * i)
        invariant forall k | 0 <= k < 8 * i && Usable(k) :: !At(test, base, k, d)
      {
        found, p, workBgn := SweepPhases(base, i, d, workBgn);
        if found {
          return;
        }
        NextCycle(base, i);
        IncrVfifo();
        i := i + 1;
      }
      FullTurn(base);
    }

    /** Step 2: the first passing setting, delay tap by delay tap up to one phase tap. */
    method FindBegin(dtapsPerPtap: int) returns (found: bool, d: int, i: int, p: int, workBgn: int)
      requires Valid() && dtapsPerPtap == 12
      modifies this
      ensures Valid()
      ensures found ==>
                && 0 <= i < 16 && 1 <= p <= 7 && pointer == Cycle(old(pointer), i) && phase == p && delay == d
                && FirstPass(test, old(pointer), 8 * i + p, d) && workBgn == Ps(8 * i + p, d)
      ensures !found ==> NothingPasses(test, old(pointer)) && pointer == old(pointer)
    {
      hide At, Cycle, Usable;
      found, d, i, p, workBgn := false, 0, 0, 0, 0;
      ghost var base := pointer;
      var tmpDelay := 0;
      while d <= dtapsPerPtap
        invariant 0 <= d <= 13 && Valid() && pointer == base && tmpDelay == 25 * d
        invariant forall k, e | 0 <= e < d && 0 <= k < 128 && Usable(k) :: !At(test, base, k, e)
      {
        delay := d;
        found, i, p, workBgn := SweepPointers(base, d, tmpDelay);
        if found {
          AtPhase(test, base, i, p, d);
          return;
        }
        d, tmpDelay := d + 1, tmpDelay + 25;
      }
    }

    /** One phase tap back. */
    method PreviousPhase(p: int) returns (q: int)
      requires Valid() && 0 <= p <= 7
      modifies `pointer
      ensures Valid() && 0 <= q <= 7
      ensures p == 0 ==> q == 7 && old(pointer) == (pointer + 1) % 16
      ensures p != 0 ==> q == p - 1 && pointer == old(pointer)
    {
      if p == 0 {
        q := 7;
        DecrVfifo();
      } else {
        q := p - 1;
      }
    }

    /** One phase tap forward. */
    method NextPhase(p: int) returns (q: int)
      requires Valid() && 0 <= p <= 7
      modifies `pointer
      ensures Valid() && 0 <= q <= 7
      ensures p == 7 ==> q == 0 && pointer == (old(pointer) + 1) % 16
      ensures p != 7 ==> q == p + 1 && pointer == old(pointer)
    {
      q := p + 1;
      if q > 7 {
        q := 0;
        IncrVfifo();
      }
    }

    /** Step 3a: back off one phase tap and come forward in delay taps. */
    method FindLeftEdge(ghost base: int, ghost q: int, p0: int, workBgn0: int) returns (p: int, workBgn: int)
      requires Valid() && 1 <= p0 <= 7 && pointer == Cycle(base, q) && workBgn0 == Ps(8 * q + p0, 0)
      modifies this
      ensures Valid() && pointer == old(pointer) && p == p0 - 1 + Slip(p0)
      ensures LeftEdge(test, base, 8 * q + p0, p0, workBgn)
    {
      hide At, Cycle, Usable;
      workBgn := workBgn0;
      p := PreviousPhase(p0);
      var tmpDelay := workBgn - 312;
      if p == 0 {
        p, tmpDelay := 1, workBgn;
      }
      phase := p;
      ghost var k := 8 * q + p0 - 1;
      var d := 0;
      while d <= 31 && tmpDelay < workBgn
        invariant Valid() && pointer == old(pointer) && phase == p
        invariant 0 <= d <= 13
        invariant p0 == 1 ==> d == 0 && tmpDelay == workBgn
        invariant p0 != 1 ==> tmpDelay == Ps(k, d) && FailsBelow(test, base, k, d)
      {
        delay := d;
        var pass := Read();
        AtPhase(test, base, q, p0 - 1, d);
        if pass {
          workBgn := tmpDelay;
          assert PassesFirst(test, base, k, d);
          return;
        }
        d, tmpDelay := d + 1, tmpDelay + 25;
      }
    }

    /** Step 4a, inner sweep: the phases left of the current pointer. The sweep as a whole began at step first. */
    method ForwardPhases(ghost base: int, ghost first: int, ghost q: int, p0: int, j0: int, slip: int,
                         workBgn0: int, workEnd0: int)
      returns (foundEnd: bool, p: int, j: int, workBgn: int, workEnd: int)
      requires Valid() && 0 <= p0 <= 7 && pointer == Cycle(base, q) && delay == 0
      requires first <= 8 * q + p0 && j0 == 8 * q + p0 - first && workEnd0 == Ps(8 * q + p0 - slip, 0)
      requires PassesBetween(test, base, first, 8 * q + p0)
      modifies `phase
      ensures Valid()
      ensures foundEnd ==> 1 <= p <= 7 && FailsFirstAt(test, base, first, 8 * q + p)
      ensures !foundEnd ==> p == 8 && PassesBetween(test, base, first, 8 * q + 8) && j == 8 * q + 8 - first
      ensures p0 <= p && workEnd == Ps(8 * q + p - slip, 0)
      ensures workBgn == if j0 == 0 && p0 != 0 && !At(test, base, first, 0) then Ps(first - slip, 0) else workBgn0
    {
      hide At, Cycle, Usable;
      foundEnd, p, j, workBgn, workEnd := false, p0, j0, workBgn0, workEnd0;
      while p <= 7
        invariant p0 <= p <= 8 && Valid() && workEnd == Ps(8 * q + p - slip, 0) && j == 8 * q + p - first
        invariant PassesBetween(test, base, first, 8 * q + p)
        invariant workBgn == if p > p0 && j0 == 0 && p0 != 0 && !At(test, base, first, 0)
                             then Ps(first - slip, 0) else workBgn0
      {
        j := j + 1;
        AtPhase(test, base, q, p, 0);
        if p != 0 {
          phase := p;
          var pass := Read();
          if !pass && j == 1 {
            workBgn := workEnd;
          } else if !pass {
            foundEnd := true;
            return;
          }
        }
        p, workEnd := p + 1, workEnd + 312;
      }
    }

    /** Step 4a: go forward in phase taps until reads fail. A failing read was left behind in step 1, one turn of
        the ring away, so the end is always found. */
    method FindRightPhase(ghost base: int, ghost q0: int, i0: int, p0: int, slip: int, workBgn0: int, workEnd0: int)
      returns (p: int, workBgn: int, workEnd: int, ghost q: int)
      requires Valid() && 0 <= i0 < 16 && 0 <= p0 <= 7 && i0 <= q0 && 8 * q0 + p0 < 129
      requires pointer == Cycle(base, q0) && delay == 0 && workEnd0 == Ps(8 * q0 + p0 - slip, 0)
      requires 0 <= base < 16 && !test(base, 1, 0)
      modifies this
      ensures Valid() && delay == 0 && 1 <= p <= 7 && q0 <= q && pointer == Cycle(base, q)
      ensures FailsFirstAt(test, base, 8 * q0 + p0, 8 * q + p)
      ensures workEnd == Ps(8 * q + p - slip, 0)
      ensures workBgn == if p0 != 0 && !At(test, base, 8 * q0 + p0, 0) then Ps(8 * q0 + p0 - slip, 0) else workBgn0
    {
      hide PassesBetween, FailsFirstAt, At, Cycle, Usable;
      var i, j := i0, 0;
      var foundEnd := false;
      ghost var first := 8 * q0 + p0;
      q := q0;
      p, workBgn, workEnd := p0, workBgn0, workEnd0;
      while i < 17
        invariant i0 <= i <= 17 && Valid() && delay == 0 && p == (if q == q0 then p0 else 0)
        invariant q == q0 + (i - i0) && pointer == Cycle(base, q)
        invariant j == 8 * q + p - first && workEnd == Ps(8 * q + p - slip, 0)
        invariant i > i0 ==> PassesBetween(test, base, first, 8 * q + p)
        invariant workBgn == if q > q0 && p0 != 0 && !At(test, base, first, 0) then Ps(first - slip, 0) else workBgn0
      {
        assert PassesBetween(test, base, first, first) by { NothingBetween(test, base, first); }
        foundEnd, p, j, workBgn, workEnd := ForwardPhases(base, first, q, p, j, slip, workBgn, workEnd);
        if foundEnd {
          return;
        }
        NextCycle(base, q);
        IncrVfifo();
        p, i, q := 0, i + 1, q + 1;
      }
      RingCloses(test, base, first, 8 * q);
      assert false;
    }

    /** Step 5a: back off to the last usable phase tap before the failure. */
    method BackToLastPhase(ghost base: int, ghost q0: int, p0: int, slip: int, workEnd0: int)
      returns (p: int, workEnd: int, ghost q: int)
      requires Valid() && 1 <= p0 <= 7 && pointer == Cycle(base, q0) && workEnd0 == Ps(8 * q0 + p0 - slip, 0)
      modifies `pointer, `phase
      ensures Valid() && p == phase && 1 <= p <= 7 && pointer == Cycle(base, q)
      ensures 8 * q + p == Previous(8 * q0 + p0, p0) && workEnd == Ps(8 * q + p - slip, 0)
    {
      hide Cycle;
      NextCycle(base, q0 - 1);
      p, workEnd := p0, workEnd0;
      if p == 1 {
        p, workEnd := 0, workEnd - 312;
      }
      q := if p == 0 then q0 - 1 else q0;
      p := PreviousPhase(p);
      workEnd := workEnd - 312;
      phase := p;
    }

    /** The delay-tap increment to the failing edge, and back to the last passing tap. */
    method FindRightDelay(ghost base: int, ghost q: int, ghost k: int, d0: int, workEnd0: int) returns (d: int, workEnd: int)
      requires Valid() && 0 <= d0 <= 31 && pointer == Cycle(base, q) && k == 8 * q + phase
      modifies `delay
      ensures Valid() && d0 <= d <= 32
      ensures forall e | d0 <= e < d :: At(test, base, k, e)
      ensures d <= 31 ==> !At(test, base, k, d)
      ensures workEnd == workEnd0 + 25 * (d - d0) - (if d == 0 then 0 else 25)
    {
      hide At, Cycle, Usable;
      d, workEnd := d0, workEnd0;
      while d <= 31
        invariant d0 <= d <= 32 && Valid() && workEnd == workEnd0 + 25 * (d - d0)
        invariant forall e | d0 <= e < d :: At(test, base, k, e)
      {
        delay := d;
        var pass := Read();
        AtPhase(test, base, q, phase, d);
        if !pass {
          break;
        }
        d, workEnd := d + 1, workEnd + 25;
      }
      if d != 0 {
        workEnd := workEnd - 25;
      }
    }

    /** The delay taps in one phase tap, for tracking: from the step before, on to the failing edge again. */
    method TrackDtaps(ghost base: int, ghost q: int, p0: int, d0: int, dtaps0: int)
      requires Valid() && 0 <= p0 <= 7 && 0 <= d0 <= 32 && pointer == Cycle(base, q)
      modifies this
      ensures Valid() && Tracked(test, base, Previous(8 * q + p0, p0), d0, dtaps0, dtapsPerPtap)
    {
      hide At, Cycle, Usable;
      var p := p0;
      ghost var k := Previous(8 * q + p0, p0);
      ghost var q1 := if p == 0 || p == 1 then q - 1 else q;
      NextCycle(base, q - 1);
      if p == 0 || p == 1 {
        p := 7;
        DecrVfifo();
      } else {
        p := p - 1;
      }
      phase := p;
      var foundPassing, foundFailing := false, false;
      var d := d0;
      while d <= 31 && !foundPassing
        invariant d0 <= d <= 32 && Valid() && pointer == Cycle(base, q1) && phase == p
        invariant forall e | d0 <= e < d :: !At(test, base, k, e)
        invariant foundPassing ==> d <= 31 && At(test, base, k, d)
        decreases 32 - d, !foundPassing
      {
        delay := d;
        foundPassing := Read();
        AtPhase(test, base, q1, p, d);
        if !foundPassing {
          d := d + 1;
        }
      }
      ghost var a := d;
      if foundPassing {
        d := d + 1;
        while d <= 31 && !foundFailing
          invariant a < d <= 32 && Valid() && pointer == Cycle(base, q1) && phase == p
          invariant forall e | a <= e < d :: At(test, base, k, e)
          invariant foundFailing ==> d <= 31 && !At(test, base, k, d)
          decreases 32 - d, !foundFailing
        {
          delay := d;
          var pass := Read();
          AtPhase(test, base, q1, p, d);
          foundFailing := !pass;
          if pass {
            d := d + 1;
          }
        }
      }
      if foundPassing && foundFailing {
        assert Edges(test, base, k, d0, a, d);
      } else {
        forall a', f | f <= 31 ensures !Edges(test, base, k, d0, a', f) {
          assert Edges(test, base, k, d0, a', f) ==> At(test, base, k, a') && a' == a;
        }
      }
      dtapsPerPtap := if foundPassing && foundFailing then d - d0 else dtaps0;
    }

    /** Step 6: program the middle of the window, folded into one VFIFO cycle. */
    method ProgramCentre(workBgn: int, workEnd: int)
      requires Valid() && 0 < workBgn <= workEnd
      modifies `phase, `delay
      ensures Valid() && IsCentre(workBgn, workEnd, phase, delay)
    {
      var workMid := FoldIntoCycle((workBgn + workEnd) / 2);
      var tmpDelay, p := 0, 0;
      while p <= 7 && tmpDelay < workMid
        invariant 0 <= p <= 8 && tmpDelay == 312 * p && (p > 0 ==> 312 * (p - 1) < workMid)
      {
        p, tmpDelay := p + 1, tmpDelay + 312;
      }
      tmpDelay := tmpDelay - 312;
      var d := 0;
      while d <= 31 && tmpDelay < workMid
        invariant 0 <= d <= 13 && tmpDelay == 312 * (p - 1) + 25 * d && (d > 0 ==> tmpDelay - 25 < workMid)
      {
        d, tmpDelay := d + 1, tmpDelay + 25;
      }
      if p == 1 {
        p, d := 2, 0;
      }
      phase, delay := p - 1, d;
    }

    /** Push the pointer until the programmed setting passes. */
    method FindCyclePointer() returns (ok: bool)
      requires Valid()
      modifies `pointer
      ensures Valid()
      ensures ok ==> test(pointer, phase, delay)
      ensures !ok ==> forall v | 0 <= v < 16 :: !test(v, phase, delay)
    {
      hide Cycle;
      ghost var base := pointer;
      CycleReached(base, base);
      var i := 0;
      while i < 16
        invariant 0 <= i <= 16 && Valid() && pointer == Cycle(base, i)
        invariant forall j | 0 <= j < i :: FailsAt(test, base, j, phase, delay)
      {
        var pass := Read();
        if pass {
          return true;
        }
        assert FailsAt(test, base, i, phase, delay);
        NextCycle(base, i);
        IncrVfifo();
        i := i + 1;
      }
      forall v | 0 <= v < 16 ensures !test(v, phase, delay) {
        CycleReached(base, v);
        assert FailsAt(test, base, (v - base) % 16, phase, delay);
      }
      return false;
    }

    /** The whole calibration. The source returns 1 for Programmed and 0 otherwise; it also returns 0 when no right
        edge is seen or when the range found is empty, which never happens. */
    method FindDqsEnPhase() returns (r: Outcome, ghost g: Measure)
      requires Valid()
      modifies this
      ensures Valid()
      ensures Calibrated(test, r, g, pointer, phase, delay)
      ensures r == NoCentre || r == Programmed ==>
                Tracked(test, g.base, Previous(g.last, g.last % 8), g.dEnd, 12, dtapsPerPtap)
    {
      hide At, Cycle, Usable, FirstPass, NothingPasses, IsCentre, Measured, Tracked, TwoFail, Previous;
      g := Measure(0, 0, 0, 0, 0, 0, 0, 0, 0);
      delay, phase := 0, 1;
      var dtaps := DtapsPerPtap();
      var failing := FindFailingRead();
      if !failing {
        return NoFailingRead, g;
      }
      g := g.(base := pointer);
      var found, d, i, p, workBgn := FindBegin(dtaps);
      if !found {
        return NothingFound, g;
      }
      g := g.(k0 := 8 * i + p, d0 := d, last := 8 * i + p);
      var workEnd;
      ghost var q;
      g, p, d, workBgn, workEnd, q := MeasureRange(g, i, p, d, workBgn);
      if workEnd < workBgn {
        assert false;
      }
      TrackDtaps(g.base, q, p, d, dtaps);
      ProgramCentre(workBgn, workEnd);
      var ok := FindCyclePointer();
      r := if ok then Programmed else NoCentre;
    }

    /** Steps 3 to 5: from the first pass to the range recorded. */
    method MeasureRange(ghost g0: Measure, i: int, p0: int, d0: int, workBgn0: int)
      returns (ghost g: Measure, p: int, d: int, workBgn: int, workEnd: int, ghost q: int)
      requires Valid() && 0 <= g0.base < 16 && !test(g0.base, 1, 0)
      requires 0 <= i < 16 && 1 <= p0 <= 7 && pointer == Cycle(g0.base, i) && phase == p0 && delay == d0
      requires g0.k0 == g0.last == 8 * i + p0 && g0.d0 == d0 && workBgn0 == Ps(g0.k0, d0)
      requires FirstPass(test, g0.base, g0.k0, d0)
      modifies this
      ensures Valid() && 1 <= p <= 7 && pointer == Cycle(g.base, q) && g.last == 8 * q + p
      ensures Measured(test, g) && g.base == g0.base && g.bgn == workBgn && g.end == workEnd && g.dEnd == d
      ensures 312 <= workBgn <= workEnd && 0 <= d <= 32
    {
      hide At, Cycle, FirstPass, FailsFirstAt, LeftEdge, Usable;
      g, p, d, workBgn, workEnd, q := g0, p0, d0, workBgn0, workBgn0, i;
      if d == 0 {
        g, p, workBgn, workEnd, q := MeasurePhases(g, i, p, workBgn);
      }
      d, workEnd := FindRightDelay(g.base, q, g.last, d, workEnd);
      g := g.(dEnd := d, bgn := workBgn, end := workEnd);
      MeasuredRange(test, g);
    }

    /** Steps 3a to 5a, when a whole phase tap passed without delay. */
    method MeasurePhases(ghost g0: Measure, i: int, p0: int, workBgn0: int)
      returns (ghost g: Measure, p: int, workBgn: int, workEnd: int, ghost q: int)
      requires Valid() && 0 <= g0.base < 16 && !test(g0.base, 1, 0)
      requires 0 <= i < 16 && 1 <= p0 <= 7 && pointer == Cycle(g0.base, i) && delay == 0
      requires g0.k0 == 8 * i + p0 && g0.d0 == 0 && workBgn0 == Ps(g0.k0, 0)
      modifies this
      ensures Valid() && phase == p && 1 <= p <= 7 && pointer == Cycle(g.base, q)
      ensures g == g0.(left := g.left, fail := g.fail, last := 8 * q + p)
      ensures PhasesMeasured(test, g, workBgn) && workEnd == Ps(g.last - Slip(g.k0 % 8), 0)
    {
      hide At, Cycle, FailsFirstAt, LeftEdge;
      g, q := g0, i;
      workEnd := workBgn0;
      p, workBgn := FindLeftEdge(g.base, i, p0, workBgn0);
      g := g.(left := workBgn);
      p, q := Step(g.base, q, p);
      delay := 0;
      p, q := Step(g.base, q, p);
      workEnd := workEnd + 312;
      assert 8 * q + p == FirstTried(g.k0);
      ghost var q1;
      p, workBgn, workEnd, q1 := FindRightPhase(g.base, q, i, p, Slip(p0), workBgn, workEnd);
      g := g.(fail := 8 * q1 + p);
      p, workEnd, q := BackToLastPhase(g.base, q1, p, Slip(p0), workEnd);
      g := g.(last := 8 * q + p);
    }

    /** One phase step forward on the ring. */
    method Step(ghost base: int, ghost q0: int, p0: int) returns (p: int, ghost q: int)
      requires Valid() && 0 <= p0 <= 7 && pointer == Cycle(base, q0)
      modifies `pointer
      ensures Valid() && 0 <= p <= 7 && pointer == Cycle(base, q) && 8 * q + p == 8 * q0 + p0 + 1
    {
      hide Cycle;
      NextCycle(base, q0);
      q := if p0 == 7 then q0 + 1 else q0;
      p := NextPhase(p0);
    }
  }

  datatype Outcome = NoFailingRead | NothingFound | NoCentre | Programmed

  /** What each outcome of the calibration means for the verdicts and for the registers left behind. */
  ghost predicate Calibrated(test: ReadTest, r: Outcome, g: Measure, pointer: int, phase: int, delay: int) {
    && (r == NoFailingRead <==> !TwoFail(test))
    && (r != NoFailingRead ==> 0 <= g.base < 16 && !test(g.base, 1, 0))
    && (r == NothingFound ==> NothingPasses(test, g.base))
    && (r == NoCentre || r == Programmed ==> Measured(test, g) && IsCentre(g.bgn, g.end, phase, delay))
    && (r == NoCentre ==> forall v | 0 <= v < 16 :: !test(v, phase, delay))
    && (r == Programmed ==> test(pointer, phase, delay))
  }

  /** What a run measured, in steps of the ring after pointer base: first pass (k0, d0), left edge before the fuzzy-edge
      correction, first failing step, last usable step before it, its first failing delay, and the range recorded. */
  datatype Measure = Measure(base: int, k0: int, d0: int, left: int, fail: int, last: int, dEnd: int, bgn: int, end: int)

  /** The first step tried on the way to the right edge. */
  function FirstTried(k0: int): int { k0 + 1 + Slip(k0 % 8) }

  ghost predicate PhasesMeasured(test: ReadTest, g: Measure, bgn: int) {
    var first := FirstTried(g.k0);
    && LeftEdge(test, g.base, g.k0, g.k0 % 8, g.left)
    && bgn == (if Usable(first) && !At(test, g.base, first, 0) then Ps(g.k0 + 1, 0) else g.left)
    && FailsFirstAt(test, g.base, first, g.fail)
    && g.last == Previous(g.fail, g.fail % 8)
  }

  /** The range recorded ends at the last passing delay of the last step, except that a slip at the start is never
      taken back: the recorded end is then one phase tap short of the setting it was found at. */
  ghost predicate Measured(test: ReadTest, g: Measure) {
    && FirstPass(test, g.base, g.k0, g.d0)
    && (g.d0 == 0 ==> PhasesMeasured(test, g, g.bgn))
    && (g.d0 != 0 ==> g.last == g.k0 && g.bgn == Ps(g.k0, g.d0))
    && g.d0 <= g.dEnd <= 32
    && (forall e | g.d0 <= e < g.dEnd :: At(test, g.base, g.last, e))
    && (g.dEnd <= 31 ==> !At(test, g.base, g.last, g.dEnd))
    && g.end == Ps(g.last - (if g.d0 == 0 then Slip(g.k0 % 8) else 0), if g.dEnd == 0 then 0 else g.dEnd - 1)
  }

  lemma PhasesRange(test: ReadTest, g: Measure, bgn: int)
    requires PhasesMeasured(test, g, bgn) && 1 <= g.k0 && Usable(g.k0)
    ensures 312 <= bgn <= Ps(g.last - Slip(g.k0 % 8), 0)
  {
    hide At, PassesBetween;
    var first := FirstTried(g.k0);
    LeftEdgeRange(test, g.base, g.k0, g.k0 % 8, g.left);
    if Usable(first) {
      assert g.last >= first;
    } else {
      assert g.last >= g.k0;
    }
  }

  lemma LeftEdgeRange(test: ReadTest, base: int, k0: int, p0: int, left: int)
    requires LeftEdge(test, base, k0, p0, left) && 1 <= k0 && (p0 == 1 || k0 >= 2)
    ensures 312 <= left <= Ps(k0, 0)
  {
    hide At, FailsBelow, Usable;
    if p0 != 1 && EntersAt(test, base, k0 - 1, left) {
      var d :| PassesFirst(test, base, k0 - 1, d) && left == Ps(k0 - 1, d);
      assert 0 <= d <= 12;
    }
  }

  /** The range is never empty and never starts below one phase tap, so the centre can always be programmed. */
  lemma MeasuredRange(test: ReadTest, g: Measure)
    requires Measured(test, g)
    ensures 312 <= g.bgn <= g.end
  {
    hide PhasesMeasured, At;
    if g.d0 == 0 {
      PhasesRange(test, g, g.bgn);
    } else {
      assert At(test, g.base, g.k0, g.d0);
    }
  }

  predicate FailsAt(test: ReadTest, base: int, j: int, phase: int, delay: int) {
    !test(Cycle(base, j), phase, delay)
  }

  /** The setting at phase, delay is the middle of the window folded into one cycle of 2496 ps, rounded up to the
      next delay tap after the last phase tap before it; a middle within the first phase tap moves up to that tap. */
  predicate IsCentre(workBgn: int, workEnd: int, phase: int, delay: int) {
    var mid := ((workBgn + workEnd) / 2 - 1) % 2496 + 1;
    && 1 <= phase <= 7 && 0 <= delay <= 13
    && if mid <= 312 then phase == 1 && delay == 0 else 312 * phase < mid <= Ps(phase, delay) < mid + 25
  }

  /** Take whole cycles off a positive delay until at most one cycle is left. */
  method FoldIntoCycle(mid0: int) returns (mid: int)
    requires mid0 > 0
    ensures mid == (mid0 - 1) % 2496 + 1
  {
    mid := mid0;
    var cycle, p := 0, 0;
    while p <= 7
      invariant 0 <= p <= 8 && cycle == 312 * p
    {
      p, cycle := p + 1, cycle + 312;
    }
    ghost var n := 0;
    while mid > cycle
      invariant cycle == 2496 && mid > 0 && mid == mid0 - 2496 * n
    {
      mid, n := mid - cycle, n + 1;
    }
  }

  /** A failing read at phase 1, delay 0 of the base pointer comes round again after 128 phase steps. */
  lemma RingCloses(test: ReadTest, base: int, first: int, end: int)
    requires 0 <= base < 16 && !test(base, 1, 0) && first < 129 < end
    ensures !PassesBetween(test, base, first, end)
  {
    assert !At(test, base, 129, 0);
  }

  lemma NothingBetween(test: ReadTest, base: int, k: int)
    ensures PassesBetween(test, base, k, k)
  {
  }

  lemma FullTurn(base: int)
    requires 0 <= base < 16
    ensures Cycle(base, 16) == base
  {
  }

  lemma CycleReached(base: int, v: int)
    requires 0 <= base < 16 && 0 <= v < 16
    ensures Cycle(base, (v - base) % 16) == v
  {
  }

  /** Step 0: delay taps that fit strictly inside one phase tap. */
  method DtapsPerPtap() returns (n: int)
    ensures 25 * n < 312 <= 25 * (n + 1)
  {
    n := 0;
    var tmpDelay := 0;
    while tmpDelay < 312
      invariant 0 <= n && tmpDelay == 25 * n && tmpDelay < 312 + 25
    {
      n, tmpDelay := n + 1, tmpDelay + 25;
    }
    n := n - 1;
  }
}
