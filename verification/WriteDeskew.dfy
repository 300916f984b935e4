/** Per-bit write deskew of one DQS group: level the DQ pins with DQS fixed, then centre the data mask. */
module WriteDeskew {
  import opened Windows
  import opened Sweeps

  /** The data-mask pin: its delay register, and the hardware's answer to a masked write test. */
  class MaskPin {
    const test: (seq<int>, int, int) -> bool  // DQ delays, mask delay, DQS delay
    var delay: int

    constructor (test: (seq<int>, int, int) -> bool)
      ensures this.test == test && delay == 0
    {
      this.test := test;
      delay := 0;
    }
  }

  /** The mask test on one line: mask delays on the left of 0, DQS shifts on the right. */
  predicate OnLine(test: (seq<int>, int, int) -> bool, q: seq<int>, dqs: int, x: int) {
    test(q, Max(0, -x), dqs + Max(0, x))
  }

  function Line(test: (seq<int>, int, int) -> bool, q: seq<int>, dqs: int): int -> bool {
    x => OnLine(test, q, dqs, x)
  }

  /** Left of 0 the line delays the mask and leaves DQS where it is, right of 0 it delays DQS and not the mask. */
  lemma LineIsRelativeDelay(test: (seq<int>, int, int) -> bool, q: seq<int>, dqs: int, x: int)
    ensures x <= 0 ==> Line(test, q, dqs)(x) == test(q, -x, dqs)
    ensures x >= 0 ==> Line(test, q, dqs)(x) == test(q, 0, dqs + x)
  {
  }

  ghost predicate Run(f: int -> bool, lo: int, hi: int, b: int, e: int) {
    lo <= b <= e <= hi && forall x | b <= x <= e :: f(x)
  }

  /** [b, e] is the leftmost of the longest passing runs inside [lo, hi]. */
  ghost predicate BestRun(f: int -> bool, lo: int, hi: int, b: int, e: int) {
    && Run(f, lo, hi, b, e)
    && forall b', e' | Run(f, lo, hi, b', e') :: e' - b' < e - b || (e' - b' == e - b && b <= b')
  }

  lemma BestRunIsUnique(f: int -> bool, lo: int, hi: int, b: int, e: int, b': int, e': int)
    requires BestRun(f, lo, hi, b, e) && BestRun(f, lo, hi, b', e')
    ensures b == b' && e == e'
  {
  }

  /** The search variables after looking at [lo, x]: the run that ends at x, and the best run so far. */
  ghost predicate Tracks(f: int -> bool, lo: int, x: int, none: int, bgn: int, end: int, win: int, bb: int, be: int) {
    && (if lo <= x && f(x) then Run(f, lo, x, bgn, x) && end == x && (bgn == lo || !f(bgn - 1))
        else bgn == none && end == none)
    && win >= 0
    && (win > 0 ==> be - bb + 1 == win && BestRun(f, lo, x, bb, be))
    && (win == 0 ==> forall y | lo <= y <= x :: !f(y))
  }

  lemma TracksPass(f: int -> bool, lo: int, x: int, none: int, bgn: int, end: int, win: int, bb: int, be: int)
    requires Tracks(f, lo, x - 1, none, bgn, end, win, bb, be) && lo <= x < none && f(x)
    ensures var b := if bgn == none then x else bgn;
            if x - b + 1 > win then Tracks(f, lo, x, none, b, x, x - b + 1, b, x)
            else Tracks(f, lo, x, none, b, x, win, bb, be)
  {
    var b := if bgn == none then x else bgn;
    assert Run(f, lo, x, b, x);
    forall b', e' | Run(f, lo, x, b', e')
      ensures if e' == x then b <= b' else win > 0 && Run(f, lo, x - 1, b', e') && e' - b' <= be - bb
    {
      if e' == x {
        assert b' < b ==> f(b - 1);
      } else {
        assert Run(f, lo, x - 1, b', e') && f(b');
      }
    }
    if win > 0 {
      assert Run(f, lo, x, bb, be);
    }
  }

  lemma TracksFail(f: int -> bool, lo: int, x: int, none: int, bgn: int, end: int, win: int, bb: int, be: int)
    requires Tracks(f, lo, x - 1, none, bgn, end, win, bb, be) && !f(x)
    ensures Tracks(f, lo, x, none, none, none, win, bb, be)
  {
    if win > 0 {
      assert Run(f, lo, x, bb, be);
      forall b', e' | Run(f, lo, x, b', e') ensures Run(f, lo, x - 1, b', e') {
        assert e' == x ==> f(x);
      }
    }
  }

  /** Stopping early: after a failure at x, what is left of the line is too short to beat the best run. */
  lemma RestIsTooShort(f: int -> bool, lo: int, x: int, hi: int, none: int, bgn: int, end: int, win: int, bb: int, be: int)
    requires Tracks(f, lo, x, none, bgn, end, win, bb, be) && lo <= x <= hi && !f(x) && win - 1 > hi - x
    ensures BestRun(f, lo, hi, bb, be)
  {
    assert Run(f, lo, hi, bb, be);
    forall b', e' | Run(f, lo, hi, b', e')
      ensures e' - b' < be - bb || (e' - b' == be - bb && bb <= b')
    {
      if b' <= x {
        assert e' < x by { assert e' >= x ==> f(x); }
        assert Run(f, lo, x, b', e');
      }
    }
  }

  /** The search variables of the source. */
  class Search {
    var bgn: int
    var end: int
    var win: int
    var bgnBest: int
    var endBest: int
    const none: int

    ghost predicate Tracking(f: int -> bool, lo: int, x: int)
      reads this
    {
      Tracks(f, lo, x, none, bgn, end, win, bgnBest, endBest) && (win == 0 ==> bgnBest == endBest == none)
    }

    /** The search is over: nothing on [lo, hi] passes, or the best run of [lo, hi] is known. */
    ghost predicate Found(f: int -> bool, lo: int, hi: int)
      reads this
    {
      && win >= 0
      && (win == 0 ==> bgnBest == endBest == none && forall x | lo <= x <= hi :: !f(x))
      && (win > 0 ==> BestRun(f, lo, hi, bgnBest, endBest))
    }

    lemma FoundAtEnd(f: int -> bool, lo: int, hi: int)
      requires Tracking(f, lo, hi)
      ensures Found(f, lo, hi)
    {
    }

    lemma FoundEarly(f: int -> bool, lo: int, x: int, hi: int)
      requires Tracking(f, lo, x) && lo <= x <= hi && !f(x) && win - 1 > hi - x
      ensures Found(f, lo, hi)
    {
      RestIsTooShort(f, lo, x, hi, none, bgn, end, win, bgnBest, endBest);
    }

    /** After the mask sweep, the run in progress goes on only if it reaches 0. */
    method Join(ghost f: int -> bool, ghost lo: int)
      requires lo <= 0 < none && Tracking(f, lo, 0)
      modifies `bgn, `end
      ensures Tracking(f, lo, 0)
    {
      if end != 0 {
        bgn, end := none, none;
      }
    }

    constructor (none: int, ghost f: int -> bool, ghost lo: int)
      ensures this.none == none && Tracking(f, lo, lo - 1)
    {
      this.none := none;
      bgn, end, bgnBest, endBest, win := none, none, none, none, 0;
    }

    method Passed(x: int, ghost f: int -> bool, ghost lo: int)
      requires Tracking(f, lo, x - 1) || Tracking(f, lo, x)
      requires lo <= x < none && f(x)
      modifies this
      ensures Tracking(f, lo, x)
    {
      if Tracking(f, lo, x - 1) {
        TracksPass(f, lo, x, none, bgn, end, win, bgnBest, endBest);
      }
      end := x;
      if bgn == none {
        bgn := x;
      }
      if end - bgn + 1 > win {
        win, bgnBest, endBest := end - bgn + 1, bgn, end;
      }
    }

    method Failed(x: int, ghost f: int -> bool, ghost lo: int)
      requires Tracking(f, lo, x - 1) || Tracking(f, lo, x)
      requires lo <= x && !f(x)
      modifies `bgn, `end
      ensures Tracking(f, lo, x) && bgn == end == none
    {
      if Tracking(f, lo, x - 1) {
        TracksFail(f, lo, x, none, bgn, end, win, bgnBest, endBest);
      }
      bgn, end := none, none;
    }
  }

  /** First sweep, over the mask delays from the largest down to 0. */
  method MaskSweep(p: Pins, dm: MaskPin, s: Search)
    requires p.Valid() && s.none == p.m + 1 && s.Tracking(Line(dm.test, p.dq[..], p.dqs), -(p.m as int), -(p.m as int) - 1)
    modifies dm`delay, s
    ensures s.Tracking(Line(dm.test, p.dq[..], p.dqs), -(p.m as int), 0)
  {
    hide Tracks;
    ghost var f := Line(dm.test, p.dq[..], p.dqs);
    var d: int := p.m;
    while d >= 0
      invariant -1 <= d <= p.m
      invariant s.Tracking(f, -(p.m as int), -d - 1)
    {
      dm.delay := d;
      if dm.test(p.dq[..], dm.delay, p.dqs) {
        assert f(-d);
        s.Passed(-d, f, -(p.m as int));
      } else {
        assert !f(-d);
        s.Failed(-d, f, -(p.m as int));
      }
      d := d - 1;
    }
  }

  /** Search the line for the mask window: mask delays first, then DQS shifts upwards from the present DQS. */
  method MaskWindow(p: Pins, dm: MaskPin) returns (win: int, bgnBest: int, endBest: int)
    requires p.Valid()
    modifies p`dqs, dm`delay
    ensures p.dqs == old(p.dqs) && dm.delay == 0
    ensures var f := Line(dm.test, p.dq[..], p.dqs);
            var (lo, hi) := (-(p.m as int), p.m - p.dqs);
            && win >= 0
            && (win == 0 ==> bgnBest == endBest == p.m + 1 && forall x | lo <= x <= hi :: !f(x))
            && (win > 0 ==> BestRun(f, lo, hi, bgnBest, endBest))
  {
    hide Tracks, BestRun;
    var m: int := p.m;
    var newDqs := p.dqs;
    ghost var q := p.dq[..];
    ghost var f := Line(dm.test, q, newDqs);
    var s := new Search(m + 1, f, -m);
    MaskSweep(p, dm, s);
    dm.delay := 0;
    s.Join(f, -m);
    var d := 0;
    while d <= m - newDqs
      invariant 0 <= d <= m - newDqs + 1
      invariant dm.delay == 0 && p.dq[..] == q
      invariant s.Tracking(f, -m, Max(0, d - 1))
    {
      p.dqs := d + newDqs;
      assert p.dq[..] == q && f(d) == dm.test(q, 0, newDqs + d);
      if dm.test(p.dq[..], dm.delay, p.dqs) {
        s.Passed(d, f, -m);
      } else {
        s.Failed(d, f, -m);
        if s.win - 1 > m - newDqs - d {
          s.FoundEarly(f, -m, d, m - newDqs);
          break;
        }
      }
      d := d + 1;
    }
    if d > m - newDqs {
      s.FoundAtEnd(f, -m, m - newDqs);
    }
    p.dqs := newDqs;
    return s.win, s.bgnBest, s.endBest;
  }

  /** The mask position aimed at, the middle of the run [b, e] but never right of 0. */
  function MaskDelay(b: int, e: int): int { Max(0, CDiv(-b - e, 2)) }

  /** A mask delay at which the two margins of the run [b, e] differ by at most one tap, the larger on the left; 0, the
      nearest a mask delay can come, if the middle of the run is right of 0. */
  predicate MaskCentred(delay: int, b: int, e: int) {
    if b + e <= 0 then 0 <= (-b - delay) - (e + delay) <= 1 else delay == 0
  }

  /** The mask is aimed at the middle of its run. */
  lemma MaskIsCentred(b: int, e: int)
    ensures MaskCentred(MaskDelay(b, e), b, e)
  {
  }

  /** The mask margin is non-negative exactly when the mask delay lies in the run found. */
  lemma MaskMargin(b: int, e: int)
    requires b <= e
    ensures -b - MaskDelay(b, e) >= 0 <==> b <= -MaskDelay(b, e) <= e
    ensures -b - MaskDelay(b, e) >= 0 <==> b <= 0
  {
  }

  /** The centred DQ delays of all pins. */
  function WriteDqs(ws: seq<Window>, start: int, m: int): seq<int>
    requires ws != []
  {
    seq(|ws|, i requires 0 <= i < |ws| => WriteDq(ws[i], MinSpread(ws, start, m), start, m))
  }

  /** [b, e] is the leftmost longest passing run of the line searched from DQS at dqs. */
  ghost predicate MaskRun(test: (seq<int>, int, int) -> bool, q: seq<int>, dqs: int, m: int, b: int, e: int) {
    BestRun(Line(test, q, dqs), -m, m - dqs, b, e)
  }

  /** The best mask run begins where a mask delay can reach it. */
  ghost predicate MaskReaches(test: (seq<int>, int, int) -> bool, q: seq<int>, dqs: int, m: int) {
    exists b, e :: MaskRun(test, q, dqs, m, b, e) && b <= 0
  }

  /** What a write deskew with DQS at start needs: every pin in reach, and then the mask run in reach. */
  ghost predicate WritesWork(ws: seq<Window>, start: int, m: int, test: (seq<int>, int, int) -> bool)
    requires ws != []
  {
    (forall i | 0 <= i < |ws| :: Reachable(ws[i], start, m)) && MaskReaches(test, WriteDqs(ws, start, m), start, m)
  }

  method WritesCenter(p: Pins, dm: MaskPin) returns (r: CenterResult)
    requires p.Valid()
    modifies p`dqs, p.dq, dm`delay
    ensures p.Valid()
    ensures r.Centred? ==> p.AllPass() && p.dqs == old(p.dqs) && dm.test(p.dq[..], dm.delay, p.dqs)
    ensures r.NoWindow? <==> !AllMet(p.ws, old(p.dqs), p.m)
    ensures r.NoWindow? ==>
              && r.bit < |p.ws| && !Met(p.ws[r.bit], old(p.dqs), p.m)
              && (forall i | 0 <= i < r.bit :: Met(p.ws[i], old(p.dqs), p.m))
              && (forall i | 0 <= i < |p.ws| :: p.dq[i] == 0)
              && p.dqs == p.m && dm.delay == old(dm.delay)
    ensures !r.NoWindow? ==>
              p.dqs == old(p.dqs) && p.dq[..] == WriteDqs(p.ws, old(p.dqs), p.m) && 0 <= dm.delay <= p.m
    ensures r.Centred? <==> WritesWork(p.ws, old(p.dqs), p.m, dm.test)
    ensures !r.NoWindow? ==> forall b, e | MaskRun(dm.test, p.dq[..], p.dqs, p.m, b, e) :: MaskCentred(dm.delay, b, e)
    ensures r.Centred? ==> exists b, e ::
              MaskRun(dm.test, p.dq[..], p.dqs, p.m, b, e) && b <= 0 && dm.delay == MaskDelay(b, e)
  {
    hide Levelled, WriteDq, Reachable, Passes, LeftEdge, RightEdge, Spread, Met;
    hide MaskRun, MaskDelay, MaskCentred, MaskReaches, SeenLeft, SeenRight;
    hide LeftOfLeft, RightOfLeft, LeftOfRight, RightOfRight;
    var n, m := |p.ws|, p.m;
    var start := p.dqs;
    var left, right := new int[n], new int[n];
    p.LeftSweep(left, right);
    var sticky := p.ResetEdges(left, right, false);
    p.RightSweep(left, right, sticky, true);

    var missing := p.FirstMissing(left, right, start);
    if missing < n {
      UnmetIsUnreachable(p.ws[missing], start, m);
      return NoWindow(missing);
    }
    var ok := CentreWrites(p, start, left, right);
    assert p.dq[..] == WriteDqs(p.ws, start, m);
    var maskOk := CentreMask(p, dm);
    r := if ok && maskOk then Centred else OutOfMargin;
  }

  /** From the edges on: put DQS back, and level every DQ pin. */
  method CentreWrites(p: Pins, start: int, left: array<int>, right: array<int>) returns (ok: bool)
    requires p.Valid() && 0 <= start <= p.m && AllMet(p.ws, start, p.m)
    requires left.Length == right.Length == |p.ws| && left != p.dq && right != p.dq
    requires forall i | 0 <= i < |p.ws| :: p.dq[i] == 0
    requires forall i | 0 <= i < |p.ws| ::
               left[i] == LeftEdge(p.ws[i], start, p.m) && right[i] == RightEdge(p.ws[i], start, p.m)
    modifies p`dqs, p.dq
    ensures p.Valid() && p.dqs == start
    ensures var low := MinSpread(p.ws, start, p.m);
            forall i | 0 <= i < |p.ws| :: p.dq[i] == WriteDq(p.ws[i], low, start, p.m)
    ensures ok <==> p.AllPass()
    ensures ok <==> forall i | 0 <= i < |p.ws| :: Reachable(p.ws[i], start, p.m)
  {
    hide Levelled, WriteDq, Reachable, Passes, MarginsHold, LeftEdge, RightEdge, CeilHalf, Met;
    var mid, index := Narrowest(left, right);
    MinSpreadIs(p.ws, start, p.m, index);
    var origMid := HalfRoundedUp(mid);
    ok := p.Level(left, right, index, origMid, 0);
    p.dqs := start;
    forall i | 0 <= i < |p.ws|
      ensures 0 <= p.dq[i] <= p.m && p.dq[i] == WriteDq(p.ws[i], mid, start, p.m)
      ensures MarginsHold(left[i], right[i], p.dq[i], 0) <==> Passes(p.ws[i], p.dq[i], start)
      ensures Passes(p.ws[i], p.dq[i], start) <==> Reachable(p.ws[i], start, p.m)
    {
      LevelledWrite(p.ws[i], mid, start, p.m, left[i], right[i], p.dq[i]);
    }
  }

  /** What the search found decides the verdict and the delay. */
  lemma MaskSettled(test: (seq<int>, int, int) -> bool, q: seq<int>, dqs: int, m: int, win: int, bgn: int, end: int, mid: int,
                    margin: int)
    requires 0 <= dqs <= m && win >= 0
    requires var f := Line(test, q, dqs); win == 0 ==> forall x | -m <= x <= m - dqs :: !f(x)
    requires win > 0 ==> MaskRun(test, q, dqs, m, bgn, end) && mid == MaskDelay(bgn, end) && margin == -bgn - mid
    requires win == 0 ==> margin == -1
    ensures margin >= 0 <==> MaskReaches(test, q, dqs, m)
    ensures margin >= 0 ==> win > 0 && bgn <= 0 && test(q, mid, dqs)
    ensures forall b, e | MaskRun(test, q, dqs, m, b, e) :: MaskCentred(mid, b, e)
  {
    var f := Line(test, q, dqs);
    if win == 0 {
      forall b, e | MaskRun(test, q, dqs, m, b, e) ensures f(b) && -m <= b <= m - dqs {
      }
    } else {
      MaskMargin(bgn, end);
      MaskIsCentred(bgn, end);
      forall b, e | MaskRun(test, q, dqs, m, b, e) ensures b == bgn && e == end {
        BestRunIsUnique(f, -m, m - dqs, b, e, bgn, end);
      }
      assert margin >= 0 ==> f(-mid);
    }
  }

  /** Find the mask window and put the mask delay in its middle. */
  method CentreMask(p: Pins, dm: MaskPin) returns (ok: bool)
    requires p.Valid()
    modifies p`dqs, dm`delay
    ensures p.dqs == old(p.dqs) && 0 <= dm.delay <= p.m
    ensures ok ==> dm.test(p.dq[..], dm.delay, p.dqs)
    ensures ok <==> MaskReaches(dm.test, p.dq[..], p.dqs, p.m)
    ensures forall b, e | MaskRun(dm.test, p.dq[..], p.dqs, p.m, b, e) :: MaskCentred(dm.delay, b, e)
    ensures ok ==> exists b, e ::
              MaskRun(dm.test, p.dq[..], p.dqs, p.m, b, e) && b <= 0 && dm.delay == MaskDelay(b, e)
  {
    var win, bgnBest, endBest := MaskWindow(p, dm);
    var left, right := -1 * bgnBest, endBest;
    var mid := CDiv(left - right, 2);
    if mid < 0 {
      mid := 0;
    }
    var margin := if win == 0 then -1 else left - mid;
    dm.delay := mid;
    MaskSettled(dm.test, p.dq[..], p.dqs, p.m, win, bgnBest, endBest, mid, margin);
    return margin >= 0;
  }
}
