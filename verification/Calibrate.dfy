/** The calibration of all DQS groups: the retry nest around the read deskew, the stages of one group, the read-latency
    search, and the record of the first failure. */
module Calibrate {
  import opened Bits
  import opened Windows
  import opened Sweeps
  import DqsEnable
  import DqsEnableArc
  import ReadDeskew
  import WriteDeskew

  const STAGE_NIL: nat := 0
  const STAGE_VFIFO: nat := 1
  const STAGE_LFIFO: nat := 3
  const STAGE_WRITES: nat := 4
  const STAGE_VFIFO_AFTER_WRITES: nat := 9
  const SUBSTAGE_NIL: nat := 0
  const SUBSTAGE_GUARANTEED_READ: nat := 1
  const SUBSTAGE_DQS_EN_PHASE: nat := 2
  const SUBSTAGE_VFIFO_CENTER: nat := 3
  const SUBSTAGE_WRITES_CENTER: nat := 1
  const SUBSTAGE_READ_LATENCY: nat := 1

  datatype Failure = Failure(group: nat, stage: nat, substage: nat)

  /** A report that names one of the n pins of group g. */
  predicate PinReport(f: Failure, g: nat, n: nat, stage: nat, substage: nat) {
    f.stage == stage && f.substage == substage && 0 <= f.group - g * n < n
  }

  /** The search succeeds somewhere, so that the windows found there can be centred, or fail to be. */
  ghost predicate SomeSearchSucceeds(v: Verdicts) {
    exists d, q :: v.guaranteed(d) && v.enable(d, q)
  }

  /** The substage a group is blamed for is one it did fail in: the guaranteed read if that passes in none of the seven
      rounds, the DQS-enable search if some search fails, the centring if some search succeeds. */
  ghost predicate SubstageExplained(v: Verdicts, substage: nat) {
    || (substage == SUBSTAGE_GUARANTEED_READ && forall k | 0 <= k < 7 :: !v.guaranteed(2 * k))
    || (substage == SUBSTAGE_DQS_EN_PHASE && exists d, q :: v.guaranteed(d) && !v.enable(d, q))
    || (substage == SUBSTAGE_VFIFO_CENTER && SomeSearchSucceeds(v))
  }

  /** The reports that calibrating group g can make: its own number, or the number of one of its pins. */
  ghost predicate GroupReport(f: Failure, v: Verdicts, g: nat, readPins: nat, writePins: nat) {
    || (f.group == g && f.stage == STAGE_VFIFO && SubstageExplained(v, f.substage))
    || (PinReport(f, g, readPins, STAGE_VFIFO, SUBSTAGE_VFIFO_CENTER) && SomeSearchSucceeds(v))
    || f == Failure(g, STAGE_WRITES, SUBSTAGE_WRITES_CENTER)
    || PinReport(f, g, writePins, STAGE_WRITES, SUBSTAGE_WRITES_CENTER)
    || f == Failure(g, STAGE_VFIFO_AFTER_WRITES, SUBSTAGE_VFIFO_CENTER)
    || PinReport(f, g, readPins, STAGE_VFIFO_AFTER_WRITES, SUBSTAGE_VFIFO_CENTER)
  }

  /** The reports made since before are about pins of group g. */
  ghost predicate PinsReported(before: seq<Failure>, after: seq<Failure>, g: nat, n: nat, stage: nat, substage: nat) {
    before <= after && forall k | |before| <= k < |after| :: PinReport(after[k], g, n, stage, substage)
  }

  lemma PinsReportedOnce(before: seq<Failure>, f: Failure, g: nat, n: nat, stage: nat, substage: nat)
    ensures PinsReported(before, before, g, n, stage, substage)
    ensures PinReport(f, g, n, stage, substage) ==> PinsReported(before, before + [f], g, n, stage, substage)
  {
  }

  lemma PinsReportedTwice(a: seq<Failure>, b: seq<Failure>, c: seq<Failure>, g: nat, n: nat, stage: nat, substage: nat)
    requires PinsReported(a, b, g, n, stage, substage) && PinsReported(b, c, g, n, stage, substage)
    ensures PinsReported(a, c, g, n, stage, substage)
  {
    forall k | |a| <= k < |c| ensures PinReport(c[k], g, n, stage, substage) {
      assert k < |b| ==> c[k] == b[k];
    }
  }

  /** The reports made since before are about group g or its pins. */
  ghost predicate GroupReported(before: seq<Failure>, after: seq<Failure>, v: Verdicts, g: nat, readPins: nat, writePins: nat) {
    before <= after && forall k | |before| <= k < |after| :: GroupReport(after[k], v, g, readPins, writePins)
  }

  /** A stage of a group reports pins of the group, and ends with the group itself if it failed. */
  lemma StageReportsGroup(before: seq<Failure>, log: seq<Failure>, ok: bool, last: Failure,
                          v: Verdicts, g: nat, readPins: nat, writePins: nat)
    requires (last.stage == STAGE_VFIFO && (!ok ==> SubstageExplained(v, last.substage))
              && (|Front(log, ok)| > |before| ==> SomeSearchSucceeds(v))
              && PinsReported(before, Front(log, ok), g, readPins, STAGE_VFIFO, SUBSTAGE_VFIFO_CENTER))
          || (last.stage == STAGE_WRITES && last.substage == SUBSTAGE_WRITES_CENTER
              && PinsReported(before, Front(log, ok), g, writePins, STAGE_WRITES, SUBSTAGE_WRITES_CENTER))
          || (last.stage == STAGE_VFIFO_AFTER_WRITES && last.substage == SUBSTAGE_VFIFO_CENTER
              && PinsReported(before, Front(log, ok), g, readPins, STAGE_VFIFO_AFTER_WRITES, SUBSTAGE_VFIFO_CENTER))
    requires last.group == g && (!ok ==> log == Front(log, ok) + [last])
    ensures GroupReported(before, log, v, g, readPins, writePins) && before <= log
    ensures !ok ==> |before| < |log| && log[|log| - 1].group == g
  {
    forall k | |before| <= k < |log| ensures GroupReport(log[k], v, g, readPins, writePins) {
      if k < |Front(log, ok)| {
        assert log[k] == Front(log, ok)[k];
      }
    }
  }

  lemma GroupReportedTwice(a: seq<Failure>, b: seq<Failure>, c: seq<Failure>, v: Verdicts, g: nat, readPins: nat,
                           writePins: nat)
    requires GroupReported(a, b, v, g, readPins, writePins) && GroupReported(b, c, v, g, readPins, writePins)
    ensures GroupReported(a, c, v, g, readPins, writePins) && a <= c
  {
    forall k | |a| <= k < |c| ensures GroupReport(c[k], v, g, readPins, writePins) {
      assert k < |b| ==> c[k] == b[k];
    }
  }

  /** The log without the report that ends a failed stage. */
  function Front(log: seq<Failure>, ok: bool): seq<Failure> {
    if ok || log == [] then log else log[..|log| - 1]
  }

  const LATENCY_FAILURE := Failure(0xff, STAGE_LFIFO, SUBSTAGE_READ_LATENCY)

  /** The global record. log is every failure reported since the record was cleared. */
  class Globals {
    var errorStage: nat
    var errorSubstage: nat
    var errorGroup: nat
    var readLatency: int
    ghost var log: seq<Failure>

    /** The record is the first failure reported, as one piece. */
    ghost predicate Valid()
      reads this
    {
      && (errorStage == STAGE_NIL <==> log == [])
      && (log != [] ==> Failure(errorGroup, errorStage, errorSubstage) == log[0])
    }

    constructor (readLatency: int)
      ensures Valid() && log == [] && this.readLatency == readLatency
    {
      errorStage, errorSubstage, errorGroup := STAGE_NIL, SUBSTAGE_NIL, 0xff;
      this.readLatency := readLatency;
      log := [];
    }

    method Clear()
      modifies `errorStage, `errorSubstage, `errorGroup, `log
      ensures Valid() && log == []
    {
      errorStage, errorSubstage, errorGroup := STAGE_NIL, SUBSTAGE_NIL, 0xff;
      log := [];
    }

    method SetFailingGroupStage(group: nat, stage: nat, substage: nat)
      requires Valid() && stage != STAGE_NIL
      modifies `errorStage, `errorSubstage, `errorGroup, `log
      ensures Valid() && log == old(log) + [Failure(group, stage, substage)]
    {
      if errorStage == STAGE_NIL {
        errorSubstage, errorStage, errorGroup := substage, stage, group;
      }
      log := log + [Failure(group, stage, substage)];
    }

    twostate predicate Kept()
      reads this
    {
      Valid() && readLatency == old(readLatency)
    }

    /** Since the old state, group g and its pins were reported; a failure ends with a report that names the group. */
    twostate predicate ReportsGroup(v: Verdicts, g: nat, readPins: nat, writePins: nat, ok: bool)
      reads this
    {
      && Valid() && readLatency == old(readLatency) && old(log) <= log
      && (!ok ==> |old(log)| < |log| && log[|log| - 1].group == g)
      && GroupReported(old(log), log, v, g, readPins, writePins)
    }

    /** Lower the read latency while the test passes, then add two. */
    method CalibrateLfifo(test: int -> bool) returns (ok: bool)
      requires Valid() && readLatency >= 1
      modifies this
      ensures Valid() && log == old(log) + (if ok then [] else [LATENCY_FAILURE])
      ensures ok <==> test(old(readLatency))
      ensures ok ==>
                && 2 <= readLatency <= old(readLatency) + 1
                && (forall l | readLatency - 1 <= l <= old(readLatency) :: test(l))
                && (readLatency - 2 == 0 || !test(readLatency - 2))
      ensures !ok ==> readLatency == old(readLatency)
    {
      var foundOne := false;
      while true
        invariant 1 <= readLatency <= old(readLatency) && Valid() && log == old(log)
        invariant forall l | readLatency < l <= old(readLatency) :: test(l)
        invariant foundOne <==> readLatency < old(readLatency)
        decreases readLatency
      {
        if !test(readLatency) {
          break;
        }
        foundOne := true;
        readLatency := readLatency - 1;
        if readLatency <= 0 {
          break;
        }
      }
      if foundOne {
        readLatency := readLatency + 2;
        return true;
      } else {
        SetFailingGroupStage(0xff, STAGE_LFIFO, SUBSTAGE_READ_LATENCY);
        return false;
      }
    }
  }

  /** What a group meets at output delay d: the guaranteed read, the DQS-enable search with DQS at q, the read window of
      each pin under the enable setting found there, and its window under the other test, which writes first, once the
      writes are deskewed. */
  datatype Verdicts = Verdicts(guaranteed: int -> bool, enable: (int, int) -> bool,
                               window: (int, int, int) -> Window, after: (int, int, int) -> Window)

  /** The read windows of n pins under the enable setting found at (d, q). */
  function WindowsAt(v: Verdicts, d: int, q: int, n: nat): (ws: seq<Window>)
    ensures |ws| == n && forall i | 0 <= i < n :: ws[i] == v.window(d, q, i)
  {
    seq(n, i => v.window(d, q, i))
  }

  /** Their windows under the test after writes. */
  function WindowsAfter(v: Verdicts, d: int, q: int, n: nat): (ws: seq<Window>)
    ensures |ws| == n && forall i | 0 <= i < n :: ws[i] == v.after(d, q, i)
  {
    seq(n, i => v.after(d, q, i))
  }

  /** The attempt at (d, q) in a round that started with DQS at start succeeds. */
  ghost predicate AttemptWorks(v: Verdicts, d: int, q: int, n: nat, start: int, m: int)
    requires n > 0
  {
    v.enable(d, q) && ReadDeskew.Centres(WindowsAt(v, d, q, n), start, m)
  }

  /** e is the first DQS delay of the round whose attempt succeeds. */
  ghost predicate FirstWorks(v: Verdicts, d: int, e: int, n: nat, start: int, m: int)
    requires n > 0
  {
    start <= e <= m && AttemptWorks(v, d, e, n, start, m) && forall q | start <= q < e :: !AttemptWorks(v, d, q, n, start, m)
  }

  /** The DQS delay that a read deskew leaves behind. */
  ghost function RestingDqs(ws: seq<Window>, start: int, m: int): int
    requires ws != []
  {
    if AllMet(ws, start, m) then ReadDqs(MinSpread(ws, start, m), start) else start
  }

  /** The DQS delay that the attempt at (d, q) leaves behind. */
  ghost function AfterAttempt(v: Verdicts, d: int, q: int, n: nat, start: int, m: int): int
    requires n > 0
  {
    if v.enable(d, q) then RestingDqs(WindowsAt(v, d, q, n), start, m) else q
  }

  /** The substage that a failed attempt leaves behind. */
  function AttemptSubstage(v: Verdicts, d: int, q: int): nat {
    if v.enable(d, q) then SUBSTAGE_VFIFO_CENTER else SUBSTAGE_DQS_EN_PHASE
  }

  /** The settings at which the DQS-enable search was run, as (output delay, DQS delay). */
  type Trace = seq<(int, int)>

  /** All DQS delays from start to m at output delay d. */
  function Ramp(d: int, start: int, m: int): Trace
    decreases m - start
  {
    if start > m then [] else [(d, start)] + Ramp(d, start + 1, m)
  }

  lemma {:induction false} RampAppend(d: int, start: int, m: int)
    requires start <= m + 1
    ensures Ramp(d, start, m + 1) == Ramp(d, start, m) + [(d, m + 1)]
    decreases m - start
  {
    if start <= m {
      RampAppend(d, start + 1, m);
    } else {
      assert Ramp(d, m + 2, m + 1) == [];
    }
  }

  /** Where round k, at output delay 2k, starts when all rounds before it failed: at the DQS delay the last attempt
      happened to leave. */
  ghost function RoundStart(v: Verdicts, n: nat, dqs: int, m: int, k: nat): int
    requires n > 0
  {
    if k == 0 then dqs
    else
      var start := RoundStart(v, n, dqs, m, k - 1);
      if v.guaranteed(2 * (k - 1)) then AfterAttempt(v, 2 * (k - 1), m, n, start, m) else start
  }

  /** The settings tried in the rounds before k, when all of them failed. */
  ghost function NestTrace(v: Verdicts, n: nat, dqs: int, m: int, k: nat): Trace
    requires n > 0
  {
    if k == 0 then []
    else
      NestTrace(v, n, dqs, m, k - 1)
      + if v.guaranteed(2 * (k - 1)) then Ramp(2 * (k - 1), RoundStart(v, n, dqs, m, k - 1), m) else []
  }

  /** The substage blamed after the rounds before k, when all of them failed. */
  ghost function NestSubstage(v: Verdicts, m: int, k: nat): (r: nat)
    ensures SUBSTAGE_GUARANTEED_READ <= r <= SUBSTAGE_VFIFO_CENTER
  {
    if k == 0 then SUBSTAGE_GUARANTEED_READ
    else if v.guaranteed(2 * (k - 1)) then AttemptSubstage(v, 2 * (k - 1), m)
    else NestSubstage(v, m, k - 1)
  }

  /** What is blamed after k rounds is the last thing that failed: the search or the centring of the last round whose
      guaranteed read passed, or the guaranteed read if none did. */
  lemma {:induction false} BlamesTheCause(v: Verdicts, m: int, k: nat)
    ensures NestSubstage(v, m, k) == SUBSTAGE_GUARANTEED_READ <==> forall j | 0 <= j < k :: !v.guaranteed(2 * j)
    ensures NestSubstage(v, m, k) == SUBSTAGE_DQS_EN_PHASE ==>
              exists j :: 0 <= j < k && v.guaranteed(2 * j) && !v.enable(2 * j, m)
    ensures NestSubstage(v, m, k) == SUBSTAGE_VFIFO_CENTER ==>
              exists j :: 0 <= j < k && v.guaranteed(2 * j) && v.enable(2 * j, m)
  {
    if k > 0 {
      BlamesTheCause(v, m, k - 1);
      assert v.guaranteed(2 * (k - 1)) == v.guaranteed(2 * k - 2);
    }
  }

  lemma NestSubstageExplained(v: Verdicts, m: int)
    ensures SubstageExplained(v, NestSubstage(v, m, 7))
  {
    hide NestSubstage;
    BlamesTheCause(v, m, 7);
    SubstageRange(v, m, 7);
  }

  lemma SubstageRange(v: Verdicts, m: int, k: nat)
    ensures NestSubstage(v, m, k) in {SUBSTAGE_GUARANTEED_READ, SUBSTAGE_DQS_EN_PHASE, SUBSTAGE_VFIFO_CENTER}
  {
  }

  ghost predicate RoundWorks(v: Verdicts, n: nat, dqs: int, m: int, k: nat)
    requires n > 0
  {
    var start := RoundStart(v, n, dqs, m, k);
    v.guaranteed(2 * k) && exists q :: start <= q <= m && AttemptWorks(v, 2 * k, q, n, start, m)
  }

  /** One of the rounds 0..last works. */
  ghost predicate NestWorks(v: Verdicts, n: nat, dqs: int, m: int, last: nat)
    requires n > 0
  {
    exists k: nat :: k <= last && RoundWorks(v, n, dqs, m, k)
  }

  lemma RoundZero(v: Verdicts, n: nat, dqs: int, m: int)
    requires n > 0
    ensures RoundStart(v, n, dqs, m, 0) == dqs && NestTrace(v, n, dqs, m, 0) == []
  {
  }

  /** One attempt at the largest DQS delay for each of the output delays 2, 4, .. 2k. */
  function Largest(m: int, k: nat): Trace {
    if k == 0 then [] else Largest(m, k - 1) + [(2 * k, m)]
  }

  /** The nest does not cover the product of its two ranges: while the DQS-enable search fails, every round but the
      first tries the largest DQS delay only. */
  lemma {:induction false} LaterRoundsTryOneDelay(v: Verdicts, n: nat, dqs: int, m: int, k: nat)
    requires n > 0 && 0 < k && (forall d :: v.guaranteed(d)) && (forall d, q :: !v.enable(d, q))
    ensures RoundStart(v, n, dqs, m, k) == m
    ensures NestTrace(v, n, dqs, m, k) == Ramp(0, dqs, m) + Largest(m, k - 1)
  {
    hide RoundStart, NestTrace, Ramp, Largest;
    FailedSearchRound(v, n, dqs, m, k - 1);
    if k == 1 {
      RoundZero(v, n, dqs, m);
      assert Largest(m, 0) == [] by { NoneOfTheLargest(m); }
    } else {
      LaterRoundsTryOneDelay(v, n, dqs, m, k - 1);
      OneOfTheLargest(m, k - 1);
    }
  }

  lemma FailedSearchRound(v: Verdicts, n: nat, dqs: int, m: int, k: nat)
    requires n > 0 && v.guaranteed(2 * k) && !v.enable(2 * k, m)
    ensures RoundStart(v, n, dqs, m, k + 1) == m
    ensures NestTrace(v, n, dqs, m, k + 1) == NestTrace(v, n, dqs, m, k) + Ramp(2 * k, RoundStart(v, n, dqs, m, k), m)
  {
    hide Ramp;
  }

  lemma NoneOfTheLargest(m: int)
    ensures Largest(m, 0) == []
  {
  }

  lemma OneOfTheLargest(m: int, k: nat)
    requires k > 0
    ensures Largest(m, k) == Largest(m, k - 1) + [(2 * k, m)] && Ramp(2 * k, m, m) == [(2 * k, m)]
  {
    assert Ramp(2 * k, m + 1, m) == [];
  }

  /** Round k is the first that works, and e the first DQS delay in it that does. */
  ghost predicate Wins(v: Verdicts, n: nat, dqs: int, m: int, last: nat, k: nat, e: int)
    requires n > 0
  {
    && k <= last && v.guaranteed(2 * k) && FirstWorks(v, 2 * k, e, n, RoundStart(v, n, dqs, m, k), m)
    && forall j: nat | j < k :: !RoundWorks(v, n, dqs, m, j)
  }

  lemma OneWinner(v: Verdicts, n: nat, dqs: int, m: int, last: nat, k: nat, e: int, k': nat, e': int)
    requires n > 0 && Wins(v, n, dqs, m, last, k, e) && Wins(v, n, dqs, m, last, k', e')
    ensures k == k' && e == e'
  {
    hide AttemptWorks, RoundStart;
    WinnerWorks(v, n, dqs, m, last, k, e);
    WinnerWorks(v, n, dqs, m, last, k', e');
  }

  lemma WinnerWorks(v: Verdicts, n: nat, dqs: int, m: int, last: nat, k: nat, e: int)
    requires n > 0 && Wins(v, n, dqs, m, last, k, e)
    ensures RoundWorks(v, n, dqs, m, k) && NestWorks(v, n, dqs, m, last)
  {
    hide AttemptWorks, RoundStart;
  }

  lemma WinnerFound(v: Verdicts, n: nat, dqs: int, m: int, last: nat, k: nat, e: int)
    requires n > 0 && Wins(v, n, dqs, m, last, k, e)
    ensures v.guaranteed(2 * k) && v.enable(2 * k, e)
  {
    hide RoundStart, RoundWorks;
  }

  /** A nest that works has a winner. */
  lemma NestHasWinner(v: Verdicts, n: nat, dqs: int, m: int, last: nat) returns (k: nat, e: int)
    requires n > 0 && NestWorks(v, n, dqs, m, last)
    ensures Wins(v, n, dqs, m, last, k, e)
  {
    hide AttemptWorks, RoundStart;
    k := 0;
    while !RoundWorks(v, n, dqs, m, k)
      invariant k <= last && forall j: nat | j < k :: !RoundWorks(v, n, dqs, m, j)
      decreases last - k
    {
      k := k + 1;
    }
    e := RoundStart(v, n, dqs, m, k);
    while !AttemptWorks(v, 2 * k, e, n, RoundStart(v, n, dqs, m, k), m)
      invariant RoundStart(v, n, dqs, m, k) <= e <= m
      invariant forall q | RoundStart(v, n, dqs, m, k) <= q < e :: !AttemptWorks(v, 2 * k, q, n, RoundStart(v, n, dqs, m, k), m)
      decreases m - e
    {
      e := e + 1;
    }
  }

  /** A failed attempt restores the DQS delay, raises it, or leaves it at the largest, so no round starts below the
      first. */
  lemma {:induction false} FailedRoundsNeverLowerDqs(v: Verdicts, n: nat, dqs: int, m: int, k: nat)
    requires n > 0 && 0 <= dqs <= m && forall j: nat | j < k :: !RoundWorks(v, n, dqs, m, j)
    ensures dqs <= RoundStart(v, n, dqs, m, k) <= m
  {
    if k > 0 {
      FailedRoundsNeverLowerDqs(v, n, dqs, m, k - 1);
      assert !RoundWorks(v, n, dqs, m, k - 1);
      if v.guaranteed(2 * (k - 1)) {
        FailedAttemptNeverLowersDqs(v, 2 * (k - 1), n, RoundStart(v, n, dqs, m, k - 1), m);
      }
    }
  }

  lemma FailedAttemptNeverLowersDqs(v: Verdicts, d: int, n: nat, start: int, m: int)
    requires n > 0 && 0 <= start <= m && !AttemptWorks(v, d, m, n, start, m)
    ensures start <= AfterAttempt(v, d, m, n, start, m) <= m
  {
    hide Windows.Reachable, ReadDqs, Windows.Met, MinSpread;
    var ws := WindowsAt(v, d, m, n);
    if v.enable(d, m) && AllMet(ws, start, m) {
      var i :| 0 <= i < n && !Reachable(ws[i], ReadDqs(MinSpread(ws, start, m), start), m);
      MinSpreadBelow(ws, start, m, i);
      MinSpreadBound(ws, start, m);
      ReadClamps(ws[i], MinSpread(ws, start, m), start, m);
      if ReadDqs(MinSpread(ws, start, m), start) <= start {
        OnlyRaisingDqsLosesAPin(ws, start, m, i);
      }
    }
  }

  /** The windows of the test after writes centre from the DQS delay that the nest leaves behind. */
  ghost predicate AfterWorks(v: Verdicts, n: nat, dqs: int, m: int, k: nat, e: int)
    requires n > 0
  {
    ReadDeskew.Centres(WindowsAfter(v, 2 * k, e, n),
                       RestingDqs(WindowsAt(v, 2 * k, e, n), RoundStart(v, n, dqs, m, k), m), m)
  }

  /** The nest works, and the read deskew after the writes works where it ends. */
  ghost predicate ReadsWork(v: Verdicts, n: nat, dqs: int, m: int, last: nat)
    requires n > 0
  {
    exists k: nat, e :: Wins(v, n, dqs, m, last, k, e) && AfterWorks(v, n, dqs, m, k, e)
  }

  /** Whether the reads work is decided at the winner, if there is one. */
  lemma WinnersAgree(v: Verdicts, n: nat, dqs: int, m: int, last: nat, ok: bool, k: nat, e: int)
    requires n > 0 && (ok <==> NestWorks(v, n, dqs, m, last)) && (ok ==> Wins(v, n, dqs, m, last, k, e))
    ensures ReadsWork(v, n, dqs, m, last) <==> ok && AfterWorks(v, n, dqs, m, k, e)
  {
    hide Wins, AfterWorks, NestWorks;
    forall k': nat, e' | Wins(v, n, dqs, m, last, k', e') ensures ok && k' == k && e' == e {
      WinnerWorks(v, n, dqs, m, last, k', e');
      OneWinner(v, n, dqs, m, last, k, e, k', e');
    }
  }

  /** If the other test sees the same windows, the read deskew after writes is redundant: it cannot fail. */
  lemma RedundantOnSameWindows(v: Verdicts, n: nat, dqs: int, m: int, last: nat)
    requires n > 0 && 0 <= dqs <= m && forall d, q, i :: v.after(d, q, i) == v.window(d, q, i)
    ensures ReadsWork(v, n, dqs, m, last) <==> NestWorks(v, n, dqs, m, last)
  {
    hide RoundWorks, ReadDeskew.Centres, ReadDqs, MinSpread;
    if NestWorks(v, n, dqs, m, last) {
      var k, e := NestHasWinner(v, n, dqs, m, last);
      var ws := WindowsAt(v, 2 * k, e, n);
      var start := RoundStart(v, n, dqs, m, k);
      FailedRoundsNeverLowerDqs(v, n, dqs, m, k);
      assert AllMet(ws, start, m) by { CentresAreMet(ws, start, m); }
      ReadDeskew.CentresAgain(ws, start, m);
      assert WindowsAfter(v, 2 * k, e, n) == ws;
      assert AfterWorks(v, n, dqs, m, k, e);
    } else {
      forall k: nat, e | Wins(v, n, dqs, m, last, k, e) ensures false {
        WinnerWorks(v, n, dqs, m, last, k, e);
      }
    }
  }

  lemma CentresAreMet(ws: seq<Window>, start: int, m: int)
    requires ws != [] && ReadDeskew.Centres(ws, start, m)
    ensures AllMet(ws, start, m)
  {
  }

  /** The verdict of the DQS-enable search is that of a run of it against these reads. */
  ghost predicate SearchEnds(test: DqsEnable.ReadTest, ok: bool) {
    exists r, g, pointer, phase, delay ::
      DqsEnable.Calibrated(test, r, g, pointer, phase, delay) && (ok <==> r == DqsEnable.Programmed)
  }

  /** From the reads to the nest: if at some attempt the reads pass on one window of 948 to 34943 ps, and the pins' windows
      found there centre, then the nest works, whatever every other attempt meets. */
  lemma WideWindowsLetTheNestWork(v: Verdicts, tests: (int, int) -> DqsEnable.ReadTest, n: nat, dqs: int, m: int, last: nat,
                                  k: nat, q: int, a: int, width: int)
    requires n > 0 && forall d, e :: SearchEnds(tests(d, e), v.enable(d, e))
    requires k <= last && v.guaranteed(2 * k) && RoundStart(v, n, dqs, m, k) <= q <= m
    requires DqsEnableArc.PassesOnArc(tests(2 * k, q), a, width) && 948 <= width < DqsEnableArc.RING - 4992
    requires ReadDeskew.Centres(WindowsAt(v, 2 * k, q, n), RoundStart(v, n, dqs, m, k), m)
    ensures NestWorks(v, n, dqs, m, last)
  {
    hide ReadDeskew.Centres, RoundStart, DqsEnableArc.PassesOnArc, DqsEnable.Calibrated;
    assert SearchEnds(tests(2 * k, q), v.enable(2 * k, q));
    var test := tests(2 * k, q);
    var r, g, pointer, phase, delay :| DqsEnable.Calibrated(test, r, g, pointer, phase, delay)
                                       && (v.enable(2 * k, q) <==> r == DqsEnable.Programmed);
    DqsEnableArc.WideWindowIsFound(test, a, width, r, g, pointer, phase, delay);
    assert AttemptWorks(v, 2 * k, q, n, RoundStart(v, n, dqs, m, k), m);
    assert RoundWorks(v, n, dqs, m, k);
  }

  /** The pins as a successful attempt at (d, q), in a round that started with DQS at start, leaves them. */
  ghost predicate DeskewedAt(p: Pins, v: Verdicts, d: int, q: int, start: int)
    reads p`ws, p`dqs, p.dq
    requires p.Valid()
  {
    p.ws == WindowsAt(v, d, q, |p.ws|) && p.dqs == RestingDqs(p.ws, start, p.m) && p.AllPass()
  }

  /** One attempt: search the DQS enable with DQS at q, and if that succeeds deskew from the DQS the round started with. */
  method Attempt(p: Pins, group: nat, gbl: Globals, d: int, q: int, start: int, v: Verdicts)
    returns (ok: bool, substage: nat)
    requires p.Valid() && gbl.Valid() && 0 <= start <= q <= p.m
    modifies p`dqs, p`ws, p.dq, gbl
    ensures p.Valid() && |p.ws| == |old(p.ws)|
    ensures gbl.Kept() && PinsReported(old(gbl.log), gbl.log, group, |p.ws|, STAGE_VFIFO, SUBSTAGE_VFIFO_CENTER)
    ensures gbl.log == old(gbl.log) || v.enable(d, q)
    ensures ok <==> AttemptWorks(v, d, q, |p.ws|, start, p.m)
    ensures ok ==> DeskewedAt(p, v, d, q, start)
    ensures !ok ==> p.dqs == AfterAttempt(v, d, q, |p.ws|, start, p.m) && substage == AttemptSubstage(v, d, q)
  {
    hide ReadDeskew.Centres, Windows.Met, Windows.Reachable, Windows.Passes, MinSpread, ReadDqs, Bit, PinsReported;
    ok, substage := false, SUBSTAGE_DQS_EN_PHASE;
    PinsReportedOnce(gbl.log, LATENCY_FAILURE, group, |p.ws|, STAGE_VFIFO, SUBSTAGE_VFIFO_CENTER);
    p.dqs := q;
    p.ApplyDq(0);
    if v.enable(d, q) {
      p.ws := WindowsAt(v, d, q, |p.ws|);
      p.dqs := start;
      var r := ReadDeskew.VfifoCenter(p);
      ok := r.Centred?;
      if !ok {
        substage := SUBSTAGE_VFIFO_CENTER;
      }
      if r.NoWindow? {
        var f := Failure(group * |p.ws| + r.bit, STAGE_VFIFO, SUBSTAGE_VFIFO_CENTER);
        PinsReportedOnce(gbl.log, f, group, |p.ws|, STAGE_VFIFO, SUBSTAGE_VFIFO_CENTER);
        gbl.SetFailingGroupStage(f.group, f.stage, f.substage);
      }
    }
  }

  /** One round of the nest: DQS delays upwards from the one found in the register, which each read deskew gets back
      as its starting point. */
  method TryDqsDelays(p: Pins, group: nat, gbl: Globals, d: int, v: Verdicts)
    returns (ok: bool, substage: nat, q: int, ghost tried: Trace)
    requires p.Valid() && gbl.Valid()
    modifies p`dqs, p`ws, p.dq, gbl
    ensures p.Valid() && |p.ws| == |old(p.ws)|
    ensures gbl.Kept() && PinsReported(old(gbl.log), gbl.log, group, |p.ws|, STAGE_VFIFO, SUBSTAGE_VFIFO_CENTER)
    ensures gbl.log == old(gbl.log) || exists q :: v.enable(d, q)
    ensures ok <==> exists q :: old(p.dqs) <= q <= p.m && AttemptWorks(v, d, q, |p.ws|, old(p.dqs), p.m)
    ensures ok ==> FirstWorks(v, d, q, |p.ws|, old(p.dqs), p.m) && tried == Ramp(d, old(p.dqs), q)
    ensures ok ==> DeskewedAt(p, v, d, q, old(p.dqs))
    ensures !ok ==>
              && p.dqs == AfterAttempt(v, d, p.m, |p.ws|, old(p.dqs), p.m) && substage == AttemptSubstage(v, d, p.m)
              && tried == Ramp(d, old(p.dqs), p.m)
  {
    hide AfterAttempt, AttemptWorks, AttemptSubstage, DeskewedAt, Windows.Passes, Bit, PinReport, PinsReported;
    ok, substage, tried := false, SUBSTAGE_DQS_EN_PHASE, [];
    PinsReportedOnce(gbl.log, LATENCY_FAILURE, group, |p.ws|, STAGE_VFIFO, SUBSTAGE_VFIFO_CENTER);
    var start := p.dqs;
    var n, m := |p.ws|, p.m;
    q := start;
    assert Ramp(d, start, start - 1) == [];
    while q <= m && !ok
      invariant start <= q <= (if ok then m else m + 1) && p.Valid() && |p.ws| == n
      invariant gbl.Kept() && PinsReported(old(gbl.log), gbl.log, group, n, STAGE_VFIFO, SUBSTAGE_VFIFO_CENTER)
      invariant gbl.log == old(gbl.log) || exists e :: v.enable(d, e)
      invariant tried == Ramp(d, start, if ok then q else q - 1)
      invariant ok ==> DeskewedAt(p, v, d, q, start) && FirstWorks(v, d, q, n, start, m)
      invariant !ok ==> forall e | start <= e < q :: !AttemptWorks(v, d, e, n, start, m)
      invariant !ok && q > start ==>
                  p.dqs == AfterAttempt(v, d, q - 1, n, start, m) && substage == AttemptSubstage(v, d, q - 1)
      decreases m - q, !ok
    {
      RampAppend(d, start, q - 1);
      tried := tried + [(d, q)];
      ghost var log := gbl.log;
      ok, substage := Attempt(p, group, gbl, d, q, start, v);
      PinsReportedTwice(old(gbl.log), log, gbl.log, group, n, STAGE_VFIFO, SUBSTAGE_VFIFO_CENTER);
      if !ok {
        q := q + 1;
      }
    }
  }

  /** Round k of the nest, if its guaranteed read passes. */
  method TryRound(p: Pins, group: nat, gbl: Globals, d: int, v: Verdicts, substage0: nat, ghost dqs: int, ghost k: nat,
                  ghost tried0: Trace)
    returns (ok: bool, substage: nat, q: int, ghost tried: Trace)
    requires p.Valid() && gbl.Valid() && d == 2 * k
    requires p.dqs == RoundStart(v, |p.ws|, dqs, p.m, k) && tried0 == NestTrace(v, |p.ws|, dqs, p.m, k)
    requires substage0 == NestSubstage(v, p.m, k)
    modifies p`dqs, p`ws, p.dq, gbl
    ensures p.Valid() && |p.ws| == |old(p.ws)|
    ensures gbl.Kept() && PinsReported(old(gbl.log), gbl.log, group, |p.ws|, STAGE_VFIFO, SUBSTAGE_VFIFO_CENTER)
    ensures gbl.log == old(gbl.log) || SomeSearchSucceeds(v)
    ensures ok <==> RoundWorks(v, |p.ws|, dqs, p.m, k)
    ensures ok ==>
              && v.guaranteed(2 * k) && FirstWorks(v, 2 * k, q, |p.ws|, RoundStart(v, |p.ws|, dqs, p.m, k), p.m)
              && DeskewedAt(p, v, 2 * k, q, RoundStart(v, |p.ws|, dqs, p.m, k))
    ensures !ok ==>
              && p.dqs == RoundStart(v, |p.ws|, dqs, p.m, k + 1) && tried == NestTrace(v, |p.ws|, dqs, p.m, k + 1)
              && substage == NestSubstage(v, p.m, k + 1)
  {
    hide AttemptWorks, AfterAttempt, AttemptSubstage, FirstWorks, Ramp, DeskewedAt, PinReport, Windows.Passes, Bit;
    hide PinsReported;
    PinsReportedOnce(gbl.log, LATENCY_FAILURE, group, |p.ws|, STAGE_VFIFO, SUBSTAGE_VFIFO_CENTER);
    ok, substage, q, tried := false, substage0, 0, tried0;
    if v.guaranteed(d) {
      ghost var t;
      ok, substage, q, t := TryDqsDelays(p, group, gbl, d, v);
      tried := tried + t;
    }
  }

  /** The whole nest, over the output delays 0, 2, .. dtapsPerPtap. It succeeds exactly when one of its rounds works, the
      DQS register being read again in every round. */
  method CalibrateVfifo(p: Pins, group: nat, gbl: Globals, dtapsPerPtap: nat, v: Verdicts)
    returns (ok: bool, round: nat, q: int, ghost tried: Trace)
    requires p.Valid() && gbl.Valid()
    modifies p`dqs, p`ws, p.dq, gbl
    ensures p.Valid() && |p.ws| == |old(p.ws)|
    ensures ok <==> NestWorks(v, |p.ws|, old(p.dqs), p.m, dtapsPerPtap / 2)
    ensures ok ==>
              && Wins(v, |p.ws|, old(p.dqs), p.m, dtapsPerPtap / 2, round, q)
              && DeskewedAt(p, v, 2 * round, q, RoundStart(v, |p.ws|, old(p.dqs), p.m, round))
    ensures !ok ==> tried == NestTrace(v, |p.ws|, old(p.dqs), p.m, dtapsPerPtap / 2 + 1)
    ensures gbl.Kept()
    ensures PinsReported(old(gbl.log), Front(gbl.log, ok), group, |p.ws|, STAGE_VFIFO, SUBSTAGE_VFIFO_CENTER)
    ensures Front(gbl.log, ok) == old(gbl.log) || SomeSearchSucceeds(v)
    ensures !ok ==>
              gbl.log == Front(gbl.log, ok) + [Failure(group, STAGE_VFIFO, NestSubstage(v, p.m, dtapsPerPtap / 2 + 1))]
    ensures !ok && (forall d :: !v.guaranteed(d)) ==> gbl.log[|gbl.log| - 1].substage == SUBSTAGE_GUARANTEED_READ
    ensures !ok && v.guaranteed(0) && (forall d, e :: !v.enable(d, e)) ==>
              gbl.log[|gbl.log| - 1].substage == SUBSTAGE_DQS_EN_PHASE
    ensures !ok && v.guaranteed(0) && (forall d, e :: v.enable(d, e)) ==>
              gbl.log[|gbl.log| - 1].substage == SUBSTAGE_VFIFO_CENTER
  {
    hide RoundWorks, RoundStart, FirstWorks, DeskewedAt, PinReport, Windows.Passes, Bit, PinsReported;
    PinsReportedOnce(gbl.log, LATENCY_FAILURE, group, |p.ws|, STAGE_VFIFO, SUBSTAGE_VFIFO_CENTER);
    ok, round, q, tried := false, 0, 0, [];
    assert RoundStart(v, |p.ws|, p.dqs, p.m, 0) == p.dqs by { RoundZero(v, |p.ws|, p.dqs, p.m); }
    var failedSubstage: nat := SUBSTAGE_GUARANTEED_READ;
    var d := 0;
    ghost var (n, dqs) := (|p.ws|, p.dqs);
    while d <= dtapsPerPtap && !ok
      invariant d == 2 * (if ok then round + 1 else round) && round <= dtapsPerPtap / 2 + 1 && p.Valid() && |p.ws| == n
      invariant gbl.Kept() && PinsReported(old(gbl.log), gbl.log, group, n, STAGE_VFIFO, SUBSTAGE_VFIFO_CENTER)
      invariant gbl.log == old(gbl.log) || SomeSearchSucceeds(v)
      invariant ok ==>
                  && Wins(v, n, dqs, p.m, dtapsPerPtap / 2, round, q) && RoundWorks(v, n, dqs, p.m, round)
                  && DeskewedAt(p, v, 2 * round, q, RoundStart(v, n, dqs, p.m, round))
      invariant !ok ==> forall j: nat | j < round :: !RoundWorks(v, n, dqs, p.m, j)
      invariant !ok ==> p.dqs == RoundStart(v, n, dqs, p.m, round) && tried == NestTrace(v, n, dqs, p.m, round)
      invariant !ok ==> failedSubstage == NestSubstage(v, p.m, round)
      decreases dtapsPerPtap + 2 - d
    {
      ghost var log := gbl.log;
      ok, failedSubstage, q, tried := TryRound(p, group, gbl, d, v, failedSubstage, dqs, round, tried);
      PinsReportedTwice(old(gbl.log), log, gbl.log, group, n, STAGE_VFIFO, SUBSTAGE_VFIFO_CENTER);
      d := d + 2;
      if !ok {
        round := round + 1;
      }
    }
    if !ok {
      BlamesTheCause(v, p.m, round);
      gbl.SetFailingGroupStage(group, STAGE_VFIFO, failedSubstage);
    }
  }

  /** One DQS group: its read pins, its write pins and its mask pin. */
  class Group {
    const read: Pins
    const write: Pins
    const mask: WriteDeskew.MaskPin
    const readPins: nat
    const writePins: nat

    constructor (read: Pins, write: Pins, mask: WriteDeskew.MaskPin)
      requires read.Valid() && write.Valid() && read != write && read.dq != write.dq
      ensures this.read == read && this.write == write && this.mask == mask && Valid()
    {
      this.read, this.write, this.mask, readPins, writePins := read, write, mask, |read.ws|, |write.ws|;
    }

    ghost function Registers(): set<object> {
      {read, read.dq, write, write.dq, mask}
    }

    ghost predicate Valid()
      reads Registers()
    {
      && read.Valid() && write.Valid() && read != write && read.dq != write.dq
      && |read.ws| == readPins && |write.ws| == writePins
    }

    /** Every pin of the group works at the delays programmed: reads, under the test after writes and an enable setting that
        a search has found, writes, and masked writes. */
    ghost predicate Works(v: Verdicts)
      requires Valid()
      reads Registers()
    {
      && (exists d, q :: v.enable(d, q) && read.ws == WindowsAfter(v, d, q, readPins))
      && read.AllPass() && write.AllPass() && mask.test(write.dq[..], mask.delay, write.dqs)
    }

    /** What the group needs to be calibrated, said of its windows and of the DQS delays it starts from. */
    ghost predicate Calibratable(v: Verdicts)
      requires Valid()
      reads Registers()
    {
      && ReadsWork(v, readPins, read.dqs, read.m, 6)
      && WriteDeskew.WritesWork(write.ws, write.dqs, write.m, mask.test)
    }

    /** Write deskew of the group. */
    method CalibrateWrites(group: nat, gbl: Globals) returns (ok: bool)
      requires Valid() && gbl.Valid()
      modifies write`dqs, write.dq, mask`delay, gbl
      ensures Valid()
      ensures ok <==> WriteDeskew.WritesWork(write.ws, old(write.dqs), write.m, mask.test)
      ensures ok ==> write.AllPass() && mask.test(write.dq[..], mask.delay, write.dqs)
      ensures gbl.Kept() && (ok ==> gbl.log == old(gbl.log))
      ensures PinsReported(old(gbl.log), Front(gbl.log, ok), group, writePins, STAGE_WRITES, SUBSTAGE_WRITES_CENTER)
      ensures !ok ==> gbl.log == Front(gbl.log, ok) + [Failure(group, STAGE_WRITES, SUBSTAGE_WRITES_CENTER)]
    {
      hide WriteDeskew.WritesWork;
      var r := WriteDeskew.WritesCenter(write, mask);
      if r.NoWindow? {
        gbl.SetFailingGroupStage(group * |write.ws| + r.bit, STAGE_WRITES, SUBSTAGE_WRITES_CENTER);
      }
      ok := r.Centred?;
      if !ok {
        gbl.SetFailingGroupStage(group, STAGE_WRITES, SUBSTAGE_WRITES_CENTER);
      }
    }

    /** Read deskew again, after the write deskew, on the windows of the test that writes first. */
    method CalibrateVfifoEnd(group: nat, gbl: Globals) returns (ok: bool)
      requires Valid() && gbl.Valid()
      modifies read`dqs, read.dq, gbl
      ensures Valid()
      ensures ok <==> ReadDeskew.Centres(read.ws, old(read.dqs), read.m)
      ensures ok ==> read.AllPass() && gbl.log == old(gbl.log)
      ensures gbl.Kept()
      ensures PinsReported(old(gbl.log), Front(gbl.log, ok), group, readPins, STAGE_VFIFO_AFTER_WRITES, SUBSTAGE_VFIFO_CENTER)
      ensures !ok ==> gbl.log == Front(gbl.log, ok) + [Failure(group, STAGE_VFIFO_AFTER_WRITES, SUBSTAGE_VFIFO_CENTER)]
    {
      hide ReadDqs;
      var r := ReadDeskew.VfifoCenter(read);
      if r.NoWindow? {
        gbl.SetFailingGroupStage(group * |read.ws| + r.bit, STAGE_VFIFO_AFTER_WRITES, SUBSTAGE_VFIFO_CENTER);
      }
      ok := r.Centred?;
      if !ok {
        gbl.SetFailingGroupStage(group, STAGE_VFIFO_AFTER_WRITES, SUBSTAGE_VFIFO_CENTER);
      }
    }

    /** All stages of one group, up to the first that fails. */
    method Calibrate(group: nat, gbl: Globals, v: Verdicts) returns (ok: bool)
      requires Valid() && gbl.Valid()
      modifies Registers(), gbl
      ensures Valid() && gbl.ReportsGroup(v, group, readPins, writePins, ok)
      ensures ok <==> old(Calibratable(v))
      ensures ok ==> Works(v) && exists k: nat, e ::
                Wins(v, readPins, old(read.dqs), read.m, 6, k, e) && read.ws == WindowsAfter(v, 2 * k, e, readPins)
    {
      hide NestWorks, WriteDeskew.WritesWork, PinsReported, GroupReported, PinReport, ReadDeskew.Centres, Wins, RoundStart;
      hide RestingDqs;
      ghost var (dqs, m) := (read.dqs, read.m);
      ghost var log := gbl.log;
      var round, q;
      ghost var tried;
      ok, round, q, tried := CalibrateVfifo(read, group, gbl, 12, v);
      NestSubstageExplained(v, m);
      StageReportsGroup(log, gbl.log, ok, Failure(group, STAGE_VFIFO, NestSubstage(v, m, 7)), v, group, readPins, writePins);
      WinnersAgree(v, readPins, dqs, m, 6, ok, round, q);
      if ok {
        ghost var before := gbl.log;
        ok := CalibrateWrites(group, gbl);
        StageReportsGroup(before, gbl.log, ok, Failure(group, STAGE_WRITES, SUBSTAGE_WRITES_CENTER),
                          v, group, readPins, writePins);
        GroupReportedTwice(log, before, gbl.log, v, group, readPins, writePins);
      }
      if ok {
        WinnerFound(v, readPins, dqs, m, 6, round, q);
        read.ws := WindowsAfter(v, 2 * round, q, readPins);
        ghost var before := gbl.log;
        ok := CalibrateVfifoEnd(group, gbl);
        StageReportsGroup(before, gbl.log, ok, Failure(group, STAGE_VFIFO_AFTER_WRITES, SUBSTAGE_VFIFO_CENTER),
                          v, group, readPins, writePins);
        GroupReportedTwice(log, before, gbl.log, v, group, readPins, writePins);
      }
    }
  }

  ghost predicate Separate(groups: seq<Group>, gbl: Globals) {
    && (forall i | 0 <= i < |groups| :: gbl !in groups[i].Registers())
    && forall i, j | 0 <= i < j < |groups| :: groups[i].Registers() !! groups[j].Registers()
  }

  /** The report is about a group that takes part, or one of its pins. */
  ghost predicate Blames(groups: seq<Group>, skipGroups: nat, v: int -> Verdicts, f: Failure) {
    exists g :: 0 <= g < |groups| && !Bit(skipGroups, g) && GroupReport(f, v(g), g, groups[g].readPins, groups[g].writePins)
  }

  /** Calibrating one group leaves the others alone. */
  method CalibrateGroup(groups: seq<Group>, g: nat, gbl: Globals, v: int -> Verdicts) returns (ok: bool)
    requires g < |groups| && Separate(groups, gbl) && gbl.Valid()
    requires forall i | 0 <= i < |groups| :: groups[i].Valid()
    modifies gbl, groups[g].Registers()
    ensures gbl.ReportsGroup(v(g), g, groups[g].readPins, groups[g].writePins, ok)
    ensures forall i | 0 <= i < |groups| :: groups[i].Valid()
    ensures ok <==> old(groups[g].Calibratable(v(g)))
    ensures ok ==> groups[g].Works(v(g))
    ensures forall i | 0 <= i < |groups| && i != g :: groups[i].Works(v(i)) == old(groups[i].Works(v(i)))
    ensures forall i | 0 <= i < |groups| && i != g :: groups[i].Calibratable(v(i)) == old(groups[i].Calibratable(v(i)))
  {
    hide Group.Works, Group.Valid, Group.Calibratable, GroupReport;
    ok := groups[g].Calibrate(g, gbl, v(g));
    forall i | 0 <= i < |groups| && i != g
      ensures groups[i].Valid() && groups[i].Works(v(i)) == old(groups[i].Works(v(i)))
      ensures groups[i].Calibratable(v(i)) == old(groups[i].Calibratable(v(i)))
    {
      assert groups[i].Registers() !! groups[g].Registers() + {gbl};
    }
  }

  /** Calibrate every group that is not skipped, stopping at the first failure unless told to sweep all groups. */
  method CalibrateGroups(groups: seq<Group>, skipGroups: nat, sweepAll: bool, gbl: Globals, v: int -> Verdicts)
    returns (failingGroups: nat, ghost failed: set<int>)
    requires Separate(groups, gbl) && gbl.Valid() && gbl.log == []
    requires forall i | 0 <= i < |groups| :: groups[i].Valid()
    modifies gbl, set i, o | 0 <= i < |groups| && o in groups[i].Registers() :: o
    ensures gbl.Valid() && gbl.readLatency == old(gbl.readLatency) && (failed != {} ==> gbl.log != [])
    ensures forall k | 0 <= k < |gbl.log| :: Blames(groups, skipGroups, v, gbl.log[k])
    ensures forall i | 0 <= i < |groups| :: groups[i].Valid()
    ensures failingGroups == |failed| && (!sweepAll ==> |failed| <= 1)
    ensures failingGroups == 0 <==> forall i | 0 <= i < |groups| && !Bit(skipGroups, i) :: old(groups[i].Calibratable(v(i)))
    ensures forall i | i in failed :: 0 <= i < |groups| && !Bit(skipGroups, i) && !old(groups[i].Calibratable(v(i)))
    ensures sweepAll || failed == {} ==> forall i | 0 <= i < |groups| && !Bit(skipGroups, i) && i !in failed ::
                groups[i].Works(v(i)) && old(groups[i].Calibratable(v(i)))
  {
    hide Group.Works, Group.Valid, Group.Calibratable, GroupReport, Bit, Separate;
    failingGroups, failed := 0, {};
    for g := 0 to |groups|
      invariant gbl.Valid() && gbl.readLatency == old(gbl.readLatency) && (failed != {} ==> gbl.log != [])
      invariant forall k | 0 <= k < |gbl.log| :: Blames(groups, skipGroups, v, gbl.log[k])
      invariant forall i | 0 <= i < |groups| :: groups[i].Valid()
      invariant failingGroups == |failed| && (!sweepAll ==> failed == {}) && (failingGroups == 0 <==> failed == {})
      invariant failed != {} ==> exists i :: 0 <= i < g && !Bit(skipGroups, i) && !old(groups[i].Calibratable(v(i)))
      invariant forall i | i in failed :: 0 <= i < g && !Bit(skipGroups, i) && !old(groups[i].Calibratable(v(i)))
      invariant forall i | 0 <= i < g && !Bit(skipGroups, i) && i !in failed ::
                  groups[i].Works(v(i)) && old(groups[i].Calibratable(v(i)))
      invariant forall i | g <= i < |groups| :: groups[i].Calibratable(v(i)) == old(groups[i].Calibratable(v(i)))
    {
      if !Bit(skipGroups, g) {
        ghost var before := gbl.log;
        var groupOk := CalibrateGroup(groups, g, gbl, v);
        forall k | 0 <= k < |gbl.log| ensures Blames(groups, skipGroups, v, gbl.log[k]) {
          assert k < |before| ==> gbl.log[k] == before[k];
        }
        if !groupOk {
          failingGroups, failed := failingGroups + 1, failed + {g};
          if !sweepAll {
            return;
          }
        }
      }
    }
  }

  /** The whole calibration. It succeeds exactly when every group that is not skipped can be calibrated and the read latency
      can be found, and then all these groups work at the delays left behind. When it fails, the record holds the first
      failure reported in this run: it names a group that takes part, or one of its pins, or the read latency. */
  method MemCalibrate(groups: seq<Group>, skipGroups: nat, sweepAll: bool, gbl: Globals, v: int -> Verdicts,
                      latencyTest: int -> bool)
    returns (ok: bool)
    requires Separate(groups, gbl) && gbl.readLatency >= 1
    requires forall i | 0 <= i < |groups| :: groups[i].Valid()
    modifies gbl, set i, o | 0 <= i < |groups| && o in groups[i].Registers() :: o
    ensures gbl.Valid() && forall i | 0 <= i < |groups| :: groups[i].Valid()
    ensures ok <==>
              && (forall i | 0 <= i < |groups| && !Bit(skipGroups, i) :: old(groups[i].Calibratable(v(i))))
              && (skipGroups == 0 ==> latencyTest(old(gbl.readLatency)))
    ensures ok ==> forall i | 0 <= i < |groups| && !Bit(skipGroups, i) :: groups[i].Works(v(i))
    ensures ok && skipGroups == 0 ==> latencyTest(gbl.readLatency - 1) && gbl.readLatency <= old(gbl.readLatency) + 1
    ensures !ok ==>
              && gbl.log != [] && gbl.errorStage != STAGE_NIL
              && var first := Failure(gbl.errorGroup, gbl.errorStage, gbl.errorSubstage);
                 first == gbl.log[0] && (Blames(groups, skipGroups, v, first) || first == LATENCY_FAILURE)
  {
    hide Group.Works, Group.Valid, Group.Calibratable, Blames, Bit;
    gbl.Clear();
    forall i | 0 <= i < |groups| ensures groups[i].Calibratable(v(i)) == old(groups[i].Calibratable(v(i))) {
      assert gbl !in groups[i].Registers();
    }
    var failingGroups;
    ghost var failed;
    failingGroups, failed := CalibrateGroups(groups, skipGroups, sweepAll, gbl, v);
    ok := failingGroups == 0;
    if ok && skipGroups == 0 {
      ok := gbl.CalibrateLfifo(latencyTest);
    }
  }
}
