/** What per-bit deskew is for, stated on windows alone: where the edges of a window lie
    inside the swept range, where centring aims, and when the clamped result still passes. */
module Windows {
  import opened Bits

  /** The delays at which one pin passes: lo <= DQS delay - DQ delay <= hi. May be empty. */
  datatype Window = Window(lo: int, hi: int)

  predicate Passes(w: Window, dq: int, dqs: int) {
    w.lo <= dqs - dq <= w.hi
  }

  function Min(a: int, b: int): int { if a < b then a else b }

  function Max(a: int, b: int): int { if a < b then b else a }

  /** Signed division of C, which truncates towards zero. */
  function CDiv(a: int, b: int): int
    requires b > 0
  {
    if a >= 0 then a / b else -((-a) / b)
  }

  function CeilHalf(a: int): int { (a + 1) / 2 }

  /** The verdict word of one test: bit i is set exactly when pin i passes. */
  function TestWord(ws: seq<Window>, dq: seq<int>, dqs: int): nat
    requires |dq| == |ws|
  {
    Pack(seq(|ws|, i requires 0 <= i < |ws| => Passes(ws[i], dq[i], dqs)))
  }

  lemma TestWordBits(ws: seq<Window>, dq: seq<int>, dqs: int)
    requires |dq| == |ws|
    ensures TestWord(ws, dq, dqs) <= Mask(|ws|)
    ensures forall i | 0 <= i < |ws| :: Bit(TestWord(ws, dq, dqs), i) <==> Passes(ws[i], dq[i], dqs)
  {
    var s := seq(|ws|, i requires 0 <= i < |ws| => Passes(ws[i], dq[i], dqs));
    PackBound(s);
    forall i | 0 <= i < |ws| ensures Bit(Pack(s), i) <==> Passes(ws[i], dq[i], dqs) {
      BitOfPack(s, i);
    }
  }

  /** The window meets the swept positions: DQ 0..m with DQS at start, then DQS start..m with DQ at 0. */
  predicate Met(w: Window, start: int, m: int) {
    w.lo <= w.hi && w.lo <= m && start - m <= w.hi
  }

  /** Left edge: the largest swept DQ delay that still passes, negative when only DQS can reach the window. */
  function LeftEdge(w: Window, start: int, m: int): int { Min(start - w.lo, m) }

  /** Right edge: the largest swept DQS shift that still passes, negative when only DQ can reach the window. */
  function RightEdge(w: Window, start: int, m: int): int { Min(w.hi, m) - start }

  /** What the edges mean for the tests: the left edge is the last DQ delay that passes with DQS at start, or counts the
      DQS shifts before the first that passes; the right edge mirrors it. */
  lemma EdgesAreExtremes(w: Window, start: int, m: int)
    requires 0 <= start <= m && Met(w, start, m)
    ensures var l := LeftEdge(w, start, m);
            if l >= 0 then l <= m && Passes(w, l, start) && forall q | l < q <= m :: !Passes(w, q, start)
            else Passes(w, 0, start - l) && forall e | start <= e < start - l :: !Passes(w, 0, e)
    ensures var r := RightEdge(w, start, m);
            if r >= 0 then start + r <= m && Passes(w, 0, start + r) && forall e | start + r < e <= m :: !Passes(w, 0, e)
            else Passes(w, -r, start) && forall q | 0 <= q < -r :: !Passes(w, q, start)
  {
  }

  function Spread(w: Window, start: int, m: int): int {
    LeftEdge(w, start, m) - RightEdge(w, start, m)
  }

  /** The smallest spread of a group: that of the window furthest to the right. */
  function MinSpread(ws: seq<Window>, start: int, m: int): (r: int)
    requires ws != []
  {
    var s := Spread(ws[0], start, m);
    if |ws| == 1 then s else Min(s, MinSpread(ws[1..], start, m))
  }

  lemma {:induction false} MinSpreadBelow(ws: seq<Window>, start: int, m: int, i: nat)
    requires i < |ws|
    ensures MinSpread(ws, start, m) <= Spread(ws[i], start, m)
  {
    if i > 0 {
      MinSpreadBelow(ws[1..], start, m, i - 1);
    }
  }

  lemma {:induction false} MinSpreadAt(ws: seq<Window>, start: int, m: int) returns (k: nat)
    requires ws != []
    ensures k < |ws| && MinSpread(ws, start, m) == Spread(ws[k], start, m)
  {
    k := 0;
    if |ws| > 1 && MinSpread(ws[1..], start, m) <= Spread(ws[0], start, m) {
      k := MinSpreadAt(ws[1..], start, m);
      k := k + 1;
    }
  }

  lemma MinSpreadIs(ws: seq<Window>, start: int, m: int, k: nat)
    requires k < |ws|
    requires forall i | 0 <= i < |ws| :: Spread(ws[k], start, m) <= Spread(ws[i], start, m)
    ensures MinSpread(ws, start, m) == Spread(ws[k], start, m)
  {
    var j := MinSpreadAt(ws, start, m);
    MinSpreadBelow(ws, start, m, k);
  }

  /** The smallest spread is never below that of a window at the far right end of the swept range. */
  lemma MinSpreadBound(ws: seq<Window>, start: int, m: int)
    requires ws != [] && 0 <= start <= m && AllMet(ws, start, m)
    ensures MinSpread(ws, start, m) >= 2 * (start - m)
  {
    var k := MinSpreadAt(ws, start, m);
  }

  ghost predicate AllMet(ws: seq<Window>, start: int, m: int) {
    forall i | 0 <= i < |ws| :: Met(ws[i], start, m)
  }

  /** The position, relative to DQS at start, that centring aims a pin at, given the smallest spread low. */
  function Target(w: Window, low: int, start: int, m: int): int {
    -(CeilHalf(low) + (Spread(w, start, m) - low) / 2)
  }

  /** Centring aims at the middle: the two margins differ by at most one tap, and neither is negative. */
  lemma TargetIsBalanced(w: Window, low: int, start: int, m: int)
    requires Met(w, start, m) && 0 <= start <= m && low <= Spread(w, start, m)
    ensures var x := Target(w, low, start, m);
            var (l, r) := (LeftEdge(w, start, m) + x, RightEdge(w, start, m) - x);
            -1 <= l - r <= 1 && l >= 0 && r >= 0
  {
  }

  /** Where the read deskew leaves DQS: moved with the rightmost window, clamped at zero only. */
  function ReadDqs(low: int, start: int): int {
    Max(start - CeilHalf(low), 0)
  }

  /** Where the read deskew leaves the DQ delay of pin w. */
  function ReadDq(w: Window, low: int, start: int, m: int): int {
    Min(ReadDqs(low, start) - start - Target(w, low, start, m), m)
  }

  /** Some DQ delay in range makes the pin pass with DQS fixed. */
  predicate Reachable(w: Window, dqs: int, m: int) {
    exists q :: 0 <= q <= m && Passes(w, q, dqs)
  }

  lemma ReachableIff(w: Window, dqs: int, m: int)
    requires m >= 0
    ensures Reachable(w, dqs, m) <==> w.lo <= w.hi && w.lo <= dqs && dqs - m <= w.hi
  {
    if w.lo <= w.hi && w.lo <= dqs && dqs - m <= w.hi {
      assert Passes(w, Max(0, dqs - w.hi), dqs);
    }
  }

  /** The upper DQS clamp is unreachable, and pulling DQS back to zero never clamps a DQ: the pin then
      sits exactly where centring aims. */
  lemma ReadClamps(w: Window, low: int, start: int, m: int)
    requires 0 <= start <= m && 2 * (start - m) <= low <= Spread(w, start, m) && Met(w, start, m)
    ensures 0 <= ReadDqs(low, start) <= m
    ensures 0 <= ReadDq(w, low, start, m) <= m
    ensures start - CeilHalf(low) < 0 ==>
              ReadDqs(low, start) - ReadDq(w, low, start, m) == start + Target(w, low, start, m)
  {
    TargetIsBalanced(w, low, start, m);
  }

  /** A pin's centred read delays pass exactly when some DQ delay could pass at the DQS chosen. */
  lemma ReadCentrePasses(w: Window, low: int, start: int, m: int)
    requires 0 <= start <= m && 2 * (start - m) <= low <= Spread(w, start, m) && Met(w, start, m)
    ensures var (dq, dqs) := (ReadDq(w, low, start, m), ReadDqs(low, start));
            && (Passes(w, dq, dqs) <==> Reachable(w, dqs, m))
            && (Passes(w, dq, dqs) <==>
                LeftEdge(w, start, m) + (dqs - dq - start) >= 0 && RightEdge(w, start, m) - (dqs - dq - start) >= 0)
  {
    TargetIsBalanced(w, low, start, m);
    ReadClamps(w, low, start, m);
    ReachableIff(w, ReadDqs(low, start), m);
  }

  /** The delay that brings a pin level with the narrowest spread, kept inside the delay chain. */
  function Levelled(spread: int, narrowest: int, move: int, m: nat): int {
    Max(0, Min((spread - narrowest) / 2 + move, m))
  }

  predicate MarginsHold(l: int, r: int, shift: int, midMin: int) {
    l - shift - midMin >= 0 && r + shift + midMin >= 0
  }

  /** Levelling puts a read pin at its centred delay, and its two margins are non-negative exactly when it
      passes, exactly when it is in reach of the DQS chosen. The upper limit on DQS is never met. */
  lemma LevelledRead(w: Window, low: int, start: int, m: nat, l: int, r: int, dqs: int, q: int)
    requires 0 <= start <= m && 2 * (start - m) <= low <= Spread(w, start, m) && Met(w, start, m)
    requires l == LeftEdge(w, start, m) && r == RightEdge(w, start, m)
    requires dqs == Max(Min(start - CeilHalf(low), m), 0)
    requires q == Levelled(l - r, low, CeilHalf(low) - (start - dqs), m)
    ensures dqs == ReadDqs(low, start) && 0 <= dqs <= m
    ensures q == ReadDq(w, low, start, m) && 0 <= q <= m
    ensures Passes(w, q, dqs) <==> Reachable(w, dqs, m)
    ensures MarginsHold(l, r, q, start - dqs) <==> Passes(w, q, dqs)
  {
    ReadClamps(w, low, start, m);
    ReadCentrePasses(w, low, start, m);
  }

  /** Read deskew can only lose a pin by moving DQS up: otherwise every window it found stays in reach. */
  lemma OnlyRaisingDqsLosesAPin(ws: seq<Window>, start: int, m: int, i: nat)
    requires i < |ws| && 0 <= start <= m && AllMet(ws, start, m)
    requires ReadDqs(MinSpread(ws, start, m), start) <= start
    ensures Reachable(ws[i], ReadDqs(MinSpread(ws, start, m), start), m)
  {
    MinSpreadBelow(ws, start, m, i);
    MinSpreadBound(ws, start, m);
    ReachableIff(ws[i], ReadDqs(MinSpread(ws, start, m), start), m);
  }

  /** Seen from the DQS that a read deskew moved to, no window asks for DQS to be raised again. */
  lemma SettledSpread(w: Window, low: int, start: int, m: int)
    requires 0 <= start <= m && 2 * (start - m) <= low <= Spread(w, start, m) && Met(w, start, m)
    ensures Spread(w, ReadDqs(low, start), m) >= -1
  {
  }

  /** Deskewing again from there never moves DQS up, so it keeps every pin that is in reach. */
  lemma RedeskewKeepsReach(ws: seq<Window>, start: int, m: int, i: nat)
    requires i < |ws| && 0 <= start <= m && AllMet(ws, start, m)
    requires var dqs := ReadDqs(MinSpread(ws, start, m), start); AllMet(ws, dqs, m)
    ensures var dqs := ReadDqs(MinSpread(ws, start, m), start);
            var again := ReadDqs(MinSpread(ws, dqs, m), dqs);
            0 <= again <= dqs <= m && Reachable(ws[i], again, m)
  {
    hide Spread, Met, Reachable;
    var low := MinSpread(ws, start, m);
    var dqs := ReadDqs(low, start);
    var k := MinSpreadAt(ws, dqs, m);
    MinSpreadBelow(ws, start, m, k);
    MinSpreadBound(ws, start, m);
    ReadClamps(ws[k], low, start, m);
    SettledSpread(ws[k], low, start, m);
    OnlyRaisingDqsLosesAPin(ws, dqs, m, i);
  }

  /** When no DQ delay is cut off, every pin ends in the middle of its window, with margins at most one tap apart, and
      passes. */
  lemma UnclampedReadsAreBalanced(ws: seq<Window>, start: int, m: int, i: nat)
    requires i < |ws| && 0 <= start <= m && AllMet(ws, start, m)
    requires var low := MinSpread(ws, start, m);
             ReadDqs(low, start) - start - Target(ws[i], low, start, m) <= m
    ensures var low := MinSpread(ws, start, m);
            var (dq, dqs) := (ReadDq(ws[i], low, start, m), ReadDqs(low, start));
            var (l, r) := (LeftEdge(ws[i], start, m) + (dqs - dq - start), RightEdge(ws[i], start, m) - (dqs - dq - start));
            -1 <= l - r <= 1 && l >= 0 && r >= 0 && Passes(ws[i], dq, dqs)
  {
    MinSpreadBelow(ws, start, m, i);
    TargetIsBalanced(ws[i], MinSpread(ws, start, m), start, m);
  }

  /** Where the write deskew, which never moves DQS, leaves the DQ delay of pin w. */
  function WriteDq(w: Window, low: int, start: int, m: int): int {
    Max(-Target(w, low, start, m), 0)
  }

  /** A write pin that is moved ends in the middle of its window, margins at most one tap apart; one that is not moved has
      no more margin on the left, where its delay could only take from it. */
  lemma WritesAreBalanced(ws: seq<Window>, start: int, m: int, i: nat)
    requires i < |ws| && 0 <= start <= m && AllMet(ws, start, m)
    ensures var dq := WriteDq(ws[i], MinSpread(ws, start, m), start, m);
            var (l, r) := (LeftEdge(ws[i], start, m) - dq, RightEdge(ws[i], start, m) + dq);
            dq >= 0 && l - r <= 1 && (dq > 0 ==> l - r >= -1)
  {
    MinSpreadBelow(ws, start, m, i);
  }

  /** The same for a read pin: in the middle unless it is cut off at the largest delay; and the pin with the smallest spread
      is not delayed, unless DQS could not go as low as that asks. */
  lemma ReadsAreBalanced(ws: seq<Window>, start: int, m: int, i: nat)
    requires i < |ws| && 0 <= start <= m && AllMet(ws, start, m)
    ensures var low := MinSpread(ws, start, m);
            var (dq, dqs) := (ReadDq(ws[i], low, start, m), ReadDqs(low, start));
            var (l, r) := (LeftEdge(ws[i], start, m) + (dqs - dq - start), RightEdge(ws[i], start, m) - (dqs - dq - start));
            && l - r >= -1 && (dq < m ==> l - r <= 1)
            && (Spread(ws[i], start, m) == low && dqs > 0 ==> dq == 0)
  {
    MinSpreadBelow(ws, start, m, i);
  }

  /** A pin's centred write delay is in range, and passes exactly when some DQ delay could pass at the fixed DQS. */
  lemma WriteCentrePasses(w: Window, low: int, start: int, m: int)
    requires 0 <= start <= m && low <= Spread(w, start, m) && Met(w, start, m)
    ensures var dq := WriteDq(w, low, start, m);
            && 0 <= dq <= m
            && (Passes(w, dq, start) <==> Reachable(w, start, m))
            && (Passes(w, dq, start) <==> LeftEdge(w, start, m) - dq >= 0 && RightEdge(w, start, m) + dq >= 0)
  {
    TargetIsBalanced(w, low, start, m);
    ReachableIff(w, start, m);
  }

  /** Levelling with DQS fixed puts a write pin at its centred delay, and its two margins are non-negative exactly
      when it passes, exactly when some delay would. */
  lemma LevelledWrite(w: Window, low: int, start: int, m: nat, l: int, r: int, q: int)
    requires 0 <= start <= m && low <= Spread(w, start, m) && Met(w, start, m)
    requires l == LeftEdge(w, start, m) && r == RightEdge(w, start, m)
    requires q == Levelled(l - r, low, CeilHalf(low), m)
    ensures q == WriteDq(w, low, start, m) && 0 <= q <= m
    ensures Passes(w, q, start) <==> Reachable(w, start, m)
    ensures MarginsHold(l, r, q, 0) <==> Passes(w, q, start)
  {
    WriteCentrePasses(w, low, start, m);
  }

  /** A pin whose window misses the swept range passes at no DQ delay with DQS fixed. */
  lemma UnmetIsUnreachable(w: Window, start: int, m: int)
    requires 0 <= start <= m && !Met(w, start, m)
    ensures !Reachable(w, start, m)
  {
    ReachableIff(w, start, m);
  }

  /** The DQS delay that every group starts from. */
  const DQS_IN_RESERVE := 4

  /** Read deskew is not complete: from the delay every group starts with it follows pin 0 and moves DQS to 10, out of
      reach of pin 1, although DQS 5 serves both pins. */
  lemma ReadDeskewMissesASetting()
    ensures var ws := [Window(0, 20), Window(-25, -25)];
            && AllMet(ws, DQS_IN_RESERVE, 31)
            && (forall i | 0 <= i < |ws| :: Reachable(ws[i], 5, 31))
            && ReadDqs(MinSpread(ws, DQS_IN_RESERVE, 31), DQS_IN_RESERVE) == 10
            && !Reachable(ws[1], 10, 31)
  {
    var ws := [Window(0, 20), Window(-25, -25)];
    MinSpreadIs(ws, DQS_IN_RESERVE, 31, 0);
    assert Passes(ws[0], 0, 5) && Passes(ws[1], 30, 5);
  }
}
