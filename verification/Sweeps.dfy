/** The edge searches shared by read and write deskew: delay registers, the sweep loops and
    the edge bookkeeping, proved to find the edges of every window that meets the swept range. */
module Sweeps {
  import opened Bits
  import opened Windows

  /** The source returns 1 for Centred and 0 otherwise; a missing window also records a failure. */
  datatype CenterResult = Centred | OutOfMargin | NoWindow(bit: nat)

  /** The delay registers of the pins of one DQS group, with the hardware's answer to a test. */
  class Pins {
    const m: nat                  // largest delay tap
    var ws: seq<Window>           // one window per DQ pin
    const dq: array<int>          // DQ delay registers
    var dqs: int                  // DQS delay register

    ghost predicate Valid()
      reads `ws, `dqs, dq
    {
      && ws != []
      && dq.Length == |ws|
      && 0 <= dqs <= m
      && forall i | 0 <= i < |ws| :: 0 <= dq[i] <= m
    }

    ghost predicate AllPass()
      reads `ws, `dqs, dq
      requires dq.Length == |ws|
    {
      forall i | 0 <= i < |ws| :: Passes(ws[i], dq[i], dqs)
    }

    constructor (ws: seq<Window>, m: nat, dqs: int)
      requires ws != [] && 0 <= dqs <= m
      ensures Valid() && fresh(dq)
      ensures this.ws == ws && this.m == m && this.dqs == dqs
      ensures dq[..] == seq(|ws|, i => 0)
    {
      this.ws := ws;
      this.m := m;
      this.dqs := dqs;
      dq := new int[|ws|](i => 0);
    }

    /** Give every DQ pin of the group the same delay. */
    method ApplyDq(delay: int)
      requires dq.Length == |ws|
      modifies dq
      ensures forall i | 0 <= i < |ws| :: dq[i] == delay
    {
      for i := 0 to dq.Length
        invariant forall j | 0 <= j < i :: dq[j] == delay
      {
        dq[i] := delay;
      }
    }

    /** The verdict word of one test at the current registers. */
    method Test() returns (chk: nat)
      requires dq.Length == |ws|
      ensures chk <= Mask(|ws|)
      ensures forall i | 0 <= i < |ws| :: Bit(chk, i) <==> Passes(ws[i], dq[i], dqs)
    {
      chk := TestWord(ws, dq[..], dqs);
      TestWordBits(ws, dq[..], dqs);
    }

    /** Sweep DQ up with DQS fixed and record the edges seen so far: the first sweep of both the read and the write path. */
    method LeftSweep(left: array<int>, right: array<int>)
      requires Valid() && left.Length == right.Length == |ws|
      requires left != right && left != dq && right != dq
      modifies dq, left, right
      ensures forall i | 0 <= i < |ws| :: dq[i] == 0
      ensures forall i | 0 <= i < |ws| ::
                left[i] == LeftOfLeft(ws[i], dqs, m, m + 1) && right[i] == RightOfLeft(ws[i], dqs, m, m + 1)
    {
      var n := |ws|;
      var sticky: nat := 0;
      for i := 0 to n
        invariant forall j | 0 <= j < i :: left[j] == m + 1 && right[j] == m + 1
      {
        left[i], right[i] := m + 1, m + 1;
      }
      forall i | 0 <= i < n ensures !Bit(sticky, i) { BitOfZero(i); }

      var d := 0;
      while d <= m
        invariant 0 <= d <= m + 1
        invariant sticky <= Mask(n)
        invariant forall i | 0 <= i < n :: Bit(sticky, i) <==> SeenLeft(ws[i], dqs, d)
        invariant forall i | 0 <= i < n ::
                    left[i] == LeftOfLeft(ws[i], dqs, m, d) && right[i] == RightOfLeft(ws[i], dqs, m, d)
      {
        ApplyDq(d);
        var chk := Test();
        var before := sticky;
        sticky := Or(sticky, chk);
        OrBound(before, chk, n);
        forall i | 0 <= i < n ensures Bit(sticky, i) <==> SeenLeft(ws[i], dqs, d + 1) {
          BitOfOr(before, chk, i);
        }
        if chk == 0 && sticky == Mask(n) {
          ZeroWord(chk, n);
          FullMask(sticky, n);
          forall i | 0 <= i < n
            ensures left[i] == LeftOfLeft(ws[i], dqs, m, m + 1) && right[i] == RightOfLeft(ws[i], dqs, m, m + 1)
          {
            assert Bit(sticky, i) && !Bit(chk, i);
          }
          break;
        }
        RecordLeft(chk, d, m, left, right, ws, dqs);
        d := d + 1;
      }
      ApplyDq(0);
    }

    /** Between the sweeps: drop right edges without a left edge, and mark as accounted for the pins
        whose two edges are both known. */
    method ResetEdges(left: array<int>, right: array<int>, bothEdges: bool) returns (sticky: nat)
      requires Valid() && left.Length == right.Length == |ws| && left != right
      requires forall i | 0 <= i < |ws| ::
                 && left[i] == LeftOfLeft(ws[i], dqs, m, m + 1)
                 && right[i] == RightOfLeft(ws[i], dqs, m, m + 1)
      modifies right
      ensures right != dq ==> forall i | 0 <= i < |ws| :: dq[i] == old(dq[i])
      ensures sticky <= Mask(|ws|)
      ensures forall i | 0 <= i < |ws| :: Bit(sticky, i) ==> SeenLeft(ws[i], dqs, m + 1)
      ensures forall i | 0 <= i < |ws| ::
                left[i] == LeftOfRight(ws[i], dqs, m, 0) && right[i] == RightOfRight(ws[i], dqs, m, 0)
    {
      var n := |ws|;
      sticky := 0;
      var i := n;
      forall k: nat ensures !Bit(0, k) { BitOfZero(k); }
      while i > 0
        invariant 0 <= i <= n
        invariant right != dq ==> forall j | 0 <= j < n :: dq[j] == old(dq[j])
        invariant sticky <= Mask(n - i)
        invariant forall j | i <= j < n :: Bit(sticky, j - i) ==> SeenLeft(ws[j], dqs, m + 1)
        invariant forall j | i <= j < n :: right[j] == RightOfRight(ws[j], dqs, m, 0)
        invariant forall j | 0 <= j < i :: right[j] == RightOfLeft(ws[j], dqs, m, m + 1)
      {
        i := i - 1;
        if left[i] == m + 1 && right[i] != m + 1 {
          right[i] := m + 1;
        }
        ghost var before := sticky;
        sticky := 2 * sticky;
        if left[i] != m + 1 && (!bothEdges || right[i] != m + 1) {
          sticky := sticky + 1;
        }
        forall j | i <= j < n ensures Bit(sticky, j - i) ==> SeenLeft(ws[j], dqs, m + 1) {
          assert j > i ==> Bit(sticky, j - i) == Bit(before, j - (i + 1));
        }
      }
    }

    /** Sweep DQS up from its present value with every DQ at 0, extending the edges found by the left
        sweep. sticky names the pins already accounted for; marginal is set by the write path, which
        also marks pins when the sweep stops on its very first test. */
    method RightSweep(left: array<int>, right: array<int>, sticky0: nat, marginal: bool)
      requires Valid() && left.Length == right.Length == |ws|
      requires left != right && left != dq && right != dq
      requires forall i | 0 <= i < |ws| :: dq[i] == 0
      requires sticky0 <= Mask(|ws|)
      requires forall i | 0 <= i < |ws| :: Bit(sticky0, i) ==> SeenLeft(ws[i], dqs, m + 1)
      requires forall i | 0 <= i < |ws| ::
                 left[i] == LeftOfRight(ws[i], dqs, m, 0) && right[i] == RightOfRight(ws[i], dqs, m, 0)
      modifies `dqs, left, right
      ensures old(dqs) <= dqs <= m
      ensures dqs == m || forall i | 0 <= i < |ws| :: Met(ws[i], old(dqs), m)
      ensures forall i | 0 <= i < |ws| ::
                && left[i] == LeftOfRight(ws[i], old(dqs), m, m - old(dqs) + 1)
                && right[i] == RightOfRight(ws[i], old(dqs), m, m - old(dqs) + 1)
    {
      hide LeftOfRight, RightOfRight, RightStep, SeenLeft, SeenRight, Passes, Met;
      var n := |ws|;
      var start := dqs;
      var sticky: nat := sticky0;
      forall i | 0 <= i < n ensures !SeenRight(ws[i], start, 0) { SeenRightStep(ws[i], start, 0); }
      var d := 0;
      while d <= m - start
        invariant 0 <= d <= m - start + 1
        invariant start <= dqs <= m && (d > 0 ==> dqs == start + d - 1)
        invariant sticky <= Mask(n)
        invariant forall i | 0 <= i < n :: Bit(sticky, i) <==> Bit(sticky0, i) || SeenRight(ws[i], start, d)
        invariant forall i | 0 <= i < n ::
                    left[i] == LeftOfRight(ws[i], start, m, d) && right[i] == RightOfRight(ws[i], start, m, d)
      {
        dqs := d + start;
        var chk := Test();
        var before := sticky;
        sticky := Or(sticky, chk);
        OrBound(before, chk, n);
        forall i | 0 <= i < n ensures Bit(sticky, i) <==> Bit(sticky0, i) || SeenRight(ws[i], start, d + 1) {
          BitOfOr(before, chk, i);
          SeenRightStep(ws[i], start, d);
        }
        if chk == 0 && sticky == Mask(n) {
          ZeroWord(chk, n);
          FullMask(sticky, n);
          forall i | 0 <= i < n
            ensures left[i] == LeftOfRight(ws[i], start, m, m - start + 1)
            ensures right[i] == RightOfRight(ws[i], start, m, m - start + 1)
            ensures !(d == 0 && right[i] == m + 1 && left[i] != m + 1)
            ensures Met(ws[i], start, m)
          {
            assert Bit(sticky, i) && !Bit(chk, i);
            RightStopIsFinal(ws[i], start, m, d);
          }
          if marginal && d == 0 {
            MarkMarginal(m, left, right);
          }
          break;
        }
        ghost var (l, r) := (left[..], right[..]);
        RecordRight(chk, d, m, left, right);
        forall i | 0 <= i < n
          ensures left[i] == LeftOfRight(ws[i], start, m, d + 1) && right[i] == RightOfRight(ws[i], start, m, d + 1)
        {
          RightStepAdvances(ws[i], start, m, d);
          assert (left[i], right[i]) == RightStep(Bit(chk, i), d, m, l[i], r[i]);
        }
        d := d + 1;
      }
    }

    /** The first pin for which the two sweeps did not find both edges, or the number of pins. */
    method FirstMissing(left: array<int>, right: array<int>, start: int) returns (i: nat)
      requires 0 <= start <= m && left.Length == right.Length == |ws|
      requires forall j | 0 <= j < |ws| ::
                 && left[j] == LeftOfRight(ws[j], start, m, m - start + 1)
                 && right[j] == RightOfRight(ws[j], start, m, m - start + 1)
      ensures i <= |ws| && forall j | 0 <= j < i :: Met(ws[j], start, m)
      ensures i < |ws| ==> !Met(ws[i], start, m)
      ensures i == |ws| ==> forall j | 0 <= j < |ws| ::
                left[j] == LeftEdge(ws[j], start, m) && right[j] == RightEdge(ws[j], start, m)
    {
      i := 0;
      while i < |ws|
        invariant i <= |ws|
        invariant forall j | 0 <= j < i ::
                    Met(ws[j], start, m) && left[j] == LeftEdge(ws[j], start, m) && right[j] == RightEdge(ws[j], start, m)
      {
        EdgesAreExact(ws[i], start, m);
        if left[i] == m + 1 || right[i] == m + 1 {
          return;
        }
        i := i + 1;
      }
    }

    /** Add delay to every DQ pin to level the windows, keep it inside the delay chain, and report whether
        both margins stayed non-negative. */
    method Level(left: array<int>, right: array<int>, index: nat, origMid: int, midMin: int) returns (ok: bool)
      requires dq.Length == |ws| && left.Length == right.Length == |ws| && left != dq && right != dq
      requires forall i | 0 <= i < |ws| :: dq[i] == 0
      requires index < |ws| && forall i | 0 <= i < |ws| :: left[index] - right[index] <= left[i] - right[i]
      modifies dq
      ensures forall i | 0 <= i < |ws| ::
                dq[i] == Levelled(left[i] - right[i], left[index] - right[index], origMid - midMin, m)
      ensures ok <==> forall i | 0 <= i < |ws| :: MarginsHold(left[i], right[i], dq[i], midMin)
    {
      hide Levelled;
      var dqsMargin, dqMargin := m + 1, m + 1;
      for i := 0 to |ws|
        invariant forall j | 0 <= j < i ::
                    dq[j] == Levelled(left[j] - right[j], left[index] - right[index], origMid - midMin, m)
        invariant forall j | i <= j < |ws| :: dq[j] == 0
        invariant (dqMargin >= 0 && dqsMargin >= 0) <==>
                    forall j | 0 <= j < i :: MarginsHold(left[j], right[j], dq[j], midMin)
      {
        var shift := PinShift(left[i] - right[i], left[index] - right[index], origMid - midMin, dq[i], m);
        dq[i] := dq[i] + shift;
        if left[i] - shift + (-midMin) < dqMargin {
          dqMargin := left[i] - shift + (-midMin);
        }
        if right[i] + shift - (-midMin) < dqsMargin {
          dqsMargin := right[i] + shift - (-midMin);
        }
      }
      ok := dqMargin >= 0 && dqsMargin >= 0;
    }
  }

  /** How far to move one pin to level it with the narrowest spread, kept inside the delay chain. */
  method PinShift(spread: int, narrowest: int, move: int, delay: int, m: nat) returns (shift: int)
    requires narrowest <= spread && 0 <= delay <= m
    ensures delay == 0 ==> shift == Levelled(spread, narrowest, move, m)
    ensures shift == Max(-delay, Min((spread - narrowest) / 2 + move, m - delay))
  {
    shift := CDiv(spread - narrowest, 2) + move;
    if shift + delay > m {
      shift := m - delay;
    } else if shift + delay < 0 {
      shift := -delay;
    }
  }

  /** Some DQ delay below d passed with DQS at start. */
  predicate SeenLeft(w: Window, start: int, d: int) {
    Max(0, start - w.hi) <= Min(d - 1, start - w.lo)
  }

  /** Some DQS shift below d passed with DQ at 0. */
  predicate SeenRight(w: Window, start: int, d: int) {
    Max(0, w.lo - start) <= Min(d - 1, w.hi - start)
  }

  /** The two edge entries after DQ delays 0..d-1; m + 1 marks an edge not found. */
  function LeftOfLeft(w: Window, start: int, m: int, d: int): int {
    if SeenLeft(w, start, d) then Min(start - w.lo, d - 1) else m + 1
  }

  function RightOfLeft(w: Window, start: int, m: int, d: int): int {
    if d == 0 || Passes(w, 0, start) then m + 1
    else if SeenLeft(w, start, d) then w.hi - start
    else -d
  }

  /** The right sweep starts from the left sweep's entries, except that a right edge without a
      left edge is reset to not found. */
  function LeftOfRight(w: Window, start: int, m: int, d: int): int {
    if SeenLeft(w, start, m + 1) then LeftOfLeft(w, start, m, m + 1)
    else if d == 0 then m + 1
    else if SeenRight(w, start, d) then start - w.lo
    else -d
  }

  function RightOfRight(w: Window, start: int, m: int, d: int): int {
    if SeenRight(w, start, d) then Min(w.hi - start, d - 1)
    else if SeenLeft(w, start, m + 1) then RightOfLeft(w, start, m, m + 1)
    else m + 1
  }

  /** The two sweeps together: both edges are found exactly for the windows that meet the swept
      range, and then they are the edges of the window inside that range. */
  lemma EdgesAreExact(w: Window, start: int, m: int)
    requires 0 <= start <= m
    ensures var l := LeftOfRight(w, start, m, m - start + 1);
            var r := RightOfRight(w, start, m, m - start + 1);
            && (Met(w, start, m) <==> l != m + 1 && r != m + 1)
            && (Met(w, start, m) ==> l == LeftEdge(w, start, m) && r == RightEdge(w, start, m))
  {
  }

  /** The bookkeeping of one left-sweep test: a pass moves the left edge; a failure before any
      pass marks where a later pass would put the right edge. */
  method RecordLeft(chk: nat, d: nat, m: nat, left: array<int>, right: array<int>, ghost ws: seq<Window>, ghost start: int)
    requires left != right && left.Length == right.Length == |ws| && d <= m
    requires forall i | 0 <= i < |ws| :: Bit(chk, i) <==> Passes(ws[i], d, start)
    requires forall i | 0 <= i < |ws| ::
               left[i] == LeftOfLeft(ws[i], start, m, d) && right[i] == RightOfLeft(ws[i], start, m, d)
    modifies left, right
    ensures forall i | 0 <= i < |ws| ::
              left[i] == LeftOfLeft(ws[i], start, m, d + 1) && right[i] == RightOfLeft(ws[i], start, m, d + 1)
  {
    var bits := chk;
    for i := 0 to left.Length
      invariant bits == Shr(chk, i)
      invariant forall j | 0 <= j < i ::
                  left[j] == LeftOfLeft(ws[j], start, m, d + 1) && right[j] == RightOfLeft(ws[j], start, m, d + 1)
      invariant forall j | i <= j < |ws| ::
                  left[j] == LeftOfLeft(ws[j], start, m, d) && right[j] == RightOfLeft(ws[j], start, m, d)
    {
      BitOfShr(chk, i, 0);
      if bits % 2 == 1 {
        left[i] := d;
      } else if left[i] == m + 1 {
        right[i] := -(d + 1);
      }
      ShrStep(chk, i);
      bits := bits / 2;
    }
  }

  /** The bookkeeping of one right-sweep test for one pin: the mirror image of the left one, except that
      at d = 0 a pin that passed in the left sweep is taken as marginal. */
  function RightStep(pass: bool, d: nat, m: nat, l: int, r: int): (int, int) {
    if pass then (l, d)
    else if r != m + 1 then (l, r)
    else if d == 0 && l != m + 1 then (l, -1)
    else (-(d + 1), r)
  }

  lemma SeenRightStep(w: Window, start: int, d: nat)
    ensures SeenRight(w, start, d + 1) <==> SeenRight(w, start, d) || Passes(w, 0, start + d)
    ensures !SeenRight(w, start, 0)
  {
  }

  lemma RightStepAdvances(w: Window, start: int, m: nat, d: nat)
    requires 0 <= start && start + d <= m
    ensures RightStep(Passes(w, 0, start + d), d, m, LeftOfRight(w, start, m, d), RightOfRight(w, start, m, d))
         == (LeftOfRight(w, start, m, d + 1), RightOfRight(w, start, m, d + 1))
  {
  }

  /** Stopping at d when the pin is accounted for and fails loses nothing. */
  lemma RightStopIsFinal(w: Window, start: int, m: nat, d: nat)
    requires 0 <= start && start + d <= m && !Passes(w, 0, start + d)
    requires SeenLeft(w, start, m + 1) || SeenRight(w, start, d + 1)
    ensures LeftOfRight(w, start, m, d) == LeftOfRight(w, start, m, m - start + 1)
    ensures RightOfRight(w, start, m, d) == RightOfRight(w, start, m, m - start + 1)
    ensures d == 0 ==> RightOfRight(w, start, m, 0) != m + 1
    ensures Met(w, start, m)
  {
  }

  method RecordRight(chk: nat, d: nat, m: nat, left: array<int>, right: array<int>)
    requires left != right && left.Length == right.Length
    modifies left, right
    ensures forall i | 0 <= i < left.Length ::
              (left[i], right[i]) == RightStep(Bit(chk, i), d, m, old(left[i]), old(right[i]))
  {
    var bits := chk;
    for i := 0 to left.Length
      invariant bits == Shr(chk, i)
      invariant forall j | 0 <= j < i ::
                  (left[j], right[j]) == RightStep(Bit(chk, j), d, m, old(left[j]), old(right[j]))
      invariant forall j | i <= j < left.Length :: left[j] == old(left[j]) && right[j] == old(right[j])
    {
      BitOfShr(chk, i, 0);
      if bits % 2 == 1 {
        right[i] := d;
      } else if d != 0 {
        if right[i] == m + 1 {
          left[i] := -(d + 1);
        }
      } else if right[i] == m + 1 && left[i] != m + 1 {
        right[i] := -1;
      } else if right[i] == m + 1 {
        left[i] := -(d + 1);
      }
      ShrStep(chk, i);
      bits := bits / 2;
    }
  }

  /** The write path's extra step when its right sweep stops on the first test. */
  method MarkMarginal(m: nat, left: array<int>, right: array<int>)
    requires left != right && left.Length == right.Length
    modifies right
    ensures forall i | 0 <= i < right.Length ::
              right[i] == if old(right[i]) == m + 1 && left[i] != m + 1 then -1 else old(right[i])
  {
    for i := 0 to right.Length
      invariant forall j | 0 <= j < i ::
                  right[j] == if old(right[j]) == m + 1 && left[j] != m + 1 then -1 else old(right[j])
      invariant forall j | i <= j < right.Length :: right[j] == old(right[j])
    {
      if right[i] == m + 1 && left[i] != m + 1 {
        right[i] := -1;
      }
    }
  }

  /** The pin with the smallest spread, the first one on a tie. */
  method Narrowest(left: array<int>, right: array<int>) returns (mid: int, index: nat)
    requires left.Length == right.Length > 0
    ensures index < left.Length && mid == left[index] - right[index]
    ensures forall i | 0 <= i < left.Length :: mid <= left[i] - right[i]
  {
    mid, index := left[0] - right[0], 0;
    for i := 1 to left.Length
      invariant index < left.Length && mid == left[index] - right[index]
      invariant forall j | 0 <= j < i :: mid <= left[j] - right[j]
    {
      var s := left[i] - right[i];
      if s < mid {
        mid, index := s, i;
      }
    }
  }

  /** Halving with the bias the source applies before its truncating division. */
  method HalfRoundedUp(mid: int) returns (h: int)
    ensures h == CeilHalf(mid)
  {
    h := mid;
    if h > 0 {
      h := h + 1;
    }
    h := CDiv(h, 2);
  }
}
