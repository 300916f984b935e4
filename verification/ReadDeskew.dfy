/** Per-bit read deskew of one DQS group: find every pin's window, then centre DQ and DQS. */
module ReadDeskew {
  import opened Bits
  import opened Windows
  import opened Sweeps

  /** The windows that read deskew centres from DQS at start: all meet the swept range, and all stay in reach of the DQS
      it moves to. */
  ghost predicate Centres(ws: seq<Window>, start: int, m: int)
    requires ws != []
  {
    AllMet(ws, start, m) && forall i | 0 <= i < |ws| :: Reachable(ws[i], ReadDqs(MinSpread(ws, start, m), start), m)
  }

  /** A read deskew that succeeded succeeds again from the DQS it left behind. */
  lemma CentresAgain(ws: seq<Window>, start: int, m: int)
    requires ws != [] && 0 <= start <= m && Centres(ws, start, m)
    ensures Centres(ws, ReadDqs(MinSpread(ws, start, m), start), m)
  {
    hide Reachable, ReadDqs;
    var dqs := ReadDqs(MinSpread(ws, start, m), start);
    forall i | 0 <= i < |ws| ensures Met(ws[i], dqs, m) {
      ReachableIff(ws[i], dqs, m);
    }
    forall i | 0 <= i < |ws| ensures Reachable(ws[i], ReadDqs(MinSpread(ws, dqs, m), dqs), m) {
      RedeskewKeepsReach(ws, start, m, i);
    }
  }

  method VfifoCenter(p: Pins) returns (r: CenterResult)
    requires p.Valid()
    modifies p`dqs, p.dq
    ensures p.Valid()
    ensures r.Centred? ==> p.AllPass()
    ensures r.Centred? <==> Centres(p.ws, old(p.dqs), p.m)
    ensures AllMet(p.ws, old(p.dqs), p.m) ==>
              var low := MinSpread(p.ws, old(p.dqs), p.m);
              && !r.NoWindow?
              && p.dqs == ReadDqs(low, old(p.dqs))
              && forall i | 0 <= i < |p.ws| :: p.dq[i] == ReadDq(p.ws[i], low, old(p.dqs), p.m)
    ensures !AllMet(p.ws, old(p.dqs), p.m) ==>
              && r.NoWindow? && r.bit < |p.ws| && !Met(p.ws[r.bit], old(p.dqs), p.m)
              && (forall i | 0 <= i < r.bit :: Met(p.ws[i], old(p.dqs), p.m))
              && p.dqs == old(p.dqs)
              && forall i | 0 <= i < |p.ws| :: p.dq[i] == 0
  {
    var n, m := |p.ws|, p.m;
    var start := p.dqs;
    var left, right := new int[n], new int[n];
    p.LeftSweep(left, right);
    var sticky := p.ResetEdges(left, right, true);
    p.RightSweep(left, right, sticky, false);

    var missing := p.FirstMissing(left, right, start);
    if missing < n {
      p.dqs := start;
      return NoWindow(missing);
    }
    r := CentreReads(p, start, left, right);
  }

  /** Second half of the deskew, from the edges on: move DQS, then level every DQ pin. */
  method CentreReads(p: Pins, start: int, left: array<int>, right: array<int>) returns (r: CenterResult)
    requires p.Valid() && 0 <= start <= p.m && AllMet(p.ws, start, p.m)
    requires left.Length == right.Length == |p.ws| && left != p.dq && right != p.dq
    requires forall i | 0 <= i < |p.ws| :: p.dq[i] == 0
    requires forall i | 0 <= i < |p.ws| ::
               left[i] == LeftEdge(p.ws[i], start, p.m) && right[i] == RightEdge(p.ws[i], start, p.m)
    modifies p`dqs, p.dq
    ensures p.Valid()
    ensures var low := MinSpread(p.ws, start, p.m);
            p.dqs == ReadDqs(low, start) && forall i | 0 <= i < |p.ws| :: p.dq[i] == ReadDq(p.ws[i], low, start, p.m)
    ensures r == if forall i | 0 <= i < |p.ws| :: Reachable(p.ws[i], p.dqs, p.m) then Centred else OutOfMargin
    ensures r.Centred? <==> p.AllPass()
  {
    hide Levelled, ReadDq, ReadDqs, Reachable, Passes, MarginsHold, LeftEdge, RightEdge, CeilHalf, Max, Min;
    var m := p.m;
    var mid, index := Narrowest(left, right);
    MinSpreadIs(p.ws, start, m, index);
    var origMid := HalfRoundedUp(mid);
    var newDqs := Limit(start - origMid, m);
    var ok := p.Level(left, right, index, origMid, start - newDqs);
    p.dqs := newDqs;
    LevelledReads(p.ws, start, m, left[..], right[..], p.dq[..]);
    assert forall i | 0 <= i < |p.ws| :: p.dq[i] == p.dq[..][i] && left[i] == left[..][i] && right[i] == right[..][i];
    r := if ok then Centred else OutOfMargin;
  }

  /** Keep a delay inside the delay chain. */
  method Limit(delay: int, m: nat) returns (r: int)
    ensures r == Max(Min(delay, m), 0)
  {
    r := delay;
    if r > m {
      r := m;
    } else if r < 0 {
      r := 0;
    }
  }

  /** The whole group, levelled: the DQS limit above is never met, every pin sits at its centred delay, and the
      margins of all pins are non-negative exactly when every pin is in reach of the DQS chosen. */
  lemma LevelledReads(ws: seq<Window>, start: int, m: nat, left: seq<int>, right: seq<int>, q: seq<int>)
    requires ws != [] && 0 <= start <= m && AllMet(ws, start, m) && |q| == |left| == |right| == |ws|
    requires forall i | 0 <= i < |ws| :: left[i] == LeftEdge(ws[i], start, m) && right[i] == RightEdge(ws[i], start, m)
    requires var low := MinSpread(ws, start, m);
             var dqs := Max(Min(start - CeilHalf(low), m), 0);
             forall i | 0 <= i < |ws| :: q[i] == Levelled(left[i] - right[i], low, CeilHalf(low) - (start - dqs), m)
    ensures var low := MinSpread(ws, start, m);
            var dqs := Max(Min(start - CeilHalf(low), m), 0);
            && dqs == ReadDqs(low, start) && 0 <= dqs <= m
            && (forall i | 0 <= i < |ws| :: q[i] == ReadDq(ws[i], low, start, m) && 0 <= q[i] <= m)
            && ((forall i | 0 <= i < |ws| :: MarginsHold(left[i], right[i], q[i], start - dqs))
                <==> forall i | 0 <= i < |ws| :: Passes(ws[i], q[i], dqs))
            && ((forall i | 0 <= i < |ws| :: Passes(ws[i], q[i], dqs))
                <==> forall i | 0 <= i < |ws| :: Reachable(ws[i], dqs, m))
  {
    hide Levelled, ReadDq, ReadDqs, Reachable, Passes, MarginsHold, LeftEdge, RightEdge, CeilHalf, Max, Min, Met;
    var low := MinSpread(ws, start, m);
    var dqs := Max(Min(start - CeilHalf(low), m), 0);
    MinSpreadBound(ws, start, m);
    forall i | 0 <= i < |ws|
      ensures dqs == ReadDqs(low, start) && 0 <= dqs <= m && 0 <= q[i] <= m && q[i] == ReadDq(ws[i], low, start, m)
      ensures MarginsHold(left[i], right[i], q[i], start - dqs) <==> Passes(ws[i], q[i], dqs)
      ensures Passes(ws[i], q[i], dqs) <==> Reachable(ws[i], dqs, m)
    {
      MinSpreadBelow(ws, start, m, i);
      LevelledRead(ws[i], low, start, m, left[i], right[i], dqs, q[i]);
    }
    assert dqs == ReadDqs(low, start) && 0 <= dqs <= m by {
      assert q[0] == ReadDq(ws[0], low, start, m);
    }
  }
}
