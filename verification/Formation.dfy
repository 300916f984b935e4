/** The thirteen aliens of the game, as values: how the formation marches, loses members and starts again. */
module Formation {

  /** One sprite: position, whether it is shown, and whether it has been hit since it was last refreshed. */
  datatype Body = Body(x: int, y: int, active: bool, hit: bool)

  const ALIENS: nat := 13

  /** Start columns and rows. */
  function StartX(i: nat): int {
    if i == 0 || i == 6 then 140 else if i == 1 || i == 7 then 180 else if i == 2 || i == 8 then 290
    else if i == 3 || i == 9 then 330 else if i == 4 || i == 10 then 480 else if i == 5 || i == 11 then 520 else 310
  }

  function StartY(i: nat): int { if i < 6 then 50 else if i < 12 then 150 else 200 }

  /** A new stage or a new life: all aliens back, lower by increaseY. */
  function FreshAliens(increaseY: int): seq<Body> {
    seq(ALIENS, i requires 0 <= i < ALIENS => Body(StartX(i), StartY(i) + increaseY, true, false))
  }

  /** At an edge the march turns round and every alien, shown or not, comes down. */
  function Turn(x0: int, mount: int): int { if x0 < 10 then 6 else if x0 > 226 then -6 else mount }

  function Drop(x0: int): int { if x0 < 10 || x0 > 226 then 5 else 0 }

  /** One alien refreshed: a hit removes it; the first alien always marches, the others only while shown. */
  function Refreshed(i: nat, a: Body, drop: int, mount: int): Body {
    if i == 0 || a.active then Body(a.x + mount, a.y + drop, a.active && !a.hit, false)
    else a.(y := a.y + drop)
  }

  function RefreshedAliens(s: seq<Body>, mount: int): seq<Body>
    requires |s| == ALIENS
  {
    seq(ALIENS, i requires 0 <= i < ALIENS => Refreshed(i, s[i], Drop(s[0].x), Turn(s[0].x, mount)))
  }

  function Active(s: seq<Body>): nat {
    if s == [] then 0 else (if s[0].active then 1 else 0) + Active(s[1..])
  }

  function Hits(s: seq<Body>): nat {
    if s == [] then 0 else (if s[0].hit then 1 else 0) + Hits(s[1..])
  }

  /** A hit alien is still shown: the unguarded count-down for the first alien relies on it. */
  ghost predicate HitsAreActive(s: seq<Body>) {
    forall i | 0 <= i < |s| :: s[i].hit ==> s[i].active
  }

  /** Shown aliens keep their columns relative to the first alien, and all aliens keep their rows. */
  ghost predicate Rigid(s: seq<Body>) {
    && |s| == ALIENS
    && (forall i | 0 <= i < ALIENS :: s[i].active ==> s[i].x - s[0].x == StartX(i) - StartX(0))
    && (forall i | 0 <= i < ALIENS :: s[i].y - s[0].y == StartY(i) - StartY(0))
  }

  /** The first alien marches on a grid of six pixels between 8 and 230. */
  predicate OnTrack(x0: int, mount: int) {
    8 <= x0 <= 230 && x0 % 6 == 2 && (mount == 6 || mount == -6)
  }

  /** A new formation, in numbers: two rows of six and one alien in front, all lower by increaseY. */
  lemma FreshLayout(increaseY: int)
    ensures var t := FreshAliens(increaseY);
            && |t| == 13 && t[12] == Body(310, 200 + increaseY, true, false)
            && (forall i | 0 <= i < 6 :: t[i] == Body([140, 180, 290, 330, 480, 520][i], 50 + increaseY, true, false))
            && (forall i | 6 <= i < 12 :: t[i] == Body([140, 180, 290, 330, 480, 520][i - 6], 150 + increaseY, true, false))
  {
  }

  /** No two shown aliens of a formation ever come closer than 40 pixels in a row, or 50 from row to row. */
  lemma AliensKeepApart(s: seq<Body>, i: nat, j: nat)
    requires Rigid(s) && i < j < ALIENS && s[i].active && s[j].active
    ensures s[j].y - s[i].y >= 50 || (s[j].y == s[i].y && s[j].x - s[i].x >= 40)
  {
  }

  /** One refresh, in numbers: the shown aliens move 6 pixels on, the first alien in any case; at either edge they turn, and
      all of them, shown or not, come down 5. */
  lemma RefreshMoves(s: seq<Body>, mount: int, i: nat)
    requires |s| == ALIENS && i < ALIENS
    ensures var (t, x0) := (RefreshedAliens(s, mount), s[0].x);
            && t[i].y == s[i].y + (if x0 < 10 || x0 > 226 then 5 else 0)
            && t[i].x == s[i].x + (if i > 0 && !s[i].active then 0 else if x0 < 10 then 6 else if x0 > 226 then -6 else mount)
  {
  }

  /** The first alien and the march after n refreshes without hits or restarts. */
  function Marched(x: int, y: int, mount: int, n: nat): (int, int, int) {
    if n == 0 then (x, y, mount)
    else
      var (px, py, pm) := Marched(x, y, mount, n - 1);
      (px + Turn(px, pm), py + Drop(px), Turn(px, pm))
  }

  lemma {:induction false} MarchedTwice(x: int, y: int, mount: int, n: nat, k: nat)
    ensures var (px, py, pm) := Marched(x, y, mount, n);
            Marched(x, y, mount, n + k) == Marched(px, py, pm, k)
  {
    if k > 0 {
      MarchedTwice(x, y, mount, n, k - 1);
    }
  }

  /** Between the edges the formation marches straight on. */
  lemma {:induction false} MarchesStraight(x: int, y: int, mount: int, n: nat)
    requires mount == 6 || mount == -6
    requires n > 0 ==> 10 <= x <= 226 && 10 <= x + (n - 1) * mount <= 226
    ensures Marched(x, y, mount, n) == (x + n * mount, y, mount)
  {
    if n > 0 {
      MarchesStraight(x, y, mount, n - 1);
    }
  }

  /** From the left edge the formation is at the right edge after 37 refreshes and back after 74, ten pixels lower, over and
      over. */
  lemma {:induction false} LapsAcross(y: int, mount: int, laps: nat)
    requires mount == 6 || mount == -6
    ensures var (x, py, _) := Marched(8, y, mount, 74 * laps); x == 8 && py == y + 10 * laps
    ensures Marched(8, y, mount, 74 * laps + 37) == (230, y + 10 * laps + 5, 6)
  {
    if laps > 0 {
      LapsAcross(y, mount, laps - 1);
      MarchedTwice(8, y, mount, 74 * (laps - 1) + 37, 37);
      HalfALap(230, y + 10 * (laps - 1) + 5, 6);
    }
    var (_, py, pm) := Marched(8, y, mount, 74 * laps);
    assert pm == 6 || pm == -6 by { MountIsSix(8, y, mount, 74 * laps); }
    MarchedTwice(8, y, mount, 74 * laps, 37);
    HalfALap(8, py, pm);
  }

  lemma {:induction false} MountIsSix(x: int, y: int, mount: int, n: nat)
    requires mount == 6 || mount == -6
    ensures Marched(x, y, mount, n).2 == 6 || Marched(x, y, mount, n).2 == -6
  {
    if n > 0 {
      MountIsSix(x, y, mount, n - 1);
    }
  }

  /** 37 refreshes from edge to edge: the first turns and comes down, the others march on. */
  lemma HalfALap(x: int, y: int, mount: int)
    requires x == 8 || x == 230
    ensures Marched(x, y, mount, 37) == if x == 8 then (230, y + 5, 6) else (8, y + 5, -6)
  {
    var turned := if x == 8 then 6 else -6;
    assert Marched(x, y, mount, 0) == (x, y, mount);
    assert Marched(x, y, mount, 1) == (x + turned, y + 5, turned);
    MarchedTwice(x, y, mount, 1, 36);
    MarchesStraight(x + turned, y + 5, turned, 36);
  }

  /** That march is the first alien's: refreshes move it whether it is shown or not. */
  lemma {:induction false} FirstAlienMarches(m: March, n: nat)
    requires |m.aliens| == ALIENS
    ensures var (t, (x, y, mount)) := (ApplyAll(m, seq(n, i => Refresh)), Marched(m.aliens[0].x, m.aliens[0].y, m.mount, n));
            t.aliens[0].x == x && t.aliens[0].y == y && t.mount == mount
  {
    if n > 0 {
      FirstAlienMarches(m, n - 1);
      var events := seq(n, i => Refresh);
      assert events[..n - 1] == seq(n - 1, i => Refresh);
    }
  }

  /** A refresh removes exactly the aliens that were hit. */
  lemma {:induction false} RefreshCounts(s: seq<Body>, t: seq<Body>)
    requires |s| == |t| && HitsAreActive(s)
    requires forall i | 0 <= i < |s| :: t[i].active == (s[i].active && !s[i].hit)
    ensures Active(t) == Active(s) - Hits(s)
  {
    if s != [] {
      RefreshCounts(s[1..], t[1..]);
    }
  }

  lemma {:induction false} SameActive(s: seq<Body>, t: seq<Body>)
    requires |s| == |t| && forall i | 0 <= i < |s| :: t[i].active == s[i].active
    ensures Active(t) == Active(s)
  {
    if s != [] {
      SameActive(s[1..], t[1..]);
    }
  }

  lemma {:induction false} AllActive(s: seq<Body>)
    requires forall i | 0 <= i < |s| :: s[i].active
    ensures Active(s) == |s|
  {
    if s != [] {
      AllActive(s[1..]);
    }
  }

  /** One refresh keeps the formation rigid and on its track, clears the hits, and counts the losses. */
  lemma RefreshKeepsFormation(s: seq<Body>, mount: int)
    requires Rigid(s) && HitsAreActive(s) && OnTrack(s[0].x, mount)
    ensures var t := RefreshedAliens(s, mount);
            && Rigid(t) && OnTrack(t[0].x, Turn(s[0].x, mount))
            && HitsAreActive(t) && (forall i | 0 <= i < ALIENS :: !t[i].hit)
            && Active(t) == Active(s) - Hits(s)
  {
    RefreshCounts(s, RefreshedAliens(s, mount));
  }

  /** A stage reset or a new life starts from a whole rigid formation. */
  lemma FreshIsFormation(increaseY: int)
    ensures var t := FreshAliens(increaseY);
            Rigid(t) && HitsAreActive(t) && Active(t) == ALIENS && OnTrack(t[0].x, 6) && OnTrack(t[0].x, -6)
  {
    AllActive(FreshAliens(increaseY));
  }

  /** Every shown alien stays on the screen. */
  lemma ShownOnScreen(s: seq<Body>, mount: int, i: nat)
    requires Rigid(s) && OnTrack(s[0].x, mount) && i < ALIENS && s[i].active
    ensures 8 <= s[i].x <= 610
  {
  }

  /** What happens to the formation: a refresh, a hit on a shown alien, the next stage, the next life. */
  datatype Event = Refresh | Hit(i: nat) | NextStage(increaseY: int) | NextLife(increaseY: int)

  datatype March = March(aliens: seq<Body>, mount: int, count: int)

  function Apply(m: March, e: Event): March
    requires |m.aliens| == ALIENS
  {
    match e
    case Refresh =>
      March(RefreshedAliens(m.aliens, m.mount), Turn(m.aliens[0].x, m.mount), m.count - Hits(m.aliens))
    case Hit(i) =>
      if i < ALIENS && m.aliens[i].active then m.(aliens := m.aliens[i := m.aliens[i].(hit := true)]) else m
    case NextStage(increaseY) => m.(aliens := FreshAliens(increaseY), count := ALIENS)
    case NextLife(increaseY) => March(FreshAliens(increaseY), 6, ALIENS)
  }

  ghost predicate Marching(m: March) {
    Rigid(m.aliens) && HitsAreActive(m.aliens) && OnTrack(m.aliens[0].x, m.mount) && m.count == Active(m.aliens)
  }

  function ApplyAll(m: March, events: seq<Event>): (r: March)
    requires |m.aliens| == ALIENS
    ensures |r.aliens| == ALIENS
  {
    if events == [] then m else Apply(ApplyAll(m, events[..|events| - 1]), events[|events| - 1])
  }

  lemma EventKeepsMarching(m: March, e: Event)
    requires Marching(m)
    ensures Marching(Apply(m, e))
  {
    hide Refreshed, Turn, Drop, OnTrack;
    match e {
      case Refresh => RefreshKeepsFormation(m.aliens, m.mount);
      case Hit(i) => SameActive(m.aliens, Apply(m, e).aliens);
      case NextStage(increaseY) => FreshOnTrack(increaseY, m);
      case NextLife(increaseY) => FreshIsFormation(increaseY);
    }
  }

  lemma FreshOnTrack(increaseY: int, m: March)
    requires Marching(m)
    ensures Marching(March(FreshAliens(increaseY), m.mount, ALIENS))
  {
    FreshIsFormation(increaseY);
  }

  /** Over every history: the counter is the number of aliens shown, and the formation is rigid and on its track. */
  lemma {:induction false} MarchesForEver(events: seq<Event>)
    ensures Marching(ApplyAll(March(FreshAliens(0), 6, ALIENS), events))
  {
    hide Apply, Marching;
    if events == [] {
      NewGameMarches();
    } else {
      var n := |events| - 1;
      MarchesForEver(events[..n]);
      EventKeepsMarching(ApplyAll(March(FreshAliens(0), 6, ALIENS), events[..n]), events[n]);
    }
  }

  lemma NewGameMarches()
    ensures Marching(March(FreshAliens(0), 6, ALIENS))
  {
    FreshIsFormation(0);
  }
}
