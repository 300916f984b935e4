/** The Space Invaders program: the body of its main loop, and what happens when a life is lost. */
module Invaders {
  import opened Formation
  import Motion

  /** The library's overlap test of two sprites 15 pixels wide. Sprites in the same column do not overlap. */
  predicate Collision(a: Body, b: Body) {
    && a.y + 15 > b.y && a.y < b.y + 15
    && (|| (a.x + 15 > b.x && a.x < b.x)
        || (a.x > b.x && b.x + 15 > a.x))
  }

  /** The joystick: exactly right, exactly left, or anything else. */
  datatype Steer = Right | Left | Straight

  /** Less than 15 pixels apart both ways, and not in the same column. */
  predicate Near(a: Body, b: Body) {
    a.x != b.x && -15 < a.x - b.x < 15 && -15 < a.y - b.y < 15
  }

  /** Two sprites overlap when they are less than 15 pixels apart both ways, unless they stand in the same column; it does not
      matter which of them is asked. */
  lemma CollisionIs(a: Body, b: Body)
    ensures Collision(a, b) <==> Near(a, b)
    ensures Collision(a, b) == Collision(b, a)
  {
  }

  /** What one iteration reads: a finished screen, the buttons, and the alien drawn by lot. */
  datatype Input = Input(screen: bool, fire: bool, steer: Steer, start: bool, shooter: nat)

  /** A shot of the ship that still flies and overlaps a shown alien. */
  predicate Kills(shot: Body, a: Body) {
    shot.active && !shot.hit && a.active && Collision(shot, a)
  }

  /** All aliens after the collision analysis: exactly those overlapped by a flying shot are marked. */
  function MarkedAliens(s: seq<Body>, shots: seq<Body>): seq<Body> {
    seq(|s|, i requires 0 <= i < |s| => s[i].(hit := s[i].hit || exists k | 0 <= k < |shots| :: Kills(shots[k], s[i])))
  }

  /** The aliens after one shot. */
  function MarkedBy(s: seq<Body>, shot: Body): seq<Body> {
    seq(|s|, i requires 0 <= i < |s| => s[i].(hit := s[i].hit || Kills(shot, s[i])))
  }

  /** A shot after its collision analysis. */
  function StruckShot(shot: Body, s: seq<Body>): Body {
    shot.(hit := shot.hit || exists i | 0 <= i < |s| :: Kills(shot, s[i]))
  }

  lemma SpentShotMarksNothing(s: seq<Body>, shot: Body)
    ensures !shot.active || shot.hit ==> MarkedBy(s, shot) == s && StruckShot(shot, s) == shot
  {
  }

  lemma MarkTwice(s: seq<Body>, a: Body, b: Body)
    ensures MarkedBy(MarkedBy(s, a), b) == MarkedAliens(s, [a, b])
    ensures StruckShot(b, MarkedBy(s, a)) == StruckShot(b, s)
  {
    hide Collision;
    var t := MarkedBy(s, a);
    forall i | 0 <= i < |s| ensures Kills(b, t[i]) == Kills(b, s[i]) {
      OnlyPlacesCollide(b, t[i], b, s[i]);
    }
    forall i | 0 <= i < |s|
      ensures Kills(a, s[i]) || Kills(b, s[i]) <==> exists k | 0 <= k < 2 :: Kills([a, b][k], s[i])
    {
      assert [a, b][0] == a && [a, b][1] == b;
    }
  }

  lemma MarkedKeepFormation(s: seq<Body>, shots: seq<Body>, mount: int, count: int)
    requires Marching(March(s, mount, count))
    ensures Marching(March(MarkedAliens(s, shots), mount, count))
  {
    hide Collision, StartX, StartY, OnTrack;
    SameActive(s, MarkedAliens(s, shots));
  }

  lemma StruckShotFlies(shot: Body, s: seq<Body>)
    requires shot.hit ==> shot.active
    ensures var t := StruckShot(shot, s); (t.hit ==> t.active) && t.active == shot.active && t.y == shot.y
  {
  }

  lemma OnlyPlacesCollide(a: Body, b: Body, c: Body, d: Body)
    requires a.x == c.x && a.y == c.y && b.x == d.x && b.y == d.y
    ensures Collision(a, b) == Collision(c, d)
  {
  }

  lemma MarksOnly(s: seq<Body>, shots: seq<Body>, i: nat)
    requires i < |s|
    ensures |MarkedAliens(s, shots)| == |s| && MarkedAliens(s, shots)[i] == s[i].(hit := MarkedAliens(s, shots)[i].hit)
  {
  }

  /** All shots of the ship after the collision analysis: exactly those that overlap a shown alien are marked. */
  function MarkedShots(shots: seq<Body>, s: seq<Body>): seq<Body> {
    seq(|shots|, k requires 0 <= k < |shots| => StruckShot(shots[k], s))
  }

  /** The first free shot starts from (x, y). */
  function Fired(shots: seq<Body>, x: int, y: int): seq<Body> {
    if shots == [] then []
    else if shots[0].active then [shots[0]] + Fired(shots[1..], x, y)
    else [Body(x, y, true, shots[0].hit)] + shots[1..]
  }

  lemma {:induction false} FiredAt(shots: seq<Body>, x: int, y: int, k: nat)
    requires k <= |shots| && (forall i | 0 <= i < k :: shots[i].active) && (k < |shots| ==> !shots[k].active)
    ensures Fired(shots, x, y) == if k < |shots| then shots[k := Body(x, y, true, shots[k].hit)] else shots
  {
    if k > 0 {
      FiredAt(shots[1..], x, y, k - 1);
    }
  }

  /** The ship's shots fly up 5 pixels and end at the top; the aliens' fly down 7 and end at line 396. */
  function FlownUp(b: Body): Body {
    if !b.active then b
    else if b.hit || b.y <= 0 then b.(active := false, hit := false)
    else b.(y := Motion.Move(Motion.UP, b.x, b.y, 0, 5, false).1)
  }

  function FlownDown(b: Body): Body {
    if !b.active then b
    else if b.hit || b.y >= 396 then b.(active := false, hit := false)
    else b.(y := Motion.Move(Motion.DOWN, b.x, b.y, 0, 7, false).1)
  }

  /** A shot in flight is marked as hit, to be removed at its next refresh. */
  function Spent(b: Body): Body { if b.active then b.(hit := true) else b }

  function SpentAll(shots: seq<Body>): seq<Body> {
    seq(|shots|, k requires 0 <= k < |shots| => Spent(shots[k]))
  }

  /** All that moves besides the aliens. */
  datatype Field = Field(ship: Body, direction: nat, steering: bool, shots: seq<Body>, alienShots: seq<Body>)

  /** The field after the collision analysis. */
  function Struck(f: Field, s: seq<Body>): Field {
    f.(ship := f.ship.(hit := f.ship.hit || ShipTouched(f.ship, s, f.alienShots)), shots := MarkedShots(f.shots, s))
  }

  /** The field after steering and shooting. */
  function Steered(f: Field, input: Input, al: Body, fires: bool, alienFires: bool): Field {
    f.(direction := if input.steer.Right? then Motion.RIGHT else if input.steer.Left? then Motion.LEFT else f.direction,
       steering := !input.steer.Straight?,
       shots := if fires then Fired(f.shots, f.ship.x, f.ship.y - 20) else f.shots,
       alienShots := if alienFires && al.active then Fired(f.alienShots, al.x, al.y + 20) else f.alienShots)
  }

  /** The field after ship and shots have moved. */
  function Flown(f: Field): Field {
    f.(ship := if f.steering then f.ship.(x := Motion.Move(f.direction, f.ship.x, f.ship.y, 5, 5, false).0) else f.ship,
       steering := false,
       shots := seq(|f.shots|, k requires 0 <= k < |f.shots| => FlownUp(f.shots[k])),
       alienShots := seq(|f.alienShots|, k requires 0 <= k < |f.alienShots| => FlownDown(f.alienShots[k])))
  }

  /** The field at the start of a stage or a life. */
  function Restarted(f: Field): Field {
    f.(ship := f.ship.(x := 310, y := 300, hit := false), shots := SpentAll(f.shots), alienShots := SpentAll(f.alienShots))
  }

  /** A counter of screens. */
  function Ticked(count: int, input: Input): int { if input.screen then count + 1 else count }

  /** The ship touches a shown alien, or a shot of theirs that still flies. */
  predicate ShipTouched(ship: Body, s: seq<Body>, alienShots: seq<Body>) {
    || (exists i | 0 <= i < |s| :: s[i].active && Collision(ship, s[i]))
    || (exists i | 0 <= i < |alienShots| :: alienShots[i].active && !alienShots[i].hit && Collision(ship, alienShots[i]))
  }

  /** The field after the first half of an iteration. */
  function Controlled(f: Field, s: seq<Body>, input: Input, paused: bool, mayFire: bool, aliensMayFire: bool): Field
    requires input.shooter < |s|
  {
    var g := if input.screen then f else Struck(f, s);
    if paused then g else Steered(g, input, s[input.shooter], input.fire && mayFire, aliensMayFire)
  }

  /** The field after the second half. */
  function Settled(f: Field, flies: bool, cleared: bool): Field {
    var g := if flies then Flown(f) else f;
    if cleared then Restarted(g) else g
  }

  /** A finished screen: the formation marches if it is due, and the next stage replaces it when nobody is left. */
  function Advanced(m: March, due: bool, increaseY: int): March
    requires |m.aliens| == ALIENS
  {
    var n := if due then Apply(m, Refresh) else m;
    if n.count == 0 then Apply(n, NextStage(increaseY)) else n
  }

  /** Nobody is left after this refresh. */
  predicate Cleared(m: March, due: bool)
    requires |m.aliens| == ALIENS
  {
    (if due then Apply(m, Refresh) else m).count == 0
  }

  class Game {
    const aliens: array<Body>
    const shots: array<Body>        // the ship's two shots
    const alienShots: array<Body>   // the aliens' four shots
    var ship: Body
    var shipDirection: nat
    var lifes: int
    var activedAliens: int
    var screenToAliens: int
    var increaseY: int
    var mountSteps: int
    var screenAliens: int
    var screenShip: int
    var waitShoot: int
    var waitShootAl: int
    var waitToPause: int
    var enShoot: bool
    var enShootAl: bool
    var enPause: bool
    var refreshShip: bool
    var paused: bool

    ghost predicate Shape()
    {
      aliens.Length == ALIENS && shots.Length == 2 && alienShots.Length == 4
      && aliens != shots && aliens != alienShots && shots != alienShots
    }

    /** The formation as a value. */
    ghost function Now(): March
      reads `mountSteps, `activedAliens, aliens
    {
      March(aliens[..], mountSteps, activedAliens)
    }

    /** Ship and shots as a value. */
    ghost function Seen(): Field
      reads `ship, `shipDirection, `refreshShip, shots, alienShots
    {
      Field(ship, shipDirection, refreshShip, shots[..], alienShots[..])
    }

    /** The counter is the number of aliens shown; the formation is rigid and on its track. */
    ghost predicate FormationOk()
      requires Shape()
      reads `mountSteps, `activedAliens, aliens
    {
      Marching(Now())
    }

    ghost predicate ShipOk()
      reads `ship, `shipDirection
    {
      ship.y == 300 && 1 <= ship.x <= 620 && (shipDirection == Motion.LEFT || shipDirection == Motion.RIGHT)
    }

    /** A shot is removed before it is hit twice, and the ship's shots stay between the ship and the top. */
    ghost predicate ShotsOk()
      requires Shape()
      reads shots, alienShots
    {
      && (forall i | 0 <= i < 2 :: shots[i].hit ==> shots[i].active)
      && (forall i | 0 <= i < 2 :: shots[i].active ==> 0 <= shots[i].y <= 280)
      && (forall i | 0 <= i < 4 :: alienShots[i].hit ==> alienShots[i].active)
    }

    /** The counters compared for equality never miss their value, and the waits enable exactly when they are over. */
    ghost predicate TimersOk()
      reads `screenToAliens, `screenAliens, `screenShip, `waitShoot, `waitShootAl, `waitToPause, `enShoot, `enShootAl, `enPause
    {
      && 3 <= screenToAliens <= 15 && screenToAliens % 3 == 0
      && 0 <= screenAliens < screenToAliens && 0 <= screenShip < 2
      && WaitsOk()
    }

    ghost predicate WaitsOk()
      reads `waitShoot, `waitShootAl, `waitToPause, `enShoot, `enShootAl, `enPause
    {
      && 0 <= waitShoot && 0 <= waitShootAl && 0 <= waitToPause
      && (enShoot <==> waitShoot >= 59) && (enShootAl <==> waitShootAl >= 29) && (enPause <==> waitToPause >= 29)
    }

    /** Holds at the top of every iteration. */
    ghost predicate Valid()
      reads this, aliens, shots, alienShots
    {
      Shape() && FormationOk() && activedAliens > 0 && ShipOk() && ShotsOk() && TimersOk() && 0 <= lifes <= 2
    }

    constructor ()
      ensures Valid() && lifes == 2 && !ship.hit && fresh(aliens) && fresh(shots) && fresh(alienShots)
    {
      aliens := new Body[13](i => if 0 <= i < 13 then Body(StartX(i), StartY(i), true, false) else Body(0, 0, false, false));
      shots := new Body[2](i => Body(0, 0, false, false));
      alienShots := new Body[4](i => Body(0, 0, false, false));
      ship, shipDirection := Body(310, 300, true, false), Motion.LEFT;
      lifes, activedAliens, screenToAliens, increaseY := 2, 13, 15, 10;
      mountSteps, screenAliens, screenShip, waitShoot, waitShootAl, waitToPause := 6, 0, 0, 0, 0, 0;
      enShoot, enShootAl, enPause, refreshShip, paused := false, false, false, false, false;
      new;
      FreshIsFormation(0);
      assert aliens[..] == FreshAliens(0);
    }

    /** A finished screen advances every counter. */
    method CountScreen()
      requires TimersOk()
      modifies `screenAliens, `screenShip, `waitShoot, `waitShootAl, `waitToPause, `enShoot, `enShootAl, `enPause
      ensures screenAliens == old(screenAliens) + 1 && screenShip == old(screenShip) + 1 && WaitsOk()
      ensures waitShoot == old(waitShoot) + 1 && waitShootAl == old(waitShootAl) + 1 && waitToPause == old(waitToPause) + 1
    {
      screenAliens, screenShip := screenAliens + 1, screenShip + 1;
      waitShoot, waitShootAl, waitToPause := waitShoot + 1, waitShootAl + 1, waitToPause + 1;
      if waitToPause == 29 { enPause := true; }
      if waitShoot == 59 { enShoot := true; }
      if waitShootAl == 29 { enShootAl := true; }
    }

    /** One flying shot against the formation: exactly the shown aliens that overlap it are marked, and the shot with
        them. */
    method ShotAgainstAliens(k: nat)
      requires Shape() && k < 2 && shots[k].active && !shots[k].hit
      modifies aliens, shots
      ensures aliens[..] == MarkedBy(old(aliens[..]), old(shots[k]))
      ensures shots[..] == old(shots[..])[k := StruckShot(old(shots[k]), old(aliens[..]))]
    {
      hide Collision;
      ghost var (shot, s) := (shots[k], aliens[..]);
      for i := 0 to 13
        invariant forall j | 0 <= j < i :: aliens[j] == s[j].(hit := s[j].hit || Kills(shot, s[j]))
        invariant forall j | i <= j < ALIENS :: aliens[j] == s[j]
        invariant shots[k] == shot.(hit := exists j | 0 <= j < i :: Kills(shot, s[j])) && shots[1 - k] == old(shots[1 - k])
      {
        OnlyPlacesCollide(shots[k], aliens[i], shot, s[i]);
        if aliens[i].active && Collision(shots[k], aliens[i]) {
          assert Kills(shot, s[i]);
          shots[k] := shots[k].(hit := true);
          aliens[i] := aliens[i].(hit := true);
        }
      }
    }

    method ShipMeetsAlien() returns (met: bool)
      requires Shape()
      ensures met <==> exists i :: 0 <= i < ALIENS && aliens[i].active && Collision(ship, aliens[i])
    {
      for i := 0 to 13
        invariant forall j | 0 <= j < i :: !(aliens[j].active && Collision(ship, aliens[j]))
      {
        if aliens[i].active && Collision(ship, aliens[i]) {
          return true;
        }
      }
      return false;
    }

    method ShipMeetsShot() returns (met: bool)
      requires Shape()
      ensures met <==> exists i :: 0 <= i < 4 && alienShots[i].active && !alienShots[i].hit && Collision(ship, alienShots[i])
    {
      met := false;
      for i := 0 to 4
        invariant met <==> exists j :: 0 <= j < i && alienShots[j].active && !alienShots[j].hit && Collision(ship, alienShots[j])
      {
        if alienShots[i].active && !alienShots[i].hit && Collision(ship, alienShots[i]) {
          met := true;
        }
      }
    }

    /** The ship's shots against the formation: only shown aliens that overlap a flying shot are marked. */
    method ShotsAgainstAliens()
      requires Shape() && FormationOk() && ShotsOk()
      modifies aliens, shots
      ensures FormationOk() && ShotsOk()
      ensures aliens[..] == MarkedAliens(old(aliens[..]), old(shots[..]))
      ensures shots[..] == MarkedShots(old(shots[..]), old(aliens[..]))
    {
      hide Collision, Kills, MarkedBy, StruckShot, MarkedAliens, Marching;
      ghost var (s, a, b) := (aliens[..], shots[0], shots[1]);
      SpentShotMarksNothing(s, a);
      SpentShotMarksNothing(MarkedBy(s, a), b);
      if shots[0].active && !shots[0].hit {
        ShotAgainstAliens(0);
      }
      assert aliens[..] == MarkedBy(s, a) && shots[0] == StruckShot(a, s) && shots[1] == b;
      if shots[1].active && !shots[1].hit {
        ShotAgainstAliens(1);
      }
      MarkTwice(s, a, b);
      assert old(shots[..]) == [a, b];
      MarkedKeepFormation(s, [a, b], mountSteps, activedAliens);
      StruckShotFlies(a, s);
      StruckShotFlies(b, s);
    }

    /** Between screens: the ship against aliens and their shots, then the ship's shots against aliens. */
    method Analyze()
      requires Shape() && FormationOk() && ShotsOk() && ShipOk()
      modifies `ship, aliens, shots
      ensures FormationOk() && ShotsOk() && ShipOk()
      ensures Seen() == Struck(old(Seen()), old(aliens[..]))
      ensures aliens[..] == MarkedAliens(old(aliens[..]), old(shots[..]))
    {
      var met := ShipMeetsAlien();
      var shot := ShipMeetsShot();
      if met || shot {
        ship := ship.(hit := true);
      }
      ShotsAgainstAliens();
    }

    /** Steering and shooting, unless the game is paused. A wait starts again with every shot, even one that finds no
        free slot. input.shooter is the alien drawn by lot. */
    method Control(input: Input)
      requires Shape() && ShipOk() && ShotsOk() && WaitsOk() && input.shooter < ALIENS
      modifies `shipDirection, `refreshShip, `enShoot, `enShootAl, `waitShoot, `waitShootAl, shots, alienShots
      ensures ShipOk() && ShotsOk() && WaitsOk()
      ensures var (fires, alienFires) := (!paused && input.fire && old(waitShoot) >= 59, !paused && old(waitShootAl) >= 29);
              && Seen() == (if paused then old(Seen())
                            else Steered(old(Seen()), input, aliens[input.shooter], fires, alienFires))
              && waitShoot == (if fires then 0 else old(waitShoot))
              && waitShootAl == (if alienFires then 0 else old(waitShootAl))
    {
      hide Fired;
      if paused {
        return;
      }
      match input.steer {
        case Right => shipDirection, refreshShip := Motion.RIGHT, true;
        case Left => shipDirection, refreshShip := Motion.LEFT, true;
        case Straight => refreshShip := false;
      }
      if enShootAl {
        enShootAl, waitShootAl := false, 0;
        AlienShoots(aliens[input.shooter]);
      }
      if input.fire && enShoot {
        enShoot, waitShoot := false, 0;
        ShipShoots();
      }
    }

    /** The ship takes its first free shot. */
    method ShipShoots()
      requires Shape() && ShipOk() && ShotsOk()
      modifies shots
      ensures ShotsOk() && shots[..] == Fired(old(shots[..]), ship.x, ship.y - 20)
    {
      hide Fired;
      var k := if !shots[0].active then 0 else if !shots[1].active then 1 else 2;
      FiredAt(shots[..], ship.x, ship.y - 20, k);
      if k < 2 {
        shots[k] := Body(ship.x, ship.y - 20, true, shots[k].hit);
      }
    }

    /** A shown alien takes the first free shot. */
    method AlienShoots(al: Body)
      requires Shape() && ShotsOk()
      modifies alienShots
      ensures ShotsOk()
      ensures alienShots[..] == if al.active then Fired(old(alienShots[..]), al.x, al.y + 20) else old(alienShots[..])
    {
      hide Fired;
      if al.active {
        var k := if !alienShots[0].active then 0 else if !alienShots[1].active then 1
                 else if !alienShots[2].active then 2 else if !alienShots[3].active then 3 else 4;
        FiredAt(alienShots[..], al.x, al.y + 20, k);
        if k < 4 {
          alienShots[k] := Body(al.x, al.y + 20, true, alienShots[k].hit);
        }
      }
    }

    /** Every few screens the formation marches. A hit alien disappears and is counted down. */
    method RefreshAliens()
      requires Shape() && FormationOk() && 3 <= screenToAliens && 0 <= screenAliens <= screenToAliens
      modifies aliens, `activedAliens, `mountSteps, `screenAliens
      ensures FormationOk() && screenAliens == if old(screenAliens) == screenToAliens then 0 else old(screenAliens)
      ensures Now() == if old(screenAliens) == screenToAliens && !paused then Apply(old(Now()), Refresh) else old(Now())
    {
      if screenAliens == screenToAliens {
        screenAliens := 0;
        if !paused {
          MarchOn();
        }
      }
    }

    method MarchOn()
      requires Shape() && FormationOk()
      modifies aliens, `activedAliens, `mountSteps
      ensures FormationOk()
      ensures Now() == Apply(old(Now()), Refresh)
    {
      hide RefreshedAliens, Rigid, OnTrack, Active;
      ghost var before := aliens[..];
      ghost var mount := mountSteps;
      var x0 := aliens[0].x;
      var drop := 0;
      if x0 < 10 {
        mountSteps, drop := 6, 5;
      } else if x0 > 226 {
        mountSteps, drop := -6, 5;
      }
      assert x0 == before[0].x && drop == Drop(x0) && mountSteps == Turn(x0, mount);
      for i := 0 to 13
        invariant forall j | 0 <= j < i :: aliens[j] == Refreshed(j, before[j], drop, mountSteps)
        invariant forall j | i <= j < 13 :: aliens[j] == before[j]
        invariant mountSteps == Turn(x0, mount) && activedAliens == old(activedAliens) - Hits(before[..i])
      {
        var a := aliens[i];
        assert a == before[i];
        assert before[..i + 1] == before[..i] + [a];
        HitsAppend(before[..i], a);
        if i == 0 || a.active {
          if a.hit {
            activedAliens := activedAliens - 1;
          }
          aliens[i] := Body(a.x + mountSteps, a.y + drop, a.active && !a.hit, false);
        } else {
          aliens[i] := a.(y := a.y + drop);
        }
      }
      assert before[..13] == before;
      RefreshedPointwise(before, mount, aliens[..]);
      RefreshKeepsFormation(before, mount);
    }

    /** Every second screen the ship and all shots move; a shot that is hit or has left its field is removed. */
    method RefreshShip()
      requires Shape() && ShipOk() && ShotsOk() && 0 <= screenShip <= 2
      modifies `screenShip, `refreshShip, `ship, shots, alienShots
      ensures ShipOk() && ShotsOk() && screenShip == if old(screenShip) == 2 then 0 else old(screenShip)
      ensures Seen() == if old(screenShip) == 2 && !paused then Flown(old(Seen())) else old(Seen())
    {
      if screenShip != 2 {
        return;
      }
      screenShip := 0;
      if !paused {
        if refreshShip {
          refreshShip := false;
          var (x, y) := Motion.Move(shipDirection, ship.x, ship.y, 5, 5, false);
          ship := ship.(x := x, y := y);
        }
        FlyShots();
        FlyAlienShots();
      }
    }

    method FlyShots()
      requires Shape()
      modifies shots
      ensures forall i | 0 <= i < 2 :: shots[i] == FlownUp(old(shots[i]))
    {
      for i := 0 to 2
        invariant forall j | 0 <= j < i :: shots[j] == FlownUp(old(shots[j]))
        invariant forall j | i <= j < 2 :: shots[j] == old(shots[j])
      {
        if shots[i].active {
          if shots[i].hit || shots[i].y <= 0 {
            shots[i] := shots[i].(active := false, hit := false);
          } else {
            var (_, y) := Motion.Move(Motion.UP, shots[i].x, shots[i].y, 0, 5, false);
            shots[i] := shots[i].(y := y);
          }
        }
      }
    }

    method FlyAlienShots()
      requires Shape()
      modifies alienShots
      ensures forall i | 0 <= i < 4 :: alienShots[i] == FlownDown(old(alienShots[i]))
    {
      for i := 0 to 4
        invariant forall j | 0 <= j < i :: alienShots[j] == FlownDown(old(alienShots[j]))
        invariant forall j | i <= j < 4 :: alienShots[j] == old(alienShots[j])
      {
        if alienShots[i].active {
          if alienShots[i].hit || alienShots[i].y >= 396 {
            alienShots[i] := alienShots[i].(active := false, hit := false);
          } else {
            var (_, y) := Motion.Move(Motion.DOWN, alienShots[i].x, alienShots[i].y, 0, 7, false);
            alienShots[i] := alienShots[i].(y := y);
          }
        }
      }
    }

    /** With no alien left the next stage starts, faster unless it is the fastest already. */
    method NextStage()
      requires Shape() && FormationOk() && ShotsOk() && ShipOk() && TimersOk()
      modifies `ship, `activedAliens, `screenAliens, `screenShip, `screenToAliens, `increaseY, aliens, shots, alienShots
      ensures FormationOk() && ShotsOk() && ShipOk() && TimersOk() && activedAliens > 0
      ensures old(activedAliens) > 0 ==>
                && Now() == old(Now()) && Seen() == old(Seen()) && screenToAliens == old(screenToAliens)
                && increaseY == old(increaseY) && screenAliens == old(screenAliens) && screenShip == old(screenShip)
      ensures old(activedAliens) == 0 ==>
                && Now() == Apply(old(Now()), Formation.NextStage(old(increaseY))) && Seen() == Restarted(old(Seen()))
                && screenToAliens == (if old(screenToAliens) == 3 then 3 else old(screenToAliens) - 3)
                && increaseY == old(increaseY) + 10 && screenAliens == screenShip == 0
    {
      hide FormationOk, FreshAliens, WaitsOk, ShotsOk, SpentAll;
      CountIsNat();
      if activedAliens == 0 {
        activedAliens, screenAliens, screenShip := 13, 0, 0;
        if screenToAliens != 3 {
          screenToAliens := screenToAliens - 3;
        }
        RestartAliens();
        increaseY := increaseY + 10;
      }
    }

    lemma CountIsNat()
      requires Shape() && FormationOk()
      ensures activedAliens >= 0 && (mountSteps == 6 || mountSteps == -6)
    {
    }

    method PlaceAliens()
      requires Shape()
      modifies aliens
      ensures aliens[..] == FreshAliens(increaseY)
    {
      for i := 0 to 13
        invariant forall j | 0 <= j < i :: aliens[j] == Body(StartX(j), StartY(j) + increaseY, true, false)
      {
        aliens[i] := Body(StartX(i), StartY(i) + increaseY, true, false);
      }
    }

    /** All shots in flight are spent. */
    method SpendShots()
      requires Shape() && ShotsOk()
      modifies shots, alienShots
      ensures ShotsOk() && shots[..] == SpentAll(old(shots[..])) && alienShots[..] == SpentAll(old(alienShots[..]))
    {
      for i := 0 to 2
        invariant forall j | 0 <= j < i :: shots[j] == Spent(old(shots[j]))
        invariant forall j | i <= j < 2 :: shots[j] == old(shots[j])
        modifies shots
      {
        if shots[i].active {
          shots[i] := shots[i].(hit := true);
        }
      }
      for i := 0 to 4
        invariant forall j | 0 <= j < i :: alienShots[j] == Spent(old(alienShots[j]))
        invariant forall j | i <= j < 4 :: alienShots[j] == old(alienShots[j])
        modifies alienShots
      {
        if alienShots[i].active {
          alienShots[i] := alienShots[i].(hit := true);
        }
      }
    }

    /** The button counts only once its wait is over. */
    method StartOrPause(start: bool)
      requires WaitsOk()
      modifies `paused, `enPause, `waitToPause
      ensures WaitsOk()
      ensures var pressed := start && old(waitToPause) >= 29;
              paused == (old(paused) != pressed) && waitToPause == (if pressed then 0 else old(waitToPause))
    {
      if enPause {
        if start && !paused {
          paused, enPause, waitToPause := true, false, 0;
        } else if start && paused {
          paused, enPause, waitToPause := false, false, 0;
        }
      }
    }

    /** Inside an iteration: the screen counters may have reached their values. */
    ghost predicate CountersOk()
      reads `screenToAliens, `screenAliens, `screenShip
    {
      3 <= screenToAliens <= 15 && screenToAliens % 3 == 0 && 0 <= screenAliens <= screenToAliens && 0 <= screenShip <= 2
    }

    ghost predicate Playing()
      requires Shape()
      reads this, aliens, shots, alienShots
    {
      FormationOk() && ShipOk() && ShotsOk() && WaitsOk() && CountersOk()
    }

    /** First half of an iteration: count a screen or look for collisions, then steer and shoot. */
    method SenseAndControl(input: Input)
      requires Valid() && !ship.hit && input.shooter < ALIENS
      modifies this, aliens, shots, alienShots
      ensures Playing() && lifes == old(lifes) && paused == old(paused)
      ensures screenToAliens == old(screenToAliens) && increaseY == old(increaseY)
      ensures Now() == if input.screen then old(Now())
                       else old(Now()).(aliens := MarkedAliens(old(aliens[..]), old(shots[..])))
      ensures Seen() == Controlled(old(Seen()), old(aliens[..]), input, paused, Ticked(old(waitShoot), input) >= 59,
                                   Ticked(old(waitShootAl), input) >= 29)
      ensures screenAliens == Ticked(old(screenAliens), input) && screenShip == Ticked(old(screenShip), input)
      ensures waitShoot ==
                (if !paused && input.fire && Ticked(old(waitShoot), input) >= 59 then 0 else Ticked(old(waitShoot), input))
      ensures waitShootAl ==
                (if !paused && Ticked(old(waitShootAl), input) >= 29 then 0 else Ticked(old(waitShootAl), input))
      ensures waitToPause == Ticked(old(waitToPause), input)
    {
      hide FormationOk, ShotsOk, ShipOk, WaitsOk, ShipTouched, MarkedAliens, MarkedShots, Fired;
      if input.screen {
        CountScreen();
      } else {
        MarksOnly(aliens[..], shots[..], input.shooter);
        Analyze();
      }
      Control(input);
    }

    /** Second half: march, fly, start the next stage if it is due. */
    method RefreshAll()
      requires Shape() && Playing()
      modifies this, aliens, shots, alienShots
      ensures Shape() && FormationOk() && ShipOk() && ShotsOk() && TimersOk() && activedAliens > 0
      ensures lifes == old(lifes) && paused == old(paused)
      ensures waitShoot == old(waitShoot) && waitShootAl == old(waitShootAl) && waitToPause == old(waitToPause)
      ensures var due := old(screenAliens) == old(screenToAliens) && !paused;
              var cleared := Cleared(old(Now()), due);
              && Now() == Advanced(old(Now()), due, old(increaseY))
              && Seen() == Settled(old(Seen()), old(screenShip) == 2 && !paused, cleared)
              && increaseY == old(increaseY) + (if cleared then 10 else 0)
              && screenToAliens == old(screenToAliens) - (if cleared && old(screenToAliens) != 3 then 3 else 0)
              && screenAliens == (if cleared || old(screenAliens) == old(screenToAliens) then 0 else old(screenAliens))
              && screenShip == (if cleared || old(screenShip) == 2 then 0 else old(screenShip))
    {
      hide FormationOk, ShotsOk, ShipOk, WaitsOk, FreshAliens, RefreshedAliens, Hits, Flown, Restarted;
      RefreshAliens();
      RefreshShip();
      CountIsNat();
      NextStage();
    }

    /** One iteration of the main loop. Between screens only collisions happen, and a finished screen is counted; then
        the player and the aliens act, what is due moves, and the stage ends when nobody is left. */
    method Iterate(input: Input)
      requires Valid() && !ship.hit && input.shooter < ALIENS
      modifies this, aliens, shots, alienShots
      ensures Valid() && lifes == old(lifes)
      ensures var due := !old(paused) && Ticked(old(screenAliens), input) == old(screenToAliens);
              var flies := !old(paused) && Ticked(old(screenShip), input) == 2;
              var m := if input.screen then old(Now())
                       else old(Now()).(aliens := MarkedAliens(old(aliens[..]), old(shots[..])));
              var cleared := Cleared(m, due);
              && Now() == Advanced(m, due, old(increaseY))
              && Seen() == Settled(Controlled(old(Seen()), old(aliens[..]), input, old(paused),
                                                Ticked(old(waitShoot), input) >= 59, Ticked(old(waitShootAl), input) >= 29),
                                     flies, cleared)
              && increaseY == old(increaseY) + (if cleared then 10 else 0)
              && screenToAliens == old(screenToAliens) - (if cleared && old(screenToAliens) != 3 then 3 else 0)
      ensures paused == (old(paused) != (input.start && Ticked(old(waitToPause), input) >= 29))
      ensures waitShoot == Firings(old(waitShoot), 59, [(input.screen, !old(paused) && input.fire)]).0
      ensures waitShootAl == Firings(old(waitShootAl), 29, [(input.screen, !old(paused))]).0
    {
      hide FormationOk, ShotsOk, ShipOk, Advanced, Cleared, MarkedAliens, Controlled, Settled, WaitsOk, Firings;
      OneFiring(waitShoot, 59, input.screen, !paused && input.fire);
      OneFiring(waitShootAl, 29, input.screen, !paused);
      SenseAndControl(input);
      RefreshAll();
      StartOrPause(input.start);
    }

    /** The main loop is left: a life is lost. With a life left the formation starts again; with none the counter is
        set all the same, and the program ends. */
    method LoseLife()
      requires Valid() && ship.hit
      modifies this, aliens, shots, alienShots
      ensures lifes == old(lifes) - 1 && !ship.hit && activedAliens == 13
      ensures lifes >= 0 ==> Valid() && Now() == Apply(old(Now()), NextLife(old(increaseY)))
      ensures lifes >= 0 ==> Seen() == Restarted(old(Seen())).(steering := false)
      ensures lifes >= 0 ==> waitShoot == waitShootAl == waitToPause == 0
      ensures lifes < 0 ==> aliens[..] == old(aliens[..])
      ensures lifes < 0 ==> shots[..] == old(shots[..]) && alienShots[..] == old(alienShots[..])
      ensures screenAliens == screenShip == 0 && paused == old(paused)
      ensures screenToAliens == old(screenToAliens) && increaseY == old(increaseY)
    {
      hide FormationOk, FreshAliens, ShotsOk, WaitsOk, SpentAll;
      activedAliens, lifes, screenAliens, screenShip := 13, lifes - 1, 0, 0;
      ship := ship.(hit := false);
      if lifes >= 0 {
        StartLife();
        RestartAliens();
      }
    }

    /** Ship and aliens at their start, all shots spent. */
    method RestartAliens()
      requires Shape() && ShotsOk()
      modifies `ship, aliens, shots, alienShots
      ensures ship == old(ship).(x := 310, y := 300, hit := false) && ShotsOk() && aliens[..] == FreshAliens(increaseY)
      ensures shots[..] == SpentAll(old(shots[..])) && alienShots[..] == SpentAll(old(alienShots[..]))
      ensures activedAliens == 13 && (mountSteps == 6 || mountSteps == -6) ==> FormationOk()
    {
      ship := ship.(x := 310, y := 300, hit := false);
      PlaceAliens();
      ghost var placed := aliens[..];
      SpendShots();
      assert aliens[..] == placed;
      FreshOnTrack0(6, increaseY);
      FreshOnTrack0(-6, increaseY);
    }

    /** The variables the life loop sets up before the main loop. */
    method StartLife()
      modifies `screenAliens, `screenShip, `mountSteps, `refreshShip
      modifies `waitShoot, `waitShootAl, `waitToPause, `enShoot, `enShootAl, `enPause
      ensures screenAliens == screenShip == 0 && mountSteps == 6 && !refreshShip && WaitsOk()
      ensures waitShoot == waitShootAl == waitToPause == 0
    {
      screenAliens, screenShip, mountSteps, refreshShip := 0, 0, 6, false;
      waitShoot, waitShootAl, waitToPause := 0, 0, 0;
      enShoot, enShootAl, enPause := false, false, false;
    }

    /** A whole game, for any inputs: the invariant holds at every boundary while lives are left. */
    method Play(inputs: seq<Input>)
      requires Valid() && !ship.hit
      requires forall i | 0 <= i < |inputs| :: inputs[i].shooter < ALIENS
      modifies this, aliens, shots, alienShots
      ensures lifes >= 0 ==> Valid() && !ship.hit
      ensures -1 <= lifes <= old(lifes)
    {
      var i := 0;
      while i < |inputs| && lifes >= 0
        invariant 0 <= i <= |inputs| && -1 <= lifes <= old(lifes)
        invariant lifes >= 0 ==> Valid() && !ship.hit
      {
        Iterate(inputs[i]);
        if ship.hit {
          LoseLife();
        }
        i := i + 1;
      }
    }
  }

  lemma {:induction false} FiredKeepsFlying(shots: seq<Body>, x: int, y: int, k: nat)
    requires k < |shots| && shots[k].active
    ensures |Fired(shots, x, y)| == |shots| && Fired(shots, x, y)[k] == shots[k]
  {
    if shots[0].active && k > 0 {
      FiredKeepsFlying(shots[1..], x, y, k - 1);
    } else if k > 0 || !shots[0].active {
      assert Fired(shots, x, y) == [Body(x, y, true, shots[0].hit)] + shots[1..];
    } else if |shots| > 1 {
      FiredLength(shots[1..], x, y);
    }
  }

  lemma {:induction false} FiredLength(shots: seq<Body>, x: int, y: int)
    ensures |Fired(shots, x, y)| == |shots|
  {
    if shots != [] && shots[0].active {
      FiredLength(shots[1..], x, y);
    }
  }

  /** In one iteration a flying shot of the ship stays in its slot and its column, and moves up only if ship and shots
      move. It disappears only then, and only if it was hit, overlaps a shown alien, or has reached the top. */
  lemma ShotsFlyStraight(f: Field, s: seq<Body>, input: Input, paused: bool, mayFire: bool, aliensMayFire: bool,
                         flies: bool, cleared: bool, k: nat)
    requires input.shooter < |s| && k < |f.shots| && f.shots[k].active && f.shots[k].y >= 0
    ensures var t := Settled(Controlled(f, s, input, paused, mayFire, aliensMayFire), flies, cleared).shots;
            && |t| == |f.shots| && t[k].x == f.shots[k].x
            && (t[k].active ==> t[k].y == if !flies then f.shots[k].y else if f.shots[k].y < 5 then 0 else f.shots[k].y - 5)
            && (!t[k].active ==>
                  flies && (f.shots[k].hit || f.shots[k].y <= 0 || exists i | 0 <= i < |s| :: Kills(f.shots[k], s[i])))
  {
    ControlKeepsShots(f, s, input, paused, mayFire, aliensMayFire, k);
    hide Controlled, Collision, Kills;
    var g := Controlled(f, s, input, paused, mayFire, aliensMayFire);
    assert flies ==> Flown(g).shots[k] == FlownUp(g.shots[k]);
  }

  lemma ControlKeepsShots(f: Field, s: seq<Body>, input: Input, paused: bool, mayFire: bool, aliensMayFire: bool, k: nat)
    requires input.shooter < |s| && k < |f.shots| && f.shots[k].active
    ensures var t := Controlled(f, s, input, paused, mayFire, aliensMayFire).shots;
            |t| == |f.shots| && t[k] == if input.screen then f.shots[k] else StruckShot(f.shots[k], s)
  {
    hide StruckShot, ShipTouched, Fired;
    var g := if input.screen then f else Struck(f, s);
    StruckKeepsPlace(f.shots[k], s);
    FiredLength(g.shots, g.ship.x, g.ship.y - 20);
    FiredKeepsFlying(g.shots, g.ship.x, g.ship.y - 20, k);
  }

  lemma StruckKeepsPlace(shot: Body, s: seq<Body>)
    ensures StruckShot(shot, s) == shot.(hit := StruckShot(shot, s).hit)
  {
  }

  /** The same for a shot of the aliens: nothing but line 396 and a stage or life that ends stops it. */
  lemma AlienShotsFlyStraight(f: Field, s: seq<Body>, input: Input, paused: bool, mayFire: bool, aliensMayFire: bool,
                              flies: bool, cleared: bool, k: nat)
    requires input.shooter < |s| && k < |f.alienShots| && f.alienShots[k].active
    ensures var b := f.alienShots[k];
            var t := Settled(Controlled(f, s, input, paused, mayFire, aliensMayFire), flies, cleared).alienShots;
            && |t| == |f.alienShots| && t[k].x == b.x
            && (t[k].active <==> !flies || !(b.hit || b.y >= 396))
            && (t[k].active ==> t[k].y == if flies then b.y + 7 else b.y)
            && (t[k].active ==> t[k].hit == (b.hit || cleared))
  {
    ControlKeepsAlienShots(f, s, input, paused, mayFire, aliensMayFire, k);
    hide Controlled, Collision;
    var g := Controlled(f, s, input, paused, mayFire, aliensMayFire);
    assert flies ==> Flown(g).alienShots[k] == FlownDown(g.alienShots[k]);
  }

  lemma ControlKeepsAlienShots(f: Field, s: seq<Body>, input: Input, paused: bool, mayFire: bool, aliensMayFire: bool, k: nat)
    requires input.shooter < |s| && k < |f.alienShots| && f.alienShots[k].active
    ensures var t := Controlled(f, s, input, paused, mayFire, aliensMayFire).alienShots;
            |t| == |f.alienShots| && t[k] == f.alienShots[k]
  {
    hide Collision, MarkedShots, ShipTouched, Fired;
    var al := s[input.shooter];
    FiredLength(f.alienShots, al.x, al.y + 20);
    FiredKeepsFlying(f.alienShots, al.x, al.y + 20, k);
  }

  /** Firing changes one slot at most, the first that is free. */
  lemma {:induction false} FiredChangesOne(shots: seq<Body>, x: int, y: int, k: nat)
    requires k < |shots|
    ensures |Fired(shots, x, y)| == |shots|
    ensures Fired(shots, x, y)[k] != shots[k] ==>
              && !shots[k].active && Fired(shots, x, y)[k] == Body(x, y, true, shots[k].hit)
              && forall i | 0 <= i < k :: shots[i].active
  {
    FiredLength(shots, x, y);
    if shots[0].active && k > 0 {
      FiredChangesOne(shots[1..], x, y, k - 1);
      if Fired(shots, x, y)[k] != shots[k] {
        forall i | 0 <= i < k ensures shots[i].active {
          assert i > 0 ==> shots[i] == shots[1..][i - 1];
        }
      }
    }
  }

  /** What the collision analysis comes to: the ship is hit exactly by a shown alien or a flying shot of theirs near it. */
  lemma ShipIsHitBy(f: Field, s: seq<Body>)
    requires !f.ship.hit
    ensures Struck(f, s).ship.hit <==>
              || (exists i | 0 <= i < |s| :: s[i].active && Near(f.ship, s[i]))
              || (exists k | 0 <= k < |f.alienShots| ::
                    f.alienShots[k].active && !f.alienShots[k].hit && Near(f.ship, f.alienShots[k]))
  {
    forall b ensures Collision(f.ship, b) == Near(f.ship, b) { CollisionIs(f.ship, b); }
    hide Collision, Near, MarkedShots;
  }

  /** An alien not hit before is hit exactly if it is shown and near a flying shot, and a flying shot exactly if it is near a
      shown alien. */
  lemma AliensAreHitBy(shots: seq<Body>, s: seq<Body>)
    ensures |MarkedAliens(s, shots)| == |s| && |MarkedShots(shots, s)| == |shots|
    ensures forall i | 0 <= i < |s| && !s[i].hit :: MarkedAliens(s, shots)[i].hit <==>
              exists k | 0 <= k < |shots| :: ShotHits(shots[k], s[i])
    ensures forall k | 0 <= k < |shots| && !shots[k].hit :: MarkedShots(shots, s)[k].hit <==>
              exists i | 0 <= i < |s| :: ShotHits(shots[k], s[i])
  {
    forall a, b ensures Kills(a, b) == ShotHits(a, b) { CollisionIs(a, b); }
    hide Kills, ShotHits;
  }

  predicate ShotHits(shot: Body, a: Body) {
    shot.active && !shot.hit && a.active && Near(shot, a)
  }

  /** What a finished screen does to the formation: nobody moves unless the march is due; then they march and whoever was hit
      is gone; and when nobody is left a whole formation starts, lower by increaseY, at the same pace. */
  lemma AdvancedIs(m: March, due: bool, increaseY: int)
    requires Marching(m)
    ensures Cleared(m, due) <==> forall i | 0 <= i < ALIENS :: !m.aliens[i].active || (due && m.aliens[i].hit)
    ensures Advanced(m, due, increaseY) ==
              if Cleared(m, due) then March(FreshAliens(increaseY), if due then Turn(m.aliens[0].x, m.mount) else m.mount, 13)
              else if due then March(RefreshedAliens(m.aliens, m.mount), Turn(m.aliens[0].x, m.mount), m.count - Hits(m.aliens))
              else m
  {
    hide Turn, FreshAliens;
    NobodyLeft(m.aliens);
    if due {
      RefreshKeepsFormation(m.aliens, m.mount);
      NobodyLeft(RefreshedAliens(m.aliens, m.mount));
    }
  }

  lemma {:induction false} NobodyLeft(s: seq<Body>)
    ensures Active(s) == 0 <==> forall i | 0 <= i < |s| :: !s[i].active
  {
    if s != [] {
      NobodyLeft(s[1..]);
      assert (forall i | 0 <= i < |s| :: !s[i].active) ==> forall i | 0 <= i < |s[1..]| :: !s[1..][i].active;
      assert forall i | 0 < i < |s| :: s[i] == s[1..][i - 1];
    }
  }

  /** A free slot of the aliens holds a shot after the first half of an iteration exactly if the alien drawn by lot is shown
      and may fire, outside a pause, and no earlier slot was free; it starts 20 pixels below that alien. */
  lemma ShotsComeFromTheAliens(f: Field, s: seq<Body>, input: Input, paused: bool, mayFire: bool, aliensMayFire: bool, k: nat)
    requires input.shooter < |s| && k < |f.alienShots| && !f.alienShots[k].active
    ensures var (t, al) := (Controlled(f, s, input, paused, mayFire, aliensMayFire).alienShots, s[input.shooter]);
            |t| == |f.alienShots| && (t[k].active <==>
              && !paused && aliensMayFire && al.active && forall i | 0 <= i < k :: f.alienShots[i].active)
            && (t[k].active ==> t[k].x == al.x && t[k].y == al.y + 20)
  {
    hide Collision, ShipTouched, MarkedShots, Fired;
    var al := s[input.shooter];
    FiredLength(f.alienShots, al.x, al.y + 20);
    if forall i | 0 <= i < k :: f.alienShots[i].active {
      FiredAt(f.alienShots, al.x, al.y + 20, k);
    }
    FiredChangesOne(f.alienShots, al.x, al.y + 20, k);
  }

  /** Where the joystick takes the ship in an unpaused iteration in which ship and shots move: 5 pixels to the side it is held
      to, up to the margins 1 and 620, or nowhere. */
  lemma SteeringMovesTheShip(f: Field, s: seq<Body>, input: Input, mayFire: bool, aliensMayFire: bool)
    requires input.shooter < |s| && 1 <= f.ship.x <= 620
    ensures var (x, t) := (f.ship.x, Settled(Controlled(f, s, input, false, mayFire, aliensMayFire), true, false).ship);
            && t.x == (match input.steer
                       case Right => if x + 5 > 620 then 620 else x + 5
                       case Left => if x - 5 < 1 then 1 else x - 5
                       case Straight => x)
            && t.y == f.ship.y
  {
    hide ShipTouched, Fired, MarkedShots, FlownUp, FlownDown;
  }

  /** Between its turns the ship stands still and the joystick is remembered as it was held last; a pause keeps what was
      held before it. */
  lemma SteeringIsRemembered(f: Field, s: seq<Body>, input: Input, paused: bool, mayFire: bool, aliensMayFire: bool)
    requires input.shooter < |s|
    ensures var t := Settled(Controlled(f, s, input, paused, mayFire, aliensMayFire), false, false);
            && t.ship.x == f.ship.x && t.ship.y == f.ship.y
            && (paused ==> t.direction == f.direction && t.steering == f.steering)
            && (!paused ==> (t.steering <==> input.steer != Straight))
            && (!paused && input.steer == Right ==> t.direction == 4)
            && (!paused && input.steer == Left ==> t.direction == 0)
  {
    hide ShipTouched, Fired, MarkedShots;
  }

  /** After a stage or a life has started, the next turn of the shots clears the field, and the ship stands at its start
      unhurt. */
  lemma RestartClearsTheField(f: Field, k: nat)
    ensures var t := Restarted(f);
            && t.ship.x == 310 && t.ship.y == 300 && !t.ship.hit && t.ship.active == f.ship.active
            && |t.shots| == |f.shots| && |t.alienShots| == |f.alienShots|
            && (k < |f.shots| ==> t.shots[k].active == f.shots[k].active && !Flown(t).shots[k].active)
            && (k < |f.alienShots| ==> t.alienShots[k].active == f.alienShots[k].active && !Flown(t).alienShots[k].active)
  {
  }

  /** A slot that was free holds a shot after the first half of an iteration exactly if the ship fired it just now, outside a
      pause, and no earlier slot was free; it starts 20 pixels above the ship. */
  lemma ShotsComeFromTheShip(f: Field, s: seq<Body>, input: Input, paused: bool, mayFire: bool, aliensMayFire: bool, k: nat)
    requires input.shooter < |s| && k < |f.shots| && !f.shots[k].active
    ensures var t := Controlled(f, s, input, paused, mayFire, aliensMayFire).shots;
            |t| == |f.shots| && (t[k].active <==>
              && !paused && input.fire && mayFire && forall i | 0 <= i < k :: f.shots[i].active)
            && (t[k].active ==> t[k].x == f.ship.x && t[k].y == f.ship.y - 20)
  {
    hide Collision, ShipTouched, Fired;
    var g := if input.screen then f else Struck(f, s);
    assert |g.shots| == |f.shots| && forall i | 0 <= i < |f.shots| :: g.shots[i].active == f.shots[i].active;
    FiredLength(g.shots, g.ship.x, g.ship.y - 20);
    if forall i | 0 <= i < k :: f.shots[i].active {
      FiredAt(g.shots, g.ship.x, g.ship.y - 20, k);
    }
    FiredChangesOne(g.shots, g.ship.x, g.ship.y - 20, k);
  }

  /** A shot moved n times: one of the ship's up, one of the aliens' down. */
  function Flights(b: Body, n: nat, up: bool): Body
    decreases n
  {
    if n == 0 then b else Flights(if up then FlownUp(b) else FlownDown(b), n - 1, up)
  }

  lemma {:induction false} EndedStaysEnded(b: Body, n: nat, up: bool)
    requires !b.active
    ensures Flights(b, n, up) == b
  {
    if n > 0 {
      EndedStaysEnded(b, n - 1, up);
    }
  }

  /** Every shot of the ship ends: from height y it disappears within y / 5 + 2 moves, and frees its slot. */
  lemma {:induction false} ShotEnds(b: Body, n: nat)
    requires b.active && b.y <= 5 * n
    ensures !Flights(b, n + 1, true).active
    decreases n
  {
    var c := FlownUp(b);
    if c.active {
      ShotEnds(c, n - 1);
    } else {
      EndedStaysEnded(c, n, true);
    }
  }

  /** So does every shot of the aliens, at the bottom. */
  lemma {:induction false} AlienShotEnds(b: Body, n: nat)
    requires b.active && b.y + 7 * n >= 396
    ensures !Flights(b, n + 1, false).active
    decreases n
  {
    var c := FlownDown(b);
    if c.active {
      AlienShotEnds(c, n - 1);
    } else {
      EndedStaysEnded(c, n, false);
    }
  }

  /** Over a run, given for each iteration whether it counts a screen and whether somebody wants to fire: the wait at the
      end, and how often fire was opened. */
  function Firings(wait: int, limit: int, run: seq<(bool, bool)>): (int, nat) {
    if run == [] then (wait, 0)
    else
      var ((w, n), (screen, wants)) := (Firings(wait, limit, run[..|run| - 1]), run[|run| - 1]);
      var t := if screen then w + 1 else w;
      if wants && t >= limit then (0, n + 1) else (t, n)
  }

  lemma OneFiring(wait: int, limit: int, screen: bool, wants: bool)
    ensures var t := if screen then wait + 1 else wait;
            Firings(wait, limit, [(screen, wants)]).0 == if wants && t >= limit then 0 else t
  {
    assert Firings(wait, limit, []) == (wait, 0);
    assert [(screen, wants)][..0] == [];
  }

  function Screens(run: seq<(bool, bool)>): nat {
    if run == [] then 0 else Screens(run[..|run| - 1]) + (if run[|run| - 1].0 then 1 else 0)
  }

  /** Fire is opened at most once in as many screens as the wait lasts, over every run. */
  lemma {:induction false} FiringRate(wait: int, limit: int, run: seq<(bool, bool)>)
    ensures var (w, n) := Firings(wait, limit, run); limit * n + w <= wait + Screens(run)
  {
    if run != [] {
      FiringRate(wait, limit, run[..|run| - 1]);
      var n := Firings(wait, limit, run[..|run| - 1]).1;
      assert limit * (n + 1) == limit * n + limit;
    }
  }

  lemma FreshOnTrack0(mount: int, increaseY: int)
    requires mount == 6 || mount == -6
    ensures Marching(March(FreshAliens(increaseY), mount, 13))
  {
    FreshIsFormation(increaseY);
  }

  lemma RefreshedPointwise(s: seq<Body>, mount: int, t: seq<Body>)
    requires |s| == |t| == ALIENS
    requires forall i | 0 <= i < ALIENS :: t[i] == Refreshed(i, s[i], Drop(s[0].x), Turn(s[0].x, mount))
    ensures t == RefreshedAliens(s, mount)
  {
  }

  lemma {:induction false} HitsAppend(s: seq<Body>, a: Body)
    ensures Hits(s + [a]) == Hits(s) + (if a.hit then 1 else 0)
  {
    if s != [] {
      assert (s + [a])[1..] == s[1..] + [a];
      HitsAppend(s[1..], a);
    }
  }
}
