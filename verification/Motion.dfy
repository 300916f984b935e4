/** Sprite motion on the 640 x 480 screen: the graphics library's increase_coordinate in its mirror and clamp modes. */
module Motion {

  const LEFT: nat := 0
  const UPPER_RIGHT: nat := 1
  const UP: nat := 2
  const UPPER_LEFT: nat := 3
  const RIGHT: nat := 4
  const BOTTOM_LEFT: nat := 5
  const DOWN: nat := 6
  const BOTTOM_RIGHT: nat := 7

  predicate MovesLeft(dir: nat) { dir == LEFT || dir == UPPER_LEFT || dir == BOTTOM_LEFT }

  predicate MovesRight(dir: nat) { dir == RIGHT || dir == UPPER_RIGHT || dir == BOTTOM_RIGHT }

  predicate MovesUp(dir: nat) { dir == UP || dir == UPPER_LEFT || dir == UPPER_RIGHT }

  predicate MovesDown(dir: nat) { dir == DOWN || dir == BOTTOM_LEFT || dir == BOTTOM_RIGHT }

  /** x on one axis step: subtracted, added or kept by the direction. */
  function ShiftX(dir: nat, x: int, sx: int): int {
    if MovesLeft(dir) then x - sx else if MovesRight(dir) then x + sx else x
  }

  function ShiftY(dir: nat, y: int, sy: int): int {
    if MovesUp(dir) then y - sy else if MovesDown(dir) then y + sy else y
  }

  /** One call: shift both axes, then repair at most one of them, the vertical one first. */
  function Move(dir: nat, x: int, y: int, sx: int, sy: int, mirror: bool): (int, int) {
    var (nx, ny) := (ShiftX(dir, x, sx), ShiftY(dir, y, sy));
    if MovesUp(dir) && ny < 0 then (nx, if mirror then 480 else 0)
    else if MovesDown(dir) && ny > 480 then (nx, if mirror then 0 else 480)
    else if MovesLeft(dir) && nx < 1 then (if mirror then 640 else 1, ny)
    else if dir == RIGHT && !mirror then (if nx > 620 then 620 else nx, ny)
    else if MovesRight(dir) && nx > 640 then (if mirror then 0 else 640, ny)
    else (nx, ny)
  }

  class Sprite {
    var coordX: int
    var coordY: int
    var direction: nat
    const stepX: int
    const stepY: int

    constructor (x: int, y: int, direction: nat, stepX: int, stepY: int)
      ensures coordX == x && coordY == y && this.direction == direction && this.stepX == stepX && this.stepY == stepY
    {
      coordX, coordY, this.direction, this.stepX, this.stepY := x, y, direction, stepX, stepY;
    }

    method IncreaseCoordinate(mirror: bool)
      requires direction <= 7
      modifies `coordX, `coordY
      ensures (coordX, coordY) == Move(direction, old(coordX), old(coordY), stepX, stepY, mirror)
    {
      match direction {
        case 0 =>
          coordX := coordX - stepX;
          if coordX < 1 { coordX := if mirror then 640 else 1; }
        case 1 =>
          coordX, coordY := coordX + stepX, coordY - stepY;
          if coordY < 0 { coordY := if mirror then 480 else 0; }
          else if coordX > 640 { coordX := if mirror then 0 else 640; }
        case 2 =>
          coordY := coordY - stepY;
          if coordY < 0 { coordY := if mirror then 480 else 0; }
        case 3 =>
          coordX, coordY := coordX - stepX, coordY - stepY;
          if coordY < 0 { coordY := if mirror then 480 else 0; }
          else if coordX < 1 { coordX := if mirror then 640 else 1; }
        case 4 =>
          coordX := coordX + stepX;
          if mirror {
            if coordX > 640 { coordX := 0; }
          } else if coordX > 620 {
            coordX := 620;
          }
        case 5 =>
          coordX, coordY := coordX - stepX, coordY + stepY;
          if coordY > 480 { coordY := if mirror then 0 else 480; }
          else if coordX < 1 { coordX := if mirror then 640 else 1; }
        case 6 =>
          coordY := coordY + stepY;
          if coordY > 480 { coordY := if mirror then 0 else 480; }
        case 7 =>
          coordX, coordY := coordX + stepX, coordY + stepY;
          if coordY > 480 { coordY := if mirror then 0 else 480; }
          else if coordX > 640 { coordX := if mirror then 0 else 640; }
      }
    }
  }

  /** The position after n calls in one direction. */
  function Frames(dir: nat, x: int, y: int, sx: int, sy: int, mirror: bool, n: nat): (int, int) {
    if n == 0 then (x, y)
    else
      var (px, py) := Frames(dir, x, y, sx, sy, mirror, n - 1);
      Move(dir, px, py, sx, sy, mirror)
  }

  predicate OnScreenX(x: int) { 0 <= x <= 640 }

  predicate OnScreenY(y: int) { 0 <= y <= 480 }

  /** x is off the screen by at most one step, on the side the sprite moves to, and only in a frame that has just
      wrapped y. */
  predicate Excused(dir: nat, x: int, y: int, sx: int) {
    && (y == 0 || y == 480)
    && (x < 0 ==> MovesLeft(dir) && !(dir == LEFT) && x >= -sx)
    && (x > 640 ==> MovesRight(dir) && !(dir == RIGHT) && x <= 640 + sx)
    && (y == 480 ==> MovesUp(dir)) && (y == 0 ==> MovesDown(dir))
  }

  /** The way a direction leads, in pixels to the right and pixels down. */
  function Heading(dir: nat): (int, int)
    requires dir <= 7
  {
    [(-1, 0), (1, -1), (0, -1), (-1, -1), (1, 0), (-1, 1), (0, 1), (1, 1)][dir]
  }

  /** One mirrored move, in numbers. y goes by its step, or comes in again at the other edge if that leaves 0..480. x goes by
      its step too, and if y was not repaired comes in again at the other edge when that leaves 1..640. */
  lemma MirroredMove(dir: nat, x: int, y: int, sx: int, sy: int)
    requires dir <= 7
    ensures var (hx, hy) := Heading(dir);
            var (tx, ty) := (x + hx * sx, y + hy * sy);
            Move(dir, x, y, sx, sy, true) ==
              if hy == -1 && ty < 0 then (tx, 480)
              else if hy == 1 && ty > 480 then (tx, 0)
              else if hx == -1 && tx < 1 then (640, ty)
              else if hx == 1 && tx > 640 then (0, ty)
              else (tx, ty)
  {
    HeadingIsShift(dir, x, y, sx, sy);
  }

  /** One clamped move, in numbers: the same, stopping at the edge it would leave by; at 620 going straight right. */
  lemma ClampedMove(dir: nat, x: int, y: int, sx: int, sy: int)
    requires dir <= 7
    ensures var (hx, hy) := Heading(dir);
            var (tx, ty) := (x + hx * sx, y + hy * sy);
            Move(dir, x, y, sx, sy, false) ==
              if hy == -1 && ty < 0 then (tx, 0)
              else if hy == 1 && ty > 480 then (tx, 480)
              else if hx == -1 && tx < 1 then (1, ty)
              else if dir == 4 && tx > 620 then (620, ty)
              else if hx == 1 && dir != 4 && tx > 640 then (640, ty)
              else (tx, ty)
  {
    HeadingIsShift(dir, x, y, sx, sy);
  }

  lemma HeadingIsShift(dir: nat, x: int, y: int, sx: int, sy: int)
    requires dir <= 7
    ensures (x + Heading(dir).0 * sx, y + Heading(dir).1 * sy) == (ShiftX(dir, x, sx), ShiftY(dir, y, sy))
  {
    var (hx, hy) := Heading(dir);
    assert hx * sx == (if hx == 1 then sx else if hx == -1 then -sx else 0);
    assert hy * sy == (if hy == 1 then sy else if hy == -1 then -sy else 0);
  }

  /** As long as a run stays inside, it is a straight line in the direction's heading. */
  lemma {:induction false} StraightInside(dir: nat, x: int, y: int, sx: int, sy: int, mirror: bool, n: nat)
    requires dir <= 7 && 0 <= sx && 0 <= sy && 1 <= x <= 620 && OnScreenY(y)
    requires var (hx, hy) := Heading(dir); 1 <= x + n * (hx * sx) <= 620 && OnScreenY(y + n * (hy * sy))
    ensures var (hx, hy) := Heading(dir);
            Frames(dir, x, y, sx, sy, mirror, n) == (x + n * (hx * sx), y + n * (hy * sy))
  {
    if n > 0 {
      var (hx, hy) := Heading(dir);
      Between(1, 620, x, hx * sx, n);
      Between(0, 480, y, hy * sy, n);
      StraightInside(dir, x, y, sx, sy, mirror, n - 1);
      hide Move;
      var (px, py) := (x + (n - 1) * (hx * sx), y + (n - 1) * (hy * sy));
      if mirror {
        MirroredMove(dir, px, py, sx, sy);
      } else {
        ClampedMove(dir, px, py, sx, sy);
      }
    }
  }

  lemma Between(low: int, high: int, x: int, step: int, n: nat)
    requires n > 0 && low <= x <= high && low <= x + n * step <= high
    ensures low <= x + (n - 1) * step <= high && x + n * step == x + (n - 1) * step + step
  {
    assert n * step == (n - 1) * step + step;
    if step >= 0 {
      assert (n - 1) * step >= 0;
    } else {
      assert (n - 1) * step <= 0;
    }
  }

  predicate Diagonal(dir: nat) { dir == UPPER_RIGHT || dir == UPPER_LEFT || dir == BOTTOM_LEFT || dir == BOTTOM_RIGHT }

  /** In mirror mode, in every frame of every run, y is on the screen and x overshoots by at most one step; an
      overshoot never lasts two frames. */
  lemma {:induction false} SelfCorrects(dir: nat, x: int, y: int, sx: int, sy: int, n: nat)
    requires dir <= 7 && OnScreenX(x) && OnScreenY(y) && 0 <= sx && 0 <= sy
    requires !Diagonal(dir) || sx == 0 || sy <= 480
    ensures Corrected(dir, x, y, sx, sy, n)
  {
    if n > 0 {
      SelfCorrects(dir, x, y, sx, sy, n - 1);
    }
  }

  /** What frame n of a mirrored run, and the next one, look like. */
  predicate Corrected(dir: nat, x: int, y: int, sx: int, sy: int, n: nat) {
    var ((px, py), (qx, qy)) := (Frames(dir, x, y, sx, sy, true, n), Frames(dir, x, y, sx, sy, true, n + 1));
    OnScreenY(py) && (OnScreenX(px) || Excused(dir, px, py, sx)) && (OnScreenX(px) || OnScreenX(qx))
  }

  /** The edge at which a diagonal has its y repaired in every frame once the vertical step is large enough. */
  function EdgeY(dir: nat, mirror: bool): int { if MovesUp(dir) == mirror then 480 else 0 }

  /** There, x is never repaired. */
  lemma {:induction false} RunsAway(dir: nat, x: int, sx: int, sy: int, mirror: bool, n: nat)
    requires Diagonal(dir) && sy > (if mirror then 480 else 0)
    ensures Frames(dir, x, EdgeY(dir, mirror), sx, sy, mirror, n)
         == (if MovesLeft(dir) then x - n * sx else x + n * sx, EdgeY(dir, mirror))
  {
    hide Move, EdgeY;
    if n > 0 {
      RunsAway(dir, x, sx, sy, mirror, n - 1);
      assert n * sx == (n - 1) * sx + sx;
      SlidesAlong(dir, if MovesLeft(dir) then x - (n - 1) * sx else x + (n - 1) * sx, sx, sy, mirror);
    }
  }

  lemma SlidesAlong(dir: nat, x: int, sx: int, sy: int, mirror: bool)
    requires Diagonal(dir) && sy > (if mirror then 480 else 0)
    ensures Move(dir, x, EdgeY(dir, mirror), sx, sy, mirror) == (if MovesLeft(dir) then x - sx else x + sx, EdgeY(dir, mirror))
  {
  }

  /** The bound on the vertical step is needed for every diagonal that moves in x: above it, runs leave the screen by any
      distance and do not come back. */
  lemma TallStepsRunAway(dir: nat, sx: int, sy: int, distance: nat)
    requires Diagonal(dir) && sx > 0 && sy > 480
    ensures var (x, y) := (320, EdgeY(dir, true));
            && OnScreenY(y)
            && forall n: nat | n >= 320 + distance ::
                 var px := Frames(dir, x, y, sx, sy, true, n).0;
                 px <= 0 - distance || px >= 640 + distance
  {
    hide Frames;
    forall n: nat | n >= 320 + distance
      ensures var px := Frames(dir, 320, EdgeY(dir, true), sx, sy, true, n).0; px <= 0 - distance || px >= 640 + distance
    {
      RunsAway(dir, 320, sx, sy, true, n);
      AtLeast(n, sx);
    }
  }

  lemma AtLeast(n: nat, factor: int)
    requires factor > 0
    ensures n * factor >= n
  {
  }

  /** Mirror mode corrects every run exactly when the direction is an axis, x does not move, or the vertical step is at
      most the height of the screen. */
  lemma CorrectsExactly(dir: nat, sx: int, sy: int)
    requires dir <= 7 && 0 <= sx && 0 <= sy
    ensures (forall x, y, n: nat | OnScreenX(x) && OnScreenY(y) :: Corrected(dir, x, y, sx, sy, n))
       <==> !Diagonal(dir) || sx == 0 || sy <= 480
  {
    if !Diagonal(dir) || sx == 0 || sy <= 480 {
      forall x, y, n: nat | OnScreenX(x) && OnScreenY(y) ensures Corrected(dir, x, y, sx, sy, n) {
        SelfCorrects(dir, x, y, sx, sy, n);
      }
    } else {
      TallStepsRunAway(dir, sx, sy, 1);
      assert !Corrected(dir, 320, EdgeY(dir, true), sx, sy, 321);
    }
  }

  /** In clamp mode every on-screen position stays on the screen exactly when the direction is an axis or one of the steps
      is zero. */
  lemma ClampKeepsOnScreenExactly(dir: nat, sx: int, sy: int)
    requires dir <= 7 && 0 <= sx && 0 <= sy
    ensures (forall x, y | OnScreenX(x) && OnScreenY(y) :: ClampStays(dir, x, y, sx, sy))
       <==> !Diagonal(dir) || sx == 0 || sy == 0
  {
    if Diagonal(dir) && sx > 0 && sy > 0 {
      assert !ClampStays(dir, if MovesLeft(dir) then 0 else 640, EdgeY(dir, false), sx, sy);
    }
  }

  predicate ClampStays(dir: nat, x: int, y: int, sx: int, sy: int) {
    var (nx, ny) := Move(dir, x, y, sx, sy, false);
    OnScreenX(nx) && OnScreenY(ny)
  }

  /** And then so does every run. */
  lemma {:induction false} ClampedRunsStay(dir: nat, x: int, y: int, sx: int, sy: int, n: nat)
    requires dir <= 7 && 0 <= sx && 0 <= sy && OnScreenX(x) && OnScreenY(y)
    requires !Diagonal(dir) || sx == 0 || sy == 0
    ensures var (px, py) := Frames(dir, x, y, sx, sy, false, n); OnScreenX(px) && OnScreenY(py)
  {
    if n > 0 {
      ClampedRunsStay(dir, x, y, sx, sy, n - 1);
    }
  }

  /** Any other clamped diagonal runs away along the edge it clamps to. */
  lemma ClampedDiagonalRunsAway(dir: nat, x: int, sx: int, sy: int, n: nat)
    requires Diagonal(dir) && sy > 0
    ensures Frames(dir, x, EdgeY(dir, false), sx, sy, false, n)
         == (if MovesLeft(dir) then x - n * sx else x + n * sx, EdgeY(dir, false))
  {
    RunsAway(dir, x, sx, sy, false, n);
  }
}
