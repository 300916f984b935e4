/** The asteroid animation: a sprite caches the packed instruction word of its position and updates it by adding
    packed steps, instead of packing again. */
module Asteroids {
  import opened Bits
  import opened Motion

  const MASK_X: nat := 0x1FF80000
  const MASK_Y: nat := 0x0007FE00

  /** A signed value as a 32-bit word. */
  function U32(x: int): nat { x % 0x1_0000_0000 }

  /** The instruction word of a position, built as the source builds it: activation bit, x, y and offset. */
  function PositionWord(x: int, y: int, offset: int): nat {
    var data := U32(Shl(Or(0, 1), 10));
    var data := U32(Shl(Or(data, U32(x)), 10));
    var data := U32(Shl(Or(data, U32(y)), 9));
    Or(data, U32(offset))
  }

  lemma {:induction false} ShlIsTimes(n: nat, k: nat)
    ensures Shl(n, k) == n * Pow2(k)
  {
    if k > 0 {
      ShlIsTimes(n, k - 1);
    }
  }

  /** Appending a field of k bits to a word. */
  lemma AppendField(word: nat, k: nat, size: nat, field: nat)
    requires Pow2(k) == size && field < size
    ensures Shl(word, k) == word * size && Or(Shl(word, k), field) == word * size + field
  {
    ShlIsTimes(word, k);
    OrDisjoint(word, field, k);
  }

  lemma FieldSizes()
    ensures Pow2(9) == 512 && Pow2(10) == 1024 && Pow2(19) == 524288
  {
    assert Pow2(5) == 32;
    assert Pow2(9) == 512;
    assert Pow2(14) == 16384;
    assert Pow2(19) == 524288;
  }

  /** Inside the field ranges a position packs into disjoint fields. */
  lemma PositionWordIsSum(x: int, y: int, offset: int)
    requires 0 <= x < 1024 && 0 <= y < 1024 && 0 <= offset < 512
    ensures PositionWord(x, y, offset) == 0x2000_0000 + x * 524288 + y * 512 + offset
  {
    hide Shl, Pow2, Or;
    FieldSizes();
    assert Or(0, 1) == 1 by { OrOfZero(1); }
    AppendField(1, 10, 1024, x);
    AppendField(1024 + x, 10, 1024, y);
    AppendField(1024 * (1024 + x) + y, 9, 512, offset);
  }

  lemma OrOfZero(n: nat)
    ensures Or(0, n) == n
  {
  }

  /** The coordinates a word shows on the screen. */
  function FieldX(word: nat): nat { word / 524288 % 1024 }

  function FieldY(word: nat): nat { word / 512 % 1024 }

  function FieldOffset(word: nat): nat { word % 512 }

  /** Packing loses nothing as long as every coordinate fits its field. */
  lemma WordRoundTrip(x: int, y: int, offset: int)
    requires 0 <= x < 1024 && 0 <= y < 1024 && 0 <= offset < 512
    ensures var word := PositionWord(x, y, offset);
            FieldX(word) == x && FieldY(word) == y && FieldOffset(word) == offset && word < 0x1_0000_0000
  {
    hide PositionWord;
    PositionWordIsSum(x, y, offset);
    assert (524288 * (1024 + x) + (y * 512 + offset)) / 524288 == 1024 + x;
    assert (512 * (1048576 + 1024 * x + y) + offset) / 512 == 1048576 + 1024 * x + y;
  }

  /** The sum of the fields, which the cached word follows modulo 2^32 while steps are added to it. */
  function Fields(x: int, y: int, offset: int): int { 0x2000_0000 + x * 524288 + y * 512 + offset }

  lemma U32Sum(a: int, b: int)
    ensures U32(U32(a) + b) == U32(a + b)
  {
  }

  /** On the screen, the fields followed are those of a freshly packed word. */
  lemma FollowedIsFresh(x: int, y: int, offset: int)
    requires OnScreenX(x) && OnScreenY(y) && 0 <= offset < 512
    ensures PositionWord(x, y, offset) == U32(Fields(x, y, offset))
  {
    hide PositionWord;
    PositionWordIsSum(x, y, offset);
  }

  /** A step of up to 1023 survives the masks: the packed step is in place, and unpacks to the step. */
  lemma StepMask(step: nat)
    requires step <= 1023
    ensures And(MASK_X, Shl(step, 19)) == Shl(step, 19) == step * 524288
    ensures And(MASK_Y, Shl(step, 9)) == Shl(step, 9) == step * 512
    ensures Shr(Shl(step, 19), 19) == step && Shr(Shl(step, 9), 9) == step
  {
    hide And, Shl, Shr, Pow2;
    FieldSizes();
    assert Mask(10) == 1023 by { assert Mask(5) == 31; }
    ShlIsTimes(1023, 19);
    ShlIsTimes(1023, 9);
    ShlIsTimes(step, 19);
    ShlIsTimes(step, 9);
    AndShl(1023, step, 19);
    AndShl(1023, step, 9);
    AndMask(step, 10);
    ShrUndoesShl(step, 19);
    ShrUndoesShl(step, 9);
  }

  lemma {:induction false} ShrUndoesShl(n: nat, k: nat)
    ensures Shr(Shl(n, k), k) == n
  {
    if k > 0 {
      assert Shl(n, k) / 2 == Shl(n, k - 1);
      ShrUndoesShl(n, k - 1);
    }
  }

  /** The word of the n-th frame of a mirrored motion, packed afresh. */
  function FrameWord(dir: nat, x: int, y: int, stepX: nat, stepY: nat, n: nat, offset: int): nat {
    var (px, py) := Frames(dir, x, y, stepX, stepY, true, n);
    PositionWord(px, py, offset)
  }

  class Asteroid {
    var coordX: int
    var coordY: int
    const direction: nat
    const offset: nat
    const maskX: nat
    const maskY: nat
    var instB: nat
    ghost const stepX: nat
    ghost const stepY: nat

    /** The cached word is the word of the position, and x is off the screen only where a wrap of y excuses it. */
    ghost predicate Valid()
      reads this
    {
      && direction <= 6 && offset < 512 && stepX <= 1023 && stepY <= 480
      && maskX == And(MASK_X, Shl(stepX, 19)) && maskY == And(MASK_Y, Shl(stepY, 9))
      && OnScreenY(coordY) && (OnScreenX(coordX) || Excused(direction, coordX, coordY, stepX))
      && instB == PositionWord(coordX, coordY, offset)
    }

    /** The random direction of the source lies between 0 and 6. */
    constructor (x: int, y: int, stepX: nat, stepY: nat, offset: nat, direction: nat)
      requires OnScreenX(x) && OnScreenY(y) && stepX <= 1023 && stepY <= 480 && offset < 512 && direction <= 6
      ensures Valid() && coordX == x && coordY == y
      ensures this.direction == direction && this.stepX == stepX && this.stepY == stepY && this.offset == offset
    {
      coordX, coordY, this.offset, this.direction := x, y, offset, direction;
      instB := PositionWord(x, y, offset);
      maskX := And(MASK_X, Shl(stepX, 19));
      maskY := And(MASK_Y, Shl(stepY, 9));
      this.stepX, this.stepY := stepX, stepY;
    }

    predicate Following()
      reads this
    {
      instB == U32(Fields(coordX, coordY, offset))
    }

    method Repack()
      modifies `instB
      ensures instB == PositionWord(coordX, coordY, offset)
    {
      instB := PositionWord(coordX, coordY, offset);
    }

    /** Move along x by the unpacked step and add the packed step to the word; sign is 1 or -1. */
    method ShiftXBy(sign: int)
      requires (sign == 1 || sign == -1) && stepX <= 1023 && maskX == And(MASK_X, Shl(stepX, 19))
      modifies `coordX, `instB
      ensures coordX == old(coordX) + sign * stepX
      ensures old(Following()) ==> Following()
    {
      hide And, Shl, Shr;
      StepMask(stepX);
      MaskTwice(stepX, stepX);
      var step := Shr(And(maskX, MASK_X), 19);
      assert sign * maskX == 524288 * (sign * step);
      U32Sum(Fields(coordX, coordY, offset), sign * maskX);
      coordX := coordX + sign * step;
      instB := U32(instB + sign * maskX);
    }

    method ShiftYBy(sign: int)
      requires (sign == 1 || sign == -1) && stepY <= 1023 && maskY == And(MASK_Y, Shl(stepY, 9))
      modifies `coordY, `instB
      ensures coordY == old(coordY) + sign * stepY
      ensures old(Following()) ==> Following()
    {
      hide And, Shl, Shr;
      StepMask(stepY);
      MaskTwice(stepY, stepY);
      var step := Shr(And(maskY, MASK_Y), 9);
      assert sign * maskY == 512 * (sign * step);
      U32Sum(Fields(coordX, coordY, offset), sign * maskY);
      coordY := coordY + sign * step;
      instB := U32(instB + sign * maskY);
    }

    method IncreaseCoordinate()
      requires Valid()
      modifies `coordX, `coordY, `instB
      ensures Valid()
      ensures (coordX, coordY) == Move(direction, old(coordX), old(coordY), stepX, stepY, true)
    {
      hide PositionWord, And, Shl, Shr, Following;
      if OnScreenX(coordX) {
        FollowedIsFresh(coordX, coordY, offset);
        assert Following() by { Unfold(); }
      }
      match direction {
        case 0 =>
          ShiftXBy(-1);
          if coordX < 1 {
            coordX := 640;
            Repack();
          }
        case 1 =>
          ShiftXBy(1);
          ShiftYBy(-1);
          if coordY < 0 {
            coordY := 480;
            Repack();
          } else if coordX > 640 {
            coordX := 0;
            Repack();
          }
        case 2 =>
          ShiftYBy(-1);
          if coordY < 0 {
            coordY := 480;
            Repack();
          }
        case 3 =>
          ShiftXBy(-1);
          ShiftYBy(-1);
          if coordY < 0 {
            coordY := 480;
            Repack();
          } else if coordX < 1 {
            coordX := 640;
            Repack();
          }
        case 4 =>
          ShiftXBy(1);
          if coordX > 640 {
            coordX := 0;
            Repack();
          }
        case 5 =>
          ShiftXBy(-1);
          ShiftYBy(1);
          if coordY > 480 {
            coordY := 0;
            Repack();
          } else if coordX < 1 {
            coordX := 640;
            Repack();
          }
        case 6 =>
          ShiftYBy(1);
          if coordY > 480 {
            coordY := 0;
            Repack();
          }
      }
      if OnScreenX(coordX) {
        FollowedIsFresh(coordX, coordY, offset);
      }
      Unfold();
    }

    /** Every word that any run sends is the freshly packed word of the mirrored motion. */
    method Animate(frames: nat) returns (sent: seq<nat>)
      requires Valid()
      modifies `coordX, `coordY, `instB
      ensures Valid() && |sent| == frames
      ensures forall i | 0 <= i < frames ::
                sent[i] == FrameWord(direction, old(coordX), old(coordY), stepX, stepY, i + 1, offset)
    {
      hide PositionWord, Move, And, Shl;
      sent := [];
      for i := 0 to frames
        invariant Valid() && |sent| == i
        invariant (coordX, coordY) == Frames(direction, old(coordX), old(coordY), stepX, stepY, true, i)
        invariant forall j | 0 <= j < i ::
                    sent[j] == FrameWord(direction, old(coordX), old(coordY), stepX, stepY, j + 1, offset)
      {
        IncreaseCoordinate();
        sent := sent + [instB];
      }
    }

    lemma Unfold()
      ensures Following() <==> instB == U32(Fields(coordX, coordY, offset))
    {
    }
  }

  lemma MaskTwice(sx: nat, sy: nat)
    ensures And(And(MASK_X, Shl(sx, 19)), MASK_X) == And(MASK_X, Shl(sx, 19))
    ensures And(And(MASK_Y, Shl(sy, 9)), MASK_Y) == And(MASK_Y, Shl(sy, 9))
  {
    AndAgain(MASK_X, Shl(sx, 19));
    AndAgain(MASK_Y, Shl(sy, 9));
  }

  lemma {:induction false} AndAgain(m: nat, n: nat)
    ensures And(And(m, n), m) == And(m, n)
  {
    if m != 0 && n != 0 {
      AndAgain(m / 2, n / 2);
    }
  }
}
