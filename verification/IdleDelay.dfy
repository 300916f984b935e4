/** Waiting a number of memory clocks: the counters loaded for the two-instruction idle program of the read-write manager,
    which tests a counter before it decrements it, jumps while it is not zero, and reloads it when it falls through. */
module IdleDelay {

  /** Executions of IDLE_LOOP2 from here on, when both jump targets are IDLE_LOOP2. */
  function NestedIdles(inner: nat, c0: nat, c1: nat): nat
    decreases c1, c0
  {
    1 + if c0 != 0 then NestedIdles(inner, c0 - 1, c1)
        else if c1 != 0 then NestedIdles(inner, inner, c1 - 1)
        else 0
  }

  lemma {:induction false} NestedIdlesAre(inner: nat, c0: nat, c1: nat)
    ensures NestedIdles(inner, c0, c1) == c0 + 1 + c1 * (inner + 1)
    decreases c1, c0
  {
    if c0 != 0 {
      NestedIdlesAre(inner, c0 - 1, c1);
    } else if c1 != 0 {
      NestedIdlesAre(inner, inner, c1 - 1);
    }
  }

  /** Executions of IDLE_LOOP1 when it jumps to itself. */
  function SingleIdles(c1: nat): nat {
    1 + if c1 != 0 then SingleIdles(c1 - 1) else 0
  }

  lemma {:induction false} SingleIdlesAre(c1: nat)
    ensures SingleIdles(c1) == c1 + 1
  {
    if c1 != 0 {
      SingleIdlesAre(c1 - 1);
    }
  }

  /** r is n rounded up to a multiple of unit. */
  predicate RoundedUp(n: int, unit: int, r: int)
    requires unit > 0
  {
    r % unit == 0 && n <= r < n + unit
  }

  /** The counters for a request, as 8- and 16-bit values; nothing is cut off. */
  method Counters(clocks: nat) returns (inner: nat, outer: nat, cLoop: nat)
    requires clocks < 0x1_0000_0000
    ensures clocks <= 0x100 ==> inner == (if clocks == 0 then 0 else clocks - 1) && outer == cLoop == 0
    ensures 0x100 < clocks <= 0x10000 ==> inner == 255 && cLoop == 0 && RoundedUp(clocks, 256, 256 * (outer + 1))
    ensures 0x10000 < clocks ==> inner == outer == 255 && RoundedUp(clocks, 65536, 65536 * (cLoop + 1))
    ensures inner < 0x100 && outer < 0x100 && cLoop < 0x10000
  {
    var (low, high) := ((clocks - 1) / 0x100, (clocks - 1) / 0x10000);
    assert 0x100 * low <= clocks - 1 < 0x100 * (low + 1) && 0x10000 * high <= clocks - 1 < 0x10000 * (high + 1);
    if clocks == 0 {
      inner, outer, cLoop := 0, 0, 0;
    } else if clocks <= 0x100 {
      inner, outer, cLoop := (clocks - 1) % 0x100, 0, 0;
    } else if clocks <= 0x10000 {
      inner, outer, cLoop := 0xff, (clocks - 1) / 0x100 % 0x100, 0;
    } else {
      inner, outer, cLoop := 0xff, 0xff, (clocks - 1) / 0x10000 % 0x10000;
    }
  }

  /** Wait at least the clocks asked for, and count the idle instructions executed: exactly the request up to 256 clocks,
      and the request rounded up to 256 or to 65536 above. A request of zero still executes one. */
  method DelayForMemClocks(clocks: nat) returns (idles: nat)
    requires clocks < 0x1_0000_0000
    ensures idles >= clocks
    ensures clocks == 0 ==> idles == 1
    ensures 0 < clocks <= 0x100 ==> idles == clocks
    ensures 0x100 < clocks <= 0x10000 ==> RoundedUp(clocks, 256, idles)
    ensures 0x10000 < clocks ==> RoundedUp(clocks, 65536, idles)
  {
    var inner, outer, cLoop := Counters(clocks);
    if clocks <= 0x100 {
      idles := SingleIdles(inner);
      SingleIdlesAre(inner);
    } else {
      NestedIdlesAre(inner, inner, outer);
      hide NestedIdles;
      idles := NestedIdles(inner, inner, outer);
      assert idles == 256 * (outer + 1);
      if clocks > 0x10000 {
        var left := cLoop;
        while left != 0
          invariant 0 <= left <= cLoop && idles == 65536 * (cLoop - left + 1)
          decreases left
        {
          left := left - 1;
          idles := idles + NestedIdles(inner, inner, outer);
        }
      }
    }
  }
}
