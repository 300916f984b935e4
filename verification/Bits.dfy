/** Unsigned machine words as natural numbers. The bit operations of the C code are
    defined digit by digit, and each is proved against its effect on single bits. */
module Bits {

  /** Bit k of n. */
  predicate Bit(n: nat, k: nat) {
    if k == 0 then n % 2 == 1 else Bit(n / 2, k - 1)
  }

  function Pow2(k: nat): (p: nat)
    ensures p >= 1
  {
    if k == 0 then 1 else 2 * Pow2(k - 1)
  }

  /** The word with the w low bits set. */
  function Mask(w: nat): nat {
    if w == 0 then 0 else 2 * Mask(w - 1) + 1
  }

  function Or(a: nat, b: nat): nat {
    if a == 0 then b
    else if b == 0 then a
    else 2 * Or(a / 2, b / 2) + (if a % 2 == 1 || b % 2 == 1 then 1 else 0)
  }

  function And(a: nat, b: nat): nat {
    if a == 0 || b == 0 then 0
    else 2 * And(a / 2, b / 2) + (if a % 2 == 1 && b % 2 == 1 then 1 else 0)
  }

  /** a & ~b */
  function AndNot(a: nat, b: nat): nat {
    if a == 0 then 0
    else 2 * AndNot(a / 2, b / 2) + (if a % 2 == 1 && b % 2 == 0 then 1 else 0)
  }

  function Shl(n: nat, k: nat): nat {
    if k == 0 then n else 2 * Shl(n, k - 1)
  }

  function Shr(n: nat, k: nat): nat {
    if k == 0 then n else Shr(n / 2, k - 1)
  }

  /** The word whose bit k is s[k]. */
  function Pack(s: seq<bool>): nat {
    if s == [] then 0 else 2 * Pack(s[1..]) + (if s[0] then 1 else 0)
  }

  lemma {:induction false} BitOfPack(s: seq<bool>, k: nat)
    ensures Bit(Pack(s), k) <==> k < |s| && s[k]
  {
    if s == [] {
      BitOfZero(k);
    } else if k > 0 {
      BitOfPack(s[1..], k - 1);
    }
  }

  lemma {:induction false} PackBound(s: seq<bool>)
    ensures Pack(s) <= Mask(|s|)
  {
    if s != [] {
      PackBound(s[1..]);
    }
  }

  lemma {:induction false} BitOfZero(k: nat)
    ensures !Bit(0, k)
  {
    if k > 0 {
      BitOfZero(k - 1);
    }
  }

  lemma {:induction false} BitOfMask(w: nat, k: nat)
    ensures Bit(Mask(w), k) <==> k < w
  {
    if w == 0 {
      BitOfZero(k);
    } else if k > 0 {
      BitOfMask(w - 1, k - 1);
    }
  }

  lemma {:induction false} BitOfOr(a: nat, b: nat, k: nat)
    ensures Bit(Or(a, b), k) <==> Bit(a, k) || Bit(b, k)
  {
    if a == 0 || b == 0 {
      BitOfZero(k);
    } else if k > 0 {
      BitOfOr(a / 2, b / 2, k - 1);
    }
  }

  lemma {:induction false} BitOfAnd(a: nat, b: nat, k: nat)
    ensures Bit(And(a, b), k) <==> Bit(a, k) && Bit(b, k)
  {
    if a == 0 || b == 0 {
      BitOfZero(k);
    } else if k > 0 {
      BitOfAnd(a / 2, b / 2, k - 1);
    }
  }

  lemma {:induction false} BitOfAndNot(a: nat, b: nat, k: nat)
    ensures Bit(AndNot(a, b), k) <==> Bit(a, k) && !Bit(b, k)
  {
    if a == 0 {
      BitOfZero(k);
    } else if k > 0 {
      BitOfAndNot(a / 2, b / 2, k - 1);
    }
  }

  lemma {:induction false} BitOfShl(n: nat, s: nat, k: nat)
    ensures Bit(Shl(n, s), k) <==> k >= s && Bit(n, k - s)
  {
    if s > 0 && k > 0 {
      BitOfShl(n, s - 1, k - 1);
    }
  }

  lemma {:induction false} BitOfShr(n: nat, s: nat, k: nat)
    ensures Bit(Shr(n, s), k) <==> Bit(n, k + s)
  {
    if s > 0 {
      BitOfShr(n / 2, s - 1, k);
    }
  }

  /** One more shift by a single place. */
  lemma {:induction false} ShrStep(n: nat, s: nat)
    ensures Shr(n, s + 1) == Shr(n, s) / 2
  {
    if s > 0 {
      ShrStep(n / 2, s - 1);
    }
  }

  /** Or stays within w bits. */
  lemma {:induction false} OrBound(a: nat, b: nat, w: nat)
    requires a <= Mask(w) && b <= Mask(w)
    ensures Or(a, b) <= Mask(w)
  {
    if a != 0 && b != 0 {
      OrBound(a / 2, b / 2, w - 1);
    }
  }

  lemma {:induction false} AndNotBound(a: nat, b: nat)
    ensures AndNot(a, b) <= a
  {
    if a != 0 {
      AndNotBound(a / 2, b / 2);
    }
  }

  lemma {:induction false} AndBound(a: nat, b: nat)
    ensures And(a, b) <= a
  {
    if a != 0 && b != 0 {
      AndBound(a / 2, b / 2);
    }
  }

  lemma {:induction false} ShlBound(n: nat, s: nat, w: nat)
    requires n <= Mask(w)
    ensures Shl(n, s) <= Mask(w + s)
  {
    if s > 0 {
      ShlBound(n, s - 1, w);
    }
  }

  /** A word of w bits equals the full mask exactly when every bit is set. */
  lemma {:induction false} FullMask(n: nat, w: nat)
    requires n <= Mask(w)
    ensures n == Mask(w) <==> forall k: nat | k < w :: Bit(n, k)
  {
    if n == Mask(w) {
      forall k: nat | k < w ensures Bit(n, k) { BitOfMask(w, k); }
    } else if n % 2 == 0 {
      assert exists k: nat :: k < w && !Bit(n, k) by { var z: nat := 0; assert !Bit(n, z); }
    } else {
      FullMask(n / 2, w - 1);
      var k: nat :| k < w - 1 && !Bit(n / 2, k);
      assert exists j: nat :: j < w && !Bit(n, j) by { var j: nat := k + 1; assert !Bit(n, j); }
    }
  }

  /** A word is zero exactly when no bit is set. */
  lemma {:induction false} ZeroWord(n: nat, w: nat)
    requires n <= Mask(w)
    ensures n == 0 <==> forall k: nat | k < w :: !Bit(n, k)
  {
    if n == 0 {
      forall k: nat | k < w ensures !Bit(n, k) { BitOfZero(k); }
    } else if n % 2 == 1 {
      assert exists k: nat :: k < w && Bit(n, k) by { var z: nat := 0; assert Bit(n, z); }
    } else {
      ZeroWord(n / 2, w - 1);
      var k: nat :| k < w - 1 && Bit(n / 2, k);
      assert exists j: nat :: j < w && Bit(n, j) by { var j: nat := k + 1; assert Bit(n, j); }
    }
  }

  /** Two words of w bits that agree on every bit are equal. */
  lemma {:induction false} SameBits(a: nat, b: nat, w: nat)
    requires a <= Mask(w) && b <= Mask(w)
    requires forall k: nat | k < w :: Bit(a, k) == Bit(b, k)
    ensures a == b
  {
    if w > 0 {
      assert Bit(a, 0) == Bit(b, 0);
      forall k: nat | k < w - 1 ensures Bit(a / 2, k) == Bit(b / 2, k) {
        assert Bit(a, k + 1) == Bit(b, k + 1);
      }
      SameBits(a / 2, b / 2, w - 1);
    }
  }

  /** OR of a word shifted past the bits of another is their sum. */
  lemma {:induction false} OrDisjoint(a: nat, b: nat, k: nat)
    requires b < Pow2(k)
    ensures Or(Shl(a, k), b) == Shl(a, k) + b
  {
    if k > 0 && a != 0 && b != 0 {
      assert Shl(a, k) / 2 == Shl(a, k - 1) && Shl(a, k) % 2 == 0;
      ShlPositive(a, k - 1);
      OrDisjoint(a, b / 2, k - 1);
    } else if a == 0 {
      ShlZero(k);
    }
  }

  lemma {:induction false} ShlZero(k: nat)
    ensures Shl(0, k) == 0
  {
    if k > 0 {
      ShlZero(k - 1);
    }
  }

  lemma {:induction false} ShlPositive(a: nat, k: nat)
    requires a > 0
    ensures Shl(a, k) > 0
  {
    if k > 0 {
      ShlPositive(a, k - 1);
    }
  }

  /** Masking with k ones keeps a word of k bits. */
  lemma {:induction false} AndMask(n: nat, k: nat)
    requires n <= Mask(k)
    ensures And(Mask(k), n) == n
  {
    if k > 0 && n != 0 {
      AndMask(n / 2, k - 1);
    }
  }

  /** AND of two words shifted alike is the shifted AND. */
  lemma {:induction false} AndShl(a: nat, b: nat, k: nat)
    ensures And(Shl(a, k), Shl(b, k)) == Shl(And(a, b), k)
  {
    if k > 0 {
      if a == 0 || b == 0 {
        ShlZero(k);
      } else {
        ShlPositive(a, k - 1);
        ShlPositive(b, k - 1);
        AndShl(a, b, k - 1);
      }
    }
  }
}
