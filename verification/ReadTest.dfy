/** The read test: how the error words of ranks and virtual groups become one pass bit per DQ lane. */
module ReadTest {
  import opened Bits

  /** g groups of w lanes. */
  function Lanes(g: nat, w: nat): nat {
    if g == 0 then 0 else Lanes(g - 1, w) + w
  }

  /** The bit of lane j of virtual group g. */
  predicate LaneBit(word: nat, w: nat, g: nat, j: nat) {
    Bit(word, Lanes(g, w) + j)
  }

  /** Lane j of virtual group g passes: no rank that takes part reports an error on it. */
  ghost predicate LanePasses(skip: seq<bool>, errors: (int, int) -> nat, lo: nat, hi: nat, g: nat, j: nat)
    requires hi <= |skip|
  {
    forall r | lo <= r < hi && !skip[r] :: !Bit(errors(r, g), j)
  }

  /** The word of one rank: its virtual groups, the last one first, each shifted in below the others. */
  method RankWord(groups: nat, w: nat, errors: int -> nat) returns (word: nat)
    requires groups > 0
    ensures word <= Mask(Lanes(groups, w))
    ensures forall g: nat, j: nat | g < groups && j < w :: LaneBit(word, w, g, j) <==> !Bit(errors(g), j)
  {
    word := 0;
    var vg := groups;
    while vg > 0
      invariant 0 <= vg <= groups
      invariant word <= Mask(Lanes(groups - vg, w))
      invariant forall g: nat, j: nat | vg <= g < groups && j < w :: LaneBit(word, w, g - vg, j) <==> !Bit(errors(g), j)
    {
      vg := vg - 1;
      ghost var before := word;
      var lanes := AndNot(Mask(w), errors(vg));
      word := Or(Shl(word, w), lanes);
      ShlBound(before, w, Lanes(groups - vg - 1, w));
      AndNotBound(Mask(w), errors(vg));
      MaskGrows(w, Lanes(groups - vg, w));
      OrBound(Shl(before, w), lanes, Lanes(groups - vg, w));
      forall g: nat, j: nat | vg <= g < groups && j < w
        ensures LaneBit(word, w, g - vg, j) <==> !Bit(errors(g), j)
      {
        var k := Lanes(g - vg, w) + j;
        BitOfOr(Shl(before, w), lanes, k);
        BitOfShl(before, w, k);
        BitOfAndNot(Mask(w), errors(vg), k);
        BitOfMask(w, k);
        if g > vg {
          assert k == Lanes(g - (vg + 1), w) + j + w;
          assert LaneBit(before, w, g - (vg + 1), j) <==> !Bit(errors(g), j);
        }
      }
    }
  }

  lemma {:induction false} MaskGrows(a: nat, b: nat)
    requires a <= b
    ensures Mask(a) <= Mask(b)
  {
    if a > 0 {
      MaskGrows(a - 1, b - 1);
    }
  }

  /** Bit j of virtual group g of the result is set exactly when every rank that takes part passes that lane. The verdict
      asks for all lanes or for any lane. */
  method Test(skip: seq<bool>, lo: nat, hi: nat, groups: nat, w: nat, errors: (int, int) -> nat, allCorrect: bool)
    returns (ok: bool, bitChk: nat)
    requires lo <= hi <= |skip| && groups > 0
    ensures bitChk <= Mask(Lanes(groups, w))
    ensures forall g: nat, j: nat | g < groups && j < w ::
              LaneBit(bitChk, w, g, j) <==> LanePasses(skip, errors, lo, hi, g, j)
    ensures allCorrect ==> (ok <==> forall g: nat, j: nat | g < groups && j < w :: LanePasses(skip, errors, lo, hi, g, j))
    ensures !allCorrect ==> (ok <==> exists g: nat, j: nat :: g < groups && j < w && LanePasses(skip, errors, lo, hi, g, j))
  {
    bitChk := Mask(Lanes(groups, w));
    forall g: nat, j: nat | g < groups && j < w ensures LaneBit(bitChk, w, g, j) {
      LaneInRange(g, groups, w, j);
      BitOfMask(Lanes(groups, w), Lanes(g, w) + j);
    }
    for r := lo to hi
      invariant bitChk <= Mask(Lanes(groups, w))
      invariant forall g: nat, j: nat | g < groups && j < w ::
                  LaneBit(bitChk, w, g, j) <==> LanePasses(skip, errors, lo, r, g, j)
    {
      ghost var before := bitChk;
      if !skip[r] {
        var word := RankWord(groups, w, g => errors(r, g));
        bitChk := And(bitChk, word);
        AndBound(before, word);
        forall g: nat, j: nat | g < groups && j < w
          ensures LaneBit(bitChk, w, g, j) <==> LaneBit(before, w, g, j) && !Bit(errors(r, g), j)
        {
          BitOfAnd(before, word, Lanes(g, w) + j);
          assert LaneBit(word, w, g, j) <==> !Bit(errors(r, g), j);
        }
      }
      forall g: nat, j: nat | g < groups && j < w
        ensures LanePasses(skip, errors, lo, r + 1, g, j) <==>
                  LanePasses(skip, errors, lo, r, g, j) && (skip[r] || !Bit(errors(r, g), j))
      {
      }
    }
    ok := if allCorrect then bitChk == Mask(Lanes(groups, w)) else bitChk != 0;
    AllLanes(bitChk, groups, w);
    AnyLane(bitChk, groups, w);
  }

  /** All ranks, up to tries times; no tries count as one. verdict(i) is the verdict of try i. The answer is yes exactly
      when every try passes, and the first that does not is the last made. */
  method TestAllRanks(tries: int, verdict: int -> bool) returns (ok: bool, made: nat)
    ensures var n := if tries <= 0 then 1 else tries;
            && 1 <= made <= n
            && (ok <==> forall i | 0 <= i < n :: verdict(i))
            && (forall i | 0 <= i < made - 1 :: verdict(i))
            && if ok then made == n else !verdict(made - 1)
  {
    var n := if tries <= 0 then 1 else tries;
    ok := true;
    made := 0;
    while made < n
      invariant 0 <= made <= n && ok
      invariant forall i | 0 <= i < made :: verdict(i)
    {
      ok := ok && verdict(made);
      made := made + 1;
      if !ok {
        return;
      }
    }
  }

  lemma {:induction false} LaneInRange(g: nat, groups: nat, w: nat, j: nat)
    requires g < groups && j < w
    ensures Lanes(g, w) + j < Lanes(groups, w)
  {
    if g < groups - 1 {
      LaneInRange(g, groups - 1, w, j);
    }
  }

  /** Bit k of a result is lane k mod w of virtual group k div w. */
  lemma LaneIsDivMod(word: nat, w: nat, k: nat)
    requires w > 0
    ensures LaneBit(word, w, k / w, k % w) == Bit(word, k)
  {
    hide Bit, Lanes;
    LanesAre(k / w, w);
    DivMod(k, w);
  }

  lemma DivMod(k: nat, w: nat)
    requires w > 0
    ensures k / w * w + k % w == k
  {
  }

  lemma {:induction false} LanesAre(g: nat, w: nat)
    ensures Lanes(g, w) == g * w
  {
    if g > 0 {
      LanesAre(g - 1, w);
    }
  }

  /** Every bit of the result belongs to a lane. */
  lemma {:induction false} LaneOfBit(word: nat, k: nat, groups: nat, w: nat) returns (g: nat, j: nat)
    requires k < Lanes(groups, w)
    ensures g < groups && j < w && LaneBit(word, w, g, j) == Bit(word, k)
  {
    if k >= Lanes(groups - 1, w) {
      g, j := groups - 1, k - Lanes(groups - 1, w);
    } else {
      g, j := LaneOfBit(word, k, groups - 1, w);
    }
  }

  /** A full word means all lanes. */
  lemma AllLanes(word: nat, groups: nat, w: nat)
    requires word <= Mask(Lanes(groups, w))
    ensures word == Mask(Lanes(groups, w)) <==> forall g: nat, j: nat | g < groups && j < w :: LaneBit(word, w, g, j)
  {
    var n := Lanes(groups, w);
    FullMask(word, n);
    if word == Mask(n) {
      forall g: nat, j: nat | g < groups && j < w ensures LaneBit(word, w, g, j) {
        LaneInRange(g, groups, w, j);
        BitOfMask(n, Lanes(g, w) + j);
      }
    } else {
      var k: nat :| k < n && !Bit(word, k);
      var g, j := LaneOfBit(word, k, groups, w);
    }
  }

  /** A non-zero word means some lane. */
  lemma AnyLane(word: nat, groups: nat, w: nat)
    requires word <= Mask(Lanes(groups, w))
    ensures word != 0 <==> exists g: nat, j: nat :: g < groups && j < w && LaneBit(word, w, g, j)
  {
    var n := Lanes(groups, w);
    ZeroWord(word, n);
    if word == 0 {
      forall g: nat, j: nat | g < groups && j < w ensures !LaneBit(word, w, g, j) {
        BitOfZero(Lanes(g, w) + j);
      }
    } else {
      var k: nat :| k < n && Bit(word, k);
      var g, j := LaneOfBit(word, k, groups, w);
    }
  }
}
