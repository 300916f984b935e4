/** What the commands of the mailbox do to the settings of the sequencer, bit by bit, and what a whole run of them leaves. */
module MailboxCommands {
  import opened Bits
  import opened Mailbox

  /** The commands answered as legal, by number, and the parameters they accept. */
  lemma LegalExactly(dev: Device, cmd: nat, param: nat)
    ensures Execute(dev, cmd, param).1 <==>
              || cmd in {0, 5, 6, 14, 17, 21, 22, 23, 24, 41, 42}
              || (cmd == 15 && param < 4) || (cmd == 18 && param < |dev.skipRanks|)
    ensures !Execute(dev, cmd, param).1 ==> Execute(dev, cmd, param).0 == dev
  {
  }

  lemma BitOfPower(p: nat, k: nat)
    ensures Bit(Shl(1, p), k) <==> k == p
  {
    BitOfShl(1, p, k);
    if k > p {
      BitOfZero(k - p - 1);
    }
  }

  lemma FlagBits(k: nat)
    ensures (Bit(0x4, k) <==> k == 2) && (Bit(0x8, k) <==> k == 3) && (Bit(0x10, k) <==> k == 4) && (Bit(0x20, k) <==> k == 5)
  {
    assert Shl(1, 2) == 0x4;
    assert Shl(1, 3) == 0x8;
    assert Shl(1, 4) == 2 * Shl(1, 3) == 0x10;
    assert Shl(1, 5) == 2 * Shl(1, 4) == 0x20;
    BitOfPower(2, k);
    BitOfPower(3, k);
    BitOfPower(4, k);
    BitOfPower(5, k);
  }

  /** Groups: 14 clears the mask, 15 sets the bit of a group that exists, nothing else touches it. */
  lemma EffectOnGroups(dev: Device, cmd: nat, param: nat, k: nat)
    ensures Bit(Execute(dev, cmd, param).0.skipGroups, k) <==>
              cmd != 14 && (Bit(dev.skipGroups, k) || (cmd == 15 && param < 4 && k == param))
  {
    BitOfZero(k);
    BitOfOr(dev.skipGroups, Shl(1, param), k);
    BitOfPower(param, k);
    hide Bit, Or, Shl, AndNot;
  }

  /** Ranks: 17 clears all, 18 marks a rank that exists, nothing else touches them. */
  lemma EffectOnRanks(dev: Device, cmd: nat, param: nat, k: nat)
    ensures var after := Execute(dev, cmd, param).0.skipRanks;
            && |after| == |dev.skipRanks|
            && (k < |after| ==> (after[k] <==> cmd != 17 && (dev.skipRanks[k] || (cmd == 18 && k == param))))
  {
    hide Bit, Or, Shl, AndNot;
  }

  /** Flags: 21, 22 and 23 set bits 2, 3 and 4 for good, 24 sets or clears bit 5 by its parameter, nothing else touches
      them. */
  lemma EffectOnFlags(dev: Device, cmd: nat, param: nat, k: nat)
    ensures Bit(Execute(dev, cmd, param).0.flags, k) <==>
              || (cmd == 21 && k == 2) || (cmd == 22 && k == 3) || (cmd == 23 && k == 4)
              || (cmd == 24 && k == 5 && param != 0)
              || (Bit(dev.flags, k) && !(cmd == 24 && k == 5))
  {
    FlagBits(k);
    BitOfOr(dev.flags, 0x4, k);
    BitOfOr(dev.flags, 0x8, k);
    BitOfOr(dev.flags, 0x10, k);
    BitOfOr(dev.flags, 0x20, k);
    BitOfAndNot(dev.flags, 0x20, k);
    hide Bit, Or, Shl, AndNot;
  }

  /** Calibrations: 5 and 42 run one, nothing else does. */
  lemma EffectOnCalibrations(dev: Device, cmd: nat, param: nat)
    ensures Execute(dev, cmd, param).0.calibrations == dev.calibrations + (if cmd == 5 || cmd == 42 then 1 else 0)
  {
  }

  /** A command (mark, p) is in the list, and no command clear comes after it. */
  ghost predicate MarkedSince(cmds: seq<Command>, mark: nat, p: nat, clear: nat) {
    exists i :: 0 <= i < |cmds| && cmds[i] == (mark, p) && Without(cmds, i + 1, clear)
  }

  ghost predicate Without(cmds: seq<Command>, from: int, cmd: nat) {
    forall j | 0 <= from <= j < |cmds| :: cmds[j].0 != cmd
  }

  lemma MarkedSinceAppend(cmds: seq<Command>, last: Command, mark: nat, p: nat, clear: nat)
    requires mark != clear
    ensures MarkedSince(cmds + [last], mark, p, clear) <==>
              last == (mark, p) || (last.0 != clear && MarkedSince(cmds, mark, p, clear))
    ensures Without(cmds + [last], 0, clear) <==> last.0 != clear && Without(cmds, 0, clear)
  {
    var more := cmds + [last];
    assert more[|cmds|] == last;
    if last == (mark, p) {
      assert Without(more, |cmds| + 1, clear);
    } else if last.0 != clear && MarkedSince(cmds, mark, p, clear) {
      var i :| 0 <= i < |cmds| && cmds[i] == (mark, p) && Without(cmds, i + 1, clear);
      assert more[i] == (mark, p) && Without(more, i + 1, clear);
    } else if MarkedSince(more, mark, p, clear) {
      var i :| 0 <= i < |more| && more[i] == (mark, p) && Without(more, i + 1, clear);
      assert cmds[i] == (mark, p);
      forall j | i + 1 <= j < |cmds| ensures cmds[j].0 != clear { assert more[j] == cmds[j]; }
      assert Without(cmds, i + 1, clear);
    }
    if Without(more, 0, clear) {
      forall j | 0 <= j < |cmds| ensures cmds[j].0 != clear { assert more[j] == cmds[j]; }
    }
  }

  /** After any commands, a group is skipped exactly when it was marked after the last time all were marked as valid, or
      was skipped at first and they never were. */
  lemma {:induction false} GroupsSkipped(dev: Device, cmds: seq<Command>, g: nat)
    ensures Bit(ExecuteAll(dev, cmds).skipGroups, g) <==>
              (g < 4 && MarkedSince(cmds, 15, g, 14)) || (Bit(dev.skipGroups, g) && Without(cmds, 0, 14))
  {
    hide Execute, Bit;
    if cmds != [] {
      var (front, last) := (cmds[..|cmds| - 1], cmds[|cmds| - 1]);
      GroupsSkipped(dev, front, g);
      EffectOnGroups(ExecuteAll(dev, front), last.0, last.1, g);
      MarkedSinceAppend(front, last, 15, g, 14);
      assert front + [last] == cmds;
    }
  }

  /** The same for ranks. */
  lemma {:induction false} RanksSkipped(dev: Device, cmds: seq<Command>, r: nat)
    requires r < |dev.skipRanks|
    ensures |ExecuteAll(dev, cmds).skipRanks| == |dev.skipRanks|
    ensures ExecuteAll(dev, cmds).skipRanks[r] <==>
              MarkedSince(cmds, 18, r, 17) || (dev.skipRanks[r] && Without(cmds, 0, 17))
  {
    hide Execute;
    if cmds != [] {
      var (front, last) := (cmds[..|cmds| - 1], cmds[|cmds| - 1]);
      RanksSkipped(dev, front, r);
      EffectOnRanks(ExecuteAll(dev, front), last.0, last.1, r);
      MarkedSinceAppend(front, last, 18, r, 17);
      assert front + [last] == cmds;
    }
  }

  /** The margin report, the sweep of all groups and the skipping of guaranteed reads stay on once switched on. */
  lemma {:induction false} FlagsSet(dev: Device, cmds: seq<Command>, k: nat)
    requires 2 <= k <= 4
    ensures Bit(ExecuteAll(dev, cmds).flags, k) <==> Bit(dev.flags, k) || !Without(cmds, 0, 19 + k)
  {
    hide Execute, Bit;
    if cmds != [] {
      var (front, last) := (cmds[..|cmds| - 1], cmds[|cmds| - 1]);
      FlagsSet(dev, front, k);
      EffectOnFlags(ExecuteAll(dev, front), last.0, last.1, k);
      MarkedSinceAppend(front, last, 0, 0, 19 + k);
      assert front + [last] == cmds;
    }
  }

  /** Non-destructive calibration is what the last command 24 said. */
  lemma {:induction false} NonDestructiveIsLast(dev: Device, cmds: seq<Command>, i: nat)
    requires i <= |cmds| && Without(cmds, i, 24) && (i > 0 ==> cmds[i - 1].0 == 24)
    ensures Bit(ExecuteAll(dev, cmds).flags, 5) <==> if i == 0 then Bit(dev.flags, 5) else cmds[i - 1].1 != 0
  {
    hide Execute, Bit;
    if cmds != [] {
      var (front, last) := (cmds[..|cmds| - 1], cmds[|cmds| - 1]);
      EffectOnFlags(ExecuteAll(dev, front), last.0, last.1, 5);
      if i < |cmds| {
        NonDestructiveIsLast(dev, front, i);
      }
    }
  }

  function Calibrations(cmds: seq<Command>): nat {
    if cmds == [] then 0
    else Calibrations(cmds[..|cmds| - 1]) + (if cmds[|cmds| - 1].0 in {5, 42} then 1 else 0)
  }

  lemma {:induction false} CalibrationsRun(dev: Device, cmds: seq<Command>)
    ensures ExecuteAll(dev, cmds).calibrations == dev.calibrations + Calibrations(cmds)
  {
    hide Execute;
    if cmds != [] {
      var (front, last) := (cmds[..|cmds| - 1], cmds[|cmds| - 1]);
      CalibrationsRun(dev, front);
      EffectOnCalibrations(ExecuteAll(dev, front), last.0, last.1);
    }
  }

  /** In every interleaving, from an empty mask: a group is skipped exactly when it was marked after the last time all were
      marked as valid, and calibration has run once for each command that asked for it and was executed. */
  lemma RunsLeave(dev: Device, run: seq<Move>, g: nat)
    requires HostBehaves(run) && dev.skipGroups == 0
    ensures var s := After(Start(dev), run);
            && s.executed <= s.posted
            && (Bit(s.dev.skipGroups, g) <==> g < 4 && MarkedSince(s.executed, 15, g, 14))
            && s.dev.calibrations == dev.calibrations + Calibrations(s.executed)
  {
    hide Execute, ExecuteAll, Answer, After, MarkedSince, Bit;
    var s := After(Start(dev), run);
    ExactlyOnce(dev, run);
    BitOfZero(g);
    GroupsSkipped(dev, s.executed, g);
    CalibrationsRun(dev, s.executed);
  }
}
