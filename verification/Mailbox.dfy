/** The debug mailbox: a host and the calibration sequencer share a command word, a parameter word and a status word.
    Both sides are state machines that touch one word a step, and every interleaving is a run. */
module Mailbox {
  import opened Bits

  const WAIT_CMD: nat := 1000
  const NOP: nat := 0
  const RESPONSE_ACK: nat := 1
  const RUN_MEM_CALIBRATE: nat := 5
  const RUN_EYE_DIAGRAM_PATTERN: nat := 6
  const MARK_ALL_DQS_GROUPS_AS_VALID: nat := 14
  const MARK_GROUP_AS_SKIP: nat := 15
  const MARK_ALL_RANKS_AS_VALID: nat := 17
  const MARK_RANK_AS_SKIP: nat := 18
  const ENABLE_MARGIN_REPORT: nat := 21
  const ENABLE_SWEEP_ALL_GROUPS: nat := 22
  const DISABLE_GUARANTEED_READ: nat := 23
  const SET_NON_DESTRUCTIVE_CALIBRATION: nat := 24
  const SET_UPDATE_PARAMETERS: nat := 41
  const RUN_NON_DES_MEM_CALIBRATE: nat := 42

  const WRITE_GROUPS: nat := 4

  datatype Status = CmdReady | IllegalCmd | ResponseReady

  /** The sequencer's settings that commands change, and how often calibration ran. */
  datatype Device = Device(skipGroups: nat, skipRanks: seq<bool>, flags: nat, calibrations: nat)

  /** One command: its effect, and whether the response is ready or the command was illegal. */
  function Execute(dev: Device, cmd: nat, param: nat): (Device, bool) {
    if cmd == SET_UPDATE_PARAMETERS || cmd == NOP || cmd == RUN_EYE_DIAGRAM_PATTERN then (dev, true)
    else if cmd == RUN_MEM_CALIBRATE || cmd == RUN_NON_DES_MEM_CALIBRATE then
      (dev.(calibrations := dev.calibrations + 1), true)
    else if cmd == MARK_ALL_DQS_GROUPS_AS_VALID then (dev.(skipGroups := 0), true)
    else if cmd == MARK_GROUP_AS_SKIP then
      if param < WRITE_GROUPS then (dev.(skipGroups := Or(dev.skipGroups, Shl(1, param))), true) else (dev, false)
    else if cmd == MARK_ALL_RANKS_AS_VALID then (dev.(skipRanks := seq(|dev.skipRanks|, i => false)), true)
    else if cmd == MARK_RANK_AS_SKIP then
      if param < |dev.skipRanks| then (dev.(skipRanks := dev.skipRanks[param := true]), true) else (dev, false)
    else if cmd == ENABLE_MARGIN_REPORT then (dev.(flags := Or(dev.flags, 0x4)), true)
    else if cmd == ENABLE_SWEEP_ALL_GROUPS then (dev.(flags := Or(dev.flags, 0x8)), true)
    else if cmd == DISABLE_GUARANTEED_READ then (dev.(flags := Or(dev.flags, 0x10)), true)
    else if cmd == SET_NON_DESTRUCTIVE_CALIBRATION then
      (dev.(flags := if param != 0 then Or(dev.flags, 0x20) else AndNot(dev.flags, 0x20)), true)
    else (dev, false)
  }

  type Command = (nat, nat)

  /** The device after a list of commands, each executed once and in order. */
  function ExecuteAll(dev: Device, cmds: seq<Command>): Device {
    if cmds == [] then dev
    else
      var last := cmds[|cmds| - 1];
      Execute(ExecuteAll(dev, cmds[..|cmds| - 1]), last.0, last.1).0
  }

  /** Whether the k-th command was answered as legal, at the device the commands before it produced. */
  function Answer(dev: Device, cmds: seq<Command>, k: nat): bool
    requires k < |cmds|
  {
    Execute(ExecuteAll(dev, cmds[..k]), cmds[k].0, cmds[k].1).1
  }

  datatype SequencerPc = Poll | Look(busy: bool) | Run(cmd: nat) | Respond(legal: bool) | MarkWait | MarkReady | Halted

  datatype HostPc = Idle | WriteParam(cmd: nat, param: nat) | WriteCommand(cmd: nat, param: nat) | Awaiting | Acking

  /** The shared words, both programs, and what has happened: commands posted and executed, and replies read. */
  datatype State = State(
    status: Status, requested: nat, param: nat,
    pc: SequencerPc, stop: bool, dev: Device,
    host: HostPc,
    posted: seq<Command>, executed: seq<Command>, replies: seq<bool>)

  /** Just after the sequencer first marked the interface as ready. */
  function Start(dev: Device): State {
    State(CmdReady, WAIT_CMD, 0, Poll, false, dev, Idle, [], [], [])
  }

  /** One step of the polling loop, which reads the status word and then the command word. Marking the interface
      ready writes the command word first. */
  function SequencerStep(s: State): State {
    match s.pc
    case Poll =>
      s.(pc := if s.stop then Halted else Look(s.status != CmdReady))
    case Look(busy) =>
      if busy then s.(pc := if s.requested == RESPONSE_ACK then MarkWait else Poll)
      else s.(pc := if s.requested == WAIT_CMD then Poll else Run(s.requested))
    case Run(cmd) =>
      var (dev, legal) := Execute(s.dev, cmd, s.param);
      s.(dev := dev, pc := Respond(legal), executed := s.executed + [(cmd, s.param)],
         stop := cmd == SET_UPDATE_PARAMETERS)
    case Respond(legal) => s.(status := if legal then ResponseReady else IllegalCmd, pc := Poll)
    case MarkWait => s.(requested := WAIT_CMD, pc := MarkReady)
    case MarkReady => s.(status := CmdReady, pc := Poll)
    case Halted => s
  }

  /** A host may post any command word but the two the protocol itself uses. */
  predicate Postable(cmd: nat) { cmd != WAIT_CMD && cmd != RESPONSE_ACK }

  /** One step of a host that posts only when it sees CmdReady and acknowledges each response once. */
  function HostStep(s: State, cmd: nat, param: nat): State {
    match s.host
    case Idle => if s.status == CmdReady then s.(host := WriteParam(cmd, param)) else s
    case WriteParam(c, p) => s.(param := p, host := WriteCommand(c, p))
    case WriteCommand(c, p) => s.(requested := c, host := Awaiting, posted := s.posted + [(c, p)])
    case Awaiting =>
      if s.status == CmdReady then s
      else s.(replies := s.replies + [s.status == ResponseReady], host := Acking)
    case Acking => s.(requested := RESPONSE_ACK, host := Idle)
  }

  datatype Move = Sequencer | Host(cmd: nat, param: nat)

  function Step(s: State, mv: Move): State {
    match mv
    case Sequencer => SequencerStep(s)
    case Host(cmd, param) => HostStep(s, cmd, param)
  }

  /** The state after a run, any interleaving of the two sides. */
  function After(s: State, run: seq<Move>): State {
    if run == [] then s else Step(After(s, run[..|run| - 1]), run[|run| - 1])
  }

  predicate HostBehaves(run: seq<Move>) {
    forall i | 0 <= i < |run| && run[i].Host? :: Postable(run[i].cmd)
  }

  /** Between two commands. What the loop has read of the status word still holds. */
  predicate Polling(s: State) {
    s.pc.Poll? || (s.pc == Look(s.status != CmdReady) && !s.stop)
  }

  /** Everything posted has been executed. */
  predicate Drained(s: State) { s.executed == s.posted }

  ghost predicate AnswersAre(dev: Device, s: State) {
    |s.replies| <= |s.executed| && forall k | 0 <= k < |s.replies| :: s.replies[k] == Answer(dev, s.executed, k)
  }

  predicate Answered(dev: Device, s: State) {
    && Drained(s) && s.posted != []
    && s.status == (if Answer(dev, s.posted, |s.posted| - 1) then ResponseReady else IllegalCmd)
    && (Polling(s) || s.pc.Halted?)
  }

  predicate Ready(s: State) {
    s.status == CmdReady && s.requested == WAIT_CMD && Polling(s) && !s.stop && Drained(s)
  }

  /** The protocol invariant, by the host's position. */
  ghost predicate Inv(dev: Device, s: State) {
    && s.dev == ExecuteAll(dev, s.executed)
    && AnswersAre(dev, s)
    && match s.host
       case Idle =>
         && Drained(s) && |s.replies| == |s.posted|
         && (|| Ready(s)
             || (s.status != CmdReady && s.requested == RESPONSE_ACK
                 && (Polling(s) || s.pc.Halted? || (s.pc.MarkWait? && !s.stop)))
             || (s.status != CmdReady && s.requested == WAIT_CMD && s.pc.MarkReady? && !s.stop))
       case WriteParam(c, p) => Ready(s) && Postable(c) && |s.replies| == |s.posted|
       case WriteCommand(c, p) => Ready(s) && Postable(c) && |s.replies| == |s.posted| && s.param == p
       case Awaiting =>
         && s.posted != [] && |s.replies| == |s.posted| - 1
         && var last := s.posted[|s.posted| - 1];
            && Postable(last.0) && s.requested == last.0 && s.param == last.1
            && (|| (s.posted == s.executed + [last] && s.status == CmdReady && !s.stop
                    && (Polling(s) || s.pc == Run(last.0)))
                || (Drained(s) && s.status == CmdReady && s.pc == Respond(Answer(dev, s.posted, |s.posted| - 1)))
                || Answered(dev, s))
       case Acking => Answered(dev, s) && |s.replies| == |s.posted| && Postable(s.requested)
  }

  /** Executing the waiting command is the one step that adds to what was executed. */
  lemma RunKeepsInv(dev: Device, s: State)
    requires Inv(dev, s) && s.pc.Run?
    ensures Inv(dev, SequencerStep(s))
  {
    hide Execute;
    var t := SequencerStep(s);
    var n := |s.executed|;
    assert t.executed == s.posted && t.executed[..n] == s.executed;
    forall k | 0 <= k < |t.replies| ensures t.replies[k] == Answer(dev, t.executed, k) {
      assert t.executed[..k] == s.executed[..k];
    }
  }

  lemma RespondKeepsInv(dev: Device, s: State)
    requires Inv(dev, s) && s.pc.Respond?
    ensures Inv(dev, SequencerStep(s))
  {
    hide Execute, ExecuteAll, Answer;
  }

  lemma PollKeepsInv(dev: Device, s: State)
    requires Inv(dev, s) && s.pc.Poll?
    ensures Inv(dev, SequencerStep(s))
  {
    hide Execute, ExecuteAll, Answer;
  }

  lemma LookKeepsInv(dev: Device, s: State)
    requires Inv(dev, s) && s.pc.Look?
    ensures Inv(dev, SequencerStep(s))
  {
    hide Execute, ExecuteAll, Answer;
  }

  lemma MarkKeepsInv(dev: Device, s: State)
    requires Inv(dev, s) && (s.pc.MarkWait? || s.pc.MarkReady?)
    ensures Inv(dev, SequencerStep(s))
  {
    hide Execute, ExecuteAll, Answer;
  }

  lemma SequencerKeepsInv(dev: Device, s: State)
    requires Inv(dev, s)
    ensures Inv(dev, SequencerStep(s))
  {
    match s.pc {
      case Poll => PollKeepsInv(dev, s);
      case Look(_) => LookKeepsInv(dev, s);
      case Run(_) => RunKeepsInv(dev, s);
      case Respond(_) => RespondKeepsInv(dev, s);
      case MarkWait => MarkKeepsInv(dev, s);
      case MarkReady => MarkKeepsInv(dev, s);
      case Halted =>
    }
  }

  lemma HostKeepsInv(dev: Device, s: State, cmd: nat, param: nat)
    requires Inv(dev, s) && Postable(cmd)
    ensures Inv(dev, HostStep(s, cmd, param))
  {
    hide Execute;
    var t := HostStep(s, cmd, param);
    if s.host.Awaiting? && s.status != CmdReady {
      forall k | 0 <= k < |t.replies| ensures t.replies[k] == Answer(dev, t.executed, k) {
        assert k < |s.replies| ==> t.replies[k] == s.replies[k];
      }
    }
  }

  lemma {:induction false} InvAlways(dev: Device, run: seq<Move>)
    requires HostBehaves(run)
    ensures Inv(dev, After(Start(dev), run))
  {
    if run != [] {
      var before := run[..|run| - 1];
      InvAlways(dev, before);
      match run[|run| - 1] {
        case Sequencer => SequencerKeepsInv(dev, After(Start(dev), before));
        case Host(cmd, param) => HostKeepsInv(dev, After(Start(dev), before), cmd, param);
      }
    }
  }

  /** In every run, each command is executed exactly once and in order, the host has read exactly one reply for each
      command it has finished with, and every reply is the one its command earned. */
  lemma ExactlyOnce(dev: Device, run: seq<Move>)
    requires HostBehaves(run)
    ensures var s := After(Start(dev), run);
            && s.executed <= s.posted && |s.posted| - |s.executed| <= 1
            && s.dev == ExecuteAll(dev, s.executed)
            && |s.posted| - 1 <= |s.replies| <= |s.executed|
            && forall k | 0 <= k < |s.replies| :: s.replies[k] == Answer(dev, s.posted, k)
  {
    InvAlways(dev, run);
    var s := After(Start(dev), run);
    forall k | 0 <= k < |s.replies| ensures s.replies[k] == Answer(dev, s.posted, k) {
      assert s.executed[..k] == s.posted[..k];
    }
  }

  /** Until the host has read it, the status word tells the answer of the last command posted: response ready if that was
      legal, illegal if not, and ready while it is still to be answered. */
  lemma StatusTellsTheAnswer(dev: Device, run: seq<Move>)
    requires HostBehaves(run)
    ensures var s := After(Start(dev), run);
            s.host.Awaiting? ==>
              && s.posted != []
              && (s.status == ResponseReady ==> Drained(s) && Answer(dev, s.posted, |s.posted| - 1))
              && (s.status == IllegalCmd ==> Drained(s) && !Answer(dev, s.posted, |s.posted| - 1))
              && (!Drained(s) ==> s.status == CmdReady)
  {
    InvAlways(dev, run);
  }

  /** A command that waits is never overwritten, and its parameter stays with it until it has run. */
  lemma NeverOverwritten(dev: Device, run: seq<Move>)
    requires HostBehaves(run)
    ensures var s := After(Start(dev), run);
            |s.executed| < |s.posted| ==>
              (s.requested, s.param) == s.posted[|s.posted| - 1] && (Polling(s) || s.pc == Run(s.requested))
  {
    InvAlways(dev, run);
  }

  function SequencerMoves(run: seq<Move>): nat {
    if run == [] then 0 else SequencerMoves(run[..|run| - 1]) + (if run[|run| - 1].Sequencer? then 1 else 0)
  }

  /** Sequencer steps still to come before the waiting command is answered. */
  function StepsToAnswer(s: State): nat {
    if s.status != CmdReady then 0
    else match s.pc case Poll => 4 case Look(_) => 3 case Run(_) => 2 case _ => 1
  }

  /** From any state where the host waits, four steps of the sequencer are enough, however the host is scheduled
      in between: the response is there, or already read. */
  lemma {:induction false} AnsweredInFourSteps(dev: Device, s: State, run: seq<Move>)
    requires Inv(dev, s) && s.host.Awaiting? && HostBehaves(run)
    ensures Inv(dev, After(s, run))
    ensures var t := After(s, run);
            || |t.replies| > |s.replies|
            || (t.host.Awaiting? && t.posted == s.posted && t.replies == s.replies
                && StepsToAnswer(t) + SequencerMoves(run) <= StepsToAnswer(s))
            || (t.host.Awaiting? && t.posted == s.posted && t.replies == s.replies && t.status != CmdReady)
    ensures SequencerMoves(run) >= 4 ==>
              |After(s, run).replies| > |s.replies| || After(s, run).status != CmdReady
  {
    hide Execute, ExecuteAll, Answer, AnswersAre;
    if run != [] {
      var before := run[..|run| - 1];
      AnsweredInFourSteps(dev, s, before);
      match run[|run| - 1] {
        case Sequencer => SequencerKeepsInv(dev, After(s, before));
        case Host(cmd, param) => HostKeepsInv(dev, After(s, before), cmd, param);
      }
    }
  }

  /** The same loop with the two words of the ready mark written in the other order. */
  function SwappedStep(s: State): State {
    match s.pc
    case MarkWait => s.(status := CmdReady, pc := MarkReady)
    case MarkReady => s.(requested := WAIT_CMD, pc := Poll)
    case _ => SequencerStep(s)
  }

  function AfterSwapped(s: State, run: seq<Move>): State {
    if run == [] then s
    else
      var t := AfterSwapped(s, run[..|run| - 1]);
      if run[|run| - 1].Sequencer? then SwappedStep(t) else HostStep(t, run[|run| - 1].cmd, run[|run| - 1].param)
  }

  /** The command was posted, is gone from the command word, and nobody will ever answer it. */
  predicate Lost(s: State) {
    s.host.Awaiting? && Polling(s) && !s.stop && s.status == CmdReady && s.requested == WAIT_CMD && s.executed != s.posted
  }

  lemma {:induction false} LostForever(s: State, run: seq<Move>)
    requires Lost(s)
    ensures Lost(AfterSwapped(s, run)) && AfterSwapped(s, run).replies == s.replies
  {
    if run != [] {
      LostForever(s, run[..|run| - 1]);
    }
  }

  lemma Extend(s: State, run: seq<Move>, mv: Move) returns (longer: seq<Move>)
    requires HostBehaves(run) && (mv.Host? ==> Postable(mv.cmd))
    ensures longer == run + [mv] && HostBehaves(longer)
    ensures AfterSwapped(s, longer) == var t := AfterSwapped(s, run);
              if mv.Sequencer? then SwappedStep(t) else HostStep(t, mv.cmd, mv.param)
  {
    longer := run + [mv];
    assert longer[..|longer| - 1] == run;
  }

  /** The state in which one command, which does nothing, has been answered and its reply not yet read. */
  function OneAnswer(dev: Device): State {
    State(ResponseReady, NOP, 0, Poll, false, dev, Awaiting, [(NOP, 0)], [(NOP, 0)], [])
  }

  lemma RunToOneAnswer(dev: Device) returns (run: seq<Move>)
    ensures HostBehaves(run) && AfterSwapped(Start(dev), run) == OneAnswer(dev)
  {
    hide ExecuteAll, Answer, AfterSwapped, Or, AndNot, Shl;
    var (s, h, q) := (Start(dev), Host(NOP, 0), Sequencer);
    run := NoMoves(s);
    run := Extend(s, run, h);
    run := Extend(s, run, h);
    run := Extend(s, run, h);
    assert AfterSwapped(s, run) == s.(requested := NOP, host := Awaiting, posted := [(NOP, 0)]);
    run := Extend(s, run, q);
    run := Extend(s, run, q);
    run := Extend(s, run, q);
    run := Extend(s, run, q);
  }

  lemma NoMoves(s: State) returns (run: seq<Move>)
    ensures run == [] && HostBehaves(run) && AfterSwapped(s, run) == s && After(s, run) == s
  {
    run := [];
  }

  /** A run that goes on from there and stops between the two writes of the swapped ready mark. */
  lemma HalfwayThroughSwappedMark(dev: Device) returns (run: seq<Move>)
    ensures HostBehaves(run)
    ensures var t := AfterSwapped(Start(dev), run);
            t.host.Idle? && t.status == CmdReady && t.pc.MarkReady? && !t.stop && |t.executed| == |t.posted| == 1
  {
    hide Execute, ExecuteAll, Answer, AfterSwapped;
    var (s, h, q) := (Start(dev), Host(NOP, 0), Sequencer);
    run := RunToOneAnswer(dev);
    run := Extend(s, run, h);
    run := Extend(s, run, h);
    run := Extend(s, run, q);
    run := Extend(s, run, q);
    run := Extend(s, run, q);
  }

  /** Write order matters: with the order swapped, some run of a well-behaved host loses its second command. */
  lemma SwappedOrderLosesACommand(dev: Device) returns (run: seq<Move>)
    ensures HostBehaves(run) && Lost(AfterSwapped(Start(dev), run))
  {
    hide Execute, AfterSwapped;
    var (s, h, q) := (Start(dev), Host(NOP, 0), Sequencer);
    run := HalfwayThroughSwappedMark(dev);
    run := Extend(s, run, h);
    run := Extend(s, run, h);
    run := Extend(s, run, h);
    run := Extend(s, run, q);
  }

  lemma Append(s: State, run: seq<Move>, mv: Move) returns (longer: seq<Move>)
    ensures longer == run + [mv] && After(s, longer) == Step(After(s, run), mv)
  {
    longer := run + [mv];
    assert longer[..|longer| - 1] == run;
  }

  /** Why the acknowledgement is not postable: posted as a command it is executed, but its reply may be withdrawn
      before the host looks, and the host then waits for ever. */
  lemma PostingAckLosesTheReply(dev: Device) returns (run: seq<Move>)
    ensures var t := After(Start(dev), run);
            t.host.Awaiting? && t.status == CmdReady && Drained(t) && |t.replies| < |t.posted|
            && t.pc.Poll? && t.requested == WAIT_CMD
  {
    hide ExecuteAll, Answer, After, Or, AndNot, Shl;
    var (s, h, q) := (Start(dev), Host(RESPONSE_ACK, 0), Sequencer);
    run := NoMoves(s);
    run := Append(s, run, h);
    run := Append(s, run, h);
    run := Append(s, run, h);
    run := Append(s, run, q);
    run := Append(s, run, q);
    run := Append(s, run, q);
    run := Append(s, run, q);
    assert After(s, run) == State(IllegalCmd, RESPONSE_ACK, 0, Poll, false, dev, Awaiting,
                                  [(RESPONSE_ACK, 0)], [(RESPONSE_ACK, 0)], []);
    hide Execute;
    run := Append(s, run, q);
    run := Append(s, run, q);
    run := Append(s, run, q);
    run := Append(s, run, q);
  }
}
