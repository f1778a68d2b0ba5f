/** The client state machine of src/robot_impl.cpp and src/robot_impl.h. */
module RobotImpl {
  import opened RealMath
  import opened Framing
  import opened Logger
  import opened RobotTypes
  import opened RobotLink

  // ----- The error report -----

  /** The report subtracts unsigned times of the last two records. */
  function CreateControlException(status: MoveStatus, log: seq<LogRecord>): (f: Failure)
    ensures f.MotionAborted? && f.status == status && f.log == log
  {
    var n := |log|;
    if status.ReflexAborted? && n >= 2 then
      var lost := WrapSub(WrapSub(log[n - 1].state.messageId, log[n - 2].state.messageId), 1);
      MotionAborted(status, Some(PacketReport(log[n - 2].state.successRate * (1.0 - lost as real / 100.0), lost)), log)
    else MotionAborted(status, None, log)
  }

  /** Only a reflex is reported, and only with two records: the success rate is that of the last but one, less one percent
      of it for each state lost. */
  lemma ReportIsExact(status: MoveStatus, log: seq<LogRecord>)
    requires IncreasingLog(log)
    ensures var report := CreateControlException(status, log).report;
            && (report.Some? <==> MoveCode(status) == 6 && |log| >= 2)
            && (report.Some? ==>
                  && report.value.lostPackets == log[|log| - 1].state.messageId - log[|log| - 2].state.messageId - 1
                  && 100.0 * report.value.successRate
                     == log[|log| - 2].state.successRate * (100.0 - report.value.lostPackets as real))
  {
    if status.ReflexAborted? && |log| >= 2 {
      LostPacketsAreCounted(status, log);
    }
  }

  ghost predicate Increasing(states: seq<RobotState>) {
    forall i, j :: 0 <= i < j < |states| ==> states[i].messageId < states[j].messageId
  }

  ghost predicate IncreasingLog(log: seq<LogRecord>) {
    forall i, j :: 0 <= i < j < |log| ==> log[i].state.messageId < log[j].state.messageId
  }

  /** A report of strictly increasing records counts the ids between the last two. */
  lemma LostPacketsAreCounted(status: MoveStatus, log: seq<LogRecord>)
    requires IncreasingLog(log) && status.ReflexAborted? && |log| >= 2
    ensures var n, report := |log|, CreateControlException(status, log).report;
            report.Some? && report.value.lostPackets == log[n - 1].state.messageId - log[n - 2].state.messageId - 1
  {
    var n := |log|;
    assert log[n - 2].state.messageId < log[n - 1].state.messageId;
  }

  /** Every record is at most as new as the given id. */
  ghost predicate LogUpTo(log: seq<LogRecord>, id: nat) {
    forall r :: r in log ==> r.state.messageId <= id
  }

  lemma LogStep(log: seq<LogRecord>, id: nat, record: LogRecord)
    requires IncreasingLog(log) && LogUpTo(log, id) && record.state.messageId > id
    ensures IncreasingLog(log + [record]) && LogUpTo(log + [record], record.state.messageId)
  {
  }

  /** The failure carries an ordered log, and its report is about that log. */
  ghost predicate IsOrderedReport(f: Failure) {
    f.MotionAborted? ==> IncreasingLog(f.log) && f == CreateControlException(f.status, f.log)
  }

  lemma OrderedReport(status: MoveStatus, log: seq<LogRecord>, n: nat)
    requires IncreasingLog(log)
    ensures IsOrderedReport(CreateControlException(status, LastN(log, n)))
  {
  }

  // ----- What may be sent -----

  /** The modes of the motion the client believes to be running. */
  datatype Modes = Modes(generator: MotionGeneratorMode, controller: ControllerMode) {
    /** An external controller comes with a motion generator. */
    predicate Consistent() {
      controller.ExternalController? ==> !generator.Idle?
    }

    /** The command carries what the running motion needs, and no more. */
    predicate Fits(motion: Option<MotionCommand>, control: Option<ControlCommand>) {
      !generator.Idle? && motion.Some? && (control.Some? <==> controller.ExternalController?)
    }
  }

  const STOPPED := Modes(Idle, Other)

  function Guard(modes: Modes, motion: Option<MotionCommand>, control: Option<ControlCommand>): (g: Option<Failure>)
    ensures g.Some? ==> IsGuard(g.value)
  {
    if motion.None? && control.None? then None
    else if motion.Some? && modes.generator.Idle? then Some(NoMotionGenerator)
    else if control.Some? && !modes.controller.ExternalController? then Some(NoController)
    else if !modes.generator.Idle? && modes.controller.ExternalController? && (motion.None? || control.None?)
    then Some(PartialCommand)
    else None
  }

  /** Without parts, the command keeps its zeros. */
  function CommandOf(messageId: U64, motion: Option<MotionCommand>, control: Option<ControlCommand>): RobotCommand {
    if motion.None? && control.None? then RobotCommand(0, None, None) else RobotCommand(messageId, motion, control)
  }

  function Outcome(failure: Option<Failure>): Result<Unit> {
    if failure.Some? then Err(failure.value) else Ok(Unit)
  }

  /** Why a command cannot be sent, if it cannot. */
  function Refusal(modes: Modes, motion: Option<MotionCommand>, control: Option<ControlCommand>,
                   sendFaults: seq<bool>): Option<Failure> {
    if motion.None? && control.None? then None
    else if Guard(modes, motion, control).Some? then Guard(modes, motion, control)
    else if NextFails(sendFaults) then Some(NetworkFailure)
    else None
  }

  /** What is left of the faults when the command has been sent, or sending it has failed. */
  function FaultsLeft(modes: Modes, motion: Option<MotionCommand>, control: Option<ControlCommand>,
                      sendFaults: seq<bool>): seq<bool> {
    if (motion.None? && control.None?) || Guard(modes, motion, control).Some? then sendFaults else AfterNext(sendFaults)
  }

  /** The datagrams of one cycle. */
  function Sending(messageId: U64, motion: Option<MotionCommand>, control: Option<ControlCommand>): seq<RobotCommand> {
    if motion.None? && control.None? then [] else [CommandOf(messageId, motion, control)]
  }

  /** The three guards together let through exactly the commands that fit. */
  lemma GuardsAreExact(modes: Modes, motion: Option<MotionCommand>, control: Option<ControlCommand>)
    requires modes.Consistent() && (motion.Some? || control.Some?)
    ensures Guard(modes, motion, control).None? <==> modes.Fits(motion, control)
  {
  }

  /** handleCommandResponse for Move: 0 is success, 1 says that the motion has started, 2 to 11 are refusals. */
  function HandleMove(code: Byte, generatorRunning: bool): (f: Option<Failure>)
    ensures f.None? <==> code == 0 || (code == 1 && !generatorRunning)
    ensures f == Some(ProtocolFailure) <==> code > 11 || (code == 1 && generatorRunning)
    ensures 2 <= code <= 11 ==> f == Some(MoveRefused(MoveStatusOf(code)))
  {
    StatusIsRead(code);
    match MoveVerdict(MoveStatusOf(code), generatorRunning)
    case Accepted => None
    case Refused => Some(MoveRefused(MoveStatusOf(code)))
    case Unexpected => Some(ProtocolFailure)
  }

  /** A refusal of a motion that has started already is a ControlException. */
  function AsControlException(f: Failure): (g: Failure)
    ensures IsGuard(g) ==> IsGuard(f)
  {
    if f.MoveRefused? then MotionRefused(f.status) else f
  }

  /** How waiting for a motion ends: the robot shows the modes, the request is answered once more, or neither. */
  datatype Waiting = Shown | Answered | Failing(failure: Failure)

  /** The end of the waiting, as the network determines it. */
  function WaitOutcome(udp: seq<UdpEvent>, tcp: seq<TcpEvent>, received: map<Word, Byte>, id: Word, messageId: nat,
                       shown: Modes, wanted: Modes): Waiting
    decreases |udp|
  {
    var failure, after, rest := ReadFailure(tcp), AfterRead(tcp, received), Tail(tcp);
    if shown == wanted then Shown
    else if failure.Some? then Failing(failure.value)
    else if id in after then
      match HandleMove(after[id], !shown.generator.Idle?)
      case None => Answered
      case Some(f) => Failing(AsControlException(f))
    else
      match Observed(rest, udp, messageId)
      case Err(f) => Failing(f)
      case Ok(s) =>
        WaitOutcome(AfterAcceptable(udp, messageId), rest, after, id, s.messageId,
                    Modes(s.generatorMode, s.controllerMode), wanted)
  }

  /** The end of a start whose request could be sent: first its response is awaited. */
  function StartOutcome(udp: seq<UdpEvent>, tcp: seq<TcpEvent>, received: map<Word, Byte>, id: Word, messageId: nat,
                        shown: Modes, wanted: Modes): Waiting {
    match Awaited(tcp, received, id)
    case Err(f) => Failing(f)
    case Ok(reply) =>
      match HandleMove(reply, !shown.generator.Idle?)
      case Some(f) => Failing(f)
      case None =>
        var (tcp', received') := AfterAwaited(tcp, received, id);
        WaitOutcome(udp, tcp', received', id, messageId, shown, wanted)
  }

  /** handleCommandResponse for StopMove: 0 is success, 1 to 5 are refusals. */
  /** Why repeating a command until the robot shows that it has stopped fails, if it does. */
  function Repeated(modes: Modes, motion: MotionCommand, control: Option<ControlCommand>, tcp: seq<TcpEvent>,
                    udp: seq<UdpEvent>, sendFaults: seq<bool>, messageId: nat, shown: Modes): (f: Option<Failure>)
    ensures f.Some? ==> f.value == NetworkFailure || f.value == ProtocolFailure || IsGuard(f.value)
    decreases |udp|
  {
    var refusal := Refusal(modes, Some(motion), control, sendFaults);
    if shown.generator.Idle? && !shown.controller.ExternalController? then None
    else if Broken(tcp) then Some(NetworkFailure)
    else if refusal.Some? then refusal
    else
      match Acceptable(udp, messageId)
      case Err(f) => Some(f)
      case Ok(s) =>
        Repeated(modes, motion, control, tcp, AfterAcceptable(udp, messageId),
                 FaultsLeft(modes, Some(motion), control, sendFaults), s.messageId, Modes(s.generatorMode, s.controllerMode))
  }

  /** Why waiting until a new state shows that the robot has stopped fails, if it does. */
  function Stopping(udp: seq<UdpEvent>, messageId: nat): Option<Failure>
    decreases |udp|
  {
    match Acceptable(udp, messageId)
    case Err(f) => Some(f)
    case Ok(s) =>
      if s.generatorMode.Idle? && !s.controllerMode.ExternalController? then None
      else Stopping(AfterAcceptable(udp, messageId), s.messageId)
  }

  /** How a cancellation ends: the request, its response, the stop, and a last read of the connection. */
  function Cancelled(udp: seq<UdpEvent>, tcp: seq<TcpEvent>, received: map<Word, Byte>, sendFaults: seq<bool>, id: Word,
                     messageId: nat): Result<Unit> {
    if NextFails(sendFaults) then Err(NetworkFailure)
    else
      match Awaited(tcp, received, id)
      case Err(f) => Err(f)
      case Ok(code) =>
        if HandleStopMove(code).Some? then Err(HandleStopMove(code).value)
        else if Stopping(udp, messageId).Some? then Err(Stopping(udp, messageId).value)
        else if ReadFailure(AfterAwaited(tcp, received, id).0).Some?
        then Err(ReadFailure(AfterAwaited(tcp, received, id).0).value)
        else Ok(Unit)
  }

  function HandleStopMove(code: Byte): (f: Option<Failure>)
    ensures f.None? <==> code == 0
    ensures 1 <= code <= 5 ==> f == Some(StopRefused(code))
    ensures code > 5 ==> f == Some(ProtocolFailure)
  {
    match StopMoveVerdict(code)
    case Accepted => None
    case Refused => Some(StopRefused(code))
    case Unexpected => Some(ProtocolFailure)
  }

  lemma LatestStep(seen: seq<RobotState>, s: RobotState, id: nat)
    ensures Newest(seen + [s], id) ==
            if s.messageId > (if Newest(seen, id).Some? then Newest(seen, id).value.messageId else id) then Some(s)
            else Newest(seen, id)
  {
    assert (seen + [s])[..|seen|] == seen;
  }

  /** The messages of a motion that is being finished: the same command, flagged as finished, with ever newer stamps. */
  ghost predicate FinishingSends(sends: seq<RobotCommand>, from: nat, to: nat, finished: MotionCommand,
                                 control: Option<ControlCommand>) {
    && (forall i :: 0 <= i < |sends| ==> sends[i] == RobotCommand(sends[i].messageId, Some(finished), control))
    && (forall i :: 0 <= i < |sends| ==> from <= sends[i].messageId <= to)
    && (forall i, j :: 0 <= i < j < |sends| ==> sends[i].messageId < sends[j].messageId)
  }

  /** What is logged of cycles that sent these commands and accepted these states. */
  ghost function Cycles(states: seq<RobotState>, sends: seq<RobotCommand>): seq<LogRecord> {
    if |states| != |sends| then []
    else seq(|states|, i requires 0 <= i < |states| && |states| == |sends| => Record(states[i], sends[i]))
  }

  lemma NoCycles()
    ensures Cycles([], []) == []
  {
  }

  lemma OneMoreCycle(states: seq<RobotState>, sends: seq<RobotCommand>, s: RobotState, send: RobotCommand)
    requires |states| == |sends|
    ensures Cycles(states + [s], sends + [send]) == Cycles(states, sends) + [Record(s, send)]
  {
  }

  /** How a motion that has stopped ends, given the response to its Move request. */
  ghost function Finished(reply: Result<Byte>, log: seq<LogRecord>): Result<Unit> {
    match reply
    case Err(f) => Err(f)
    case Ok(code) =>
      if code <= 1 then Ok(Unit)
      else if code <= 11 then Err(CreateControlException(MoveStatusOf(code), log))
      else Err(ProtocolFailure)
  }

  lemma NoSends(id: nat, finished: MotionCommand, control: Option<ControlCommand>)
    ensures FinishingSends([], id, id, finished, control)
  {
  }

  lemma MoreSends(sends: seq<RobotCommand>, from: nat, id: U64, to: nat, finished: MotionCommand,
                  control: Option<ControlCommand>)
    requires FinishingSends(sends, from, id, finished, control) && from <= id <= to
    requires sends == [] || sends[|sends| - 1].messageId < id
    ensures FinishingSends(sends, from, to, finished, control)
    ensures FinishingSends(sends + [RobotCommand(id, Some(finished), control)], from, to, finished, control)
  {
  }

  class RobotImpl {
    const link: Link
    const logger: Logger<RobotState, RobotCommand>
    var robotMode: RobotMode
    var generatorMode: MotionGeneratorMode
    var controllerMode: ControllerMode
    /** The modes that were asked for in the running motion. */
    var current: Modes
    var messageId: U64
    /** Every accepted state, and for every datagram sent the modes it was sent in. */
    ghost var accepted: seq<RobotState>
    ghost var sentIn: seq<Modes>

    ghost function Repr(): set<object> {
      {this, link, logger, logger.states, logger.commands}
    }

    ghost predicate Valid()
      reads Repr()
    {
      && logger.Valid()
      && StateIsAccepted()
      && current.Consistent()
      && LogIsOrdered()
      && SentIsWellFormed()
    }

    ghost predicate StateIsAccepted()
      reads `accepted, `messageId, `robotMode, `generatorMode, `controllerMode
    {
      && accepted != [] && Increasing(accepted)
      && ShowsState(accepted[|accepted| - 1])
    }

    predicate ShowsState(s: RobotState)
      reads `messageId, `robotMode, `generatorMode, `controllerMode
    {
      && messageId == s.messageId && robotMode == s.robotMode
      && generatorMode == s.generatorMode && controllerMode == s.controllerMode
    }

    ghost predicate LogIsOrdered()
      reads `messageId, logger`logged
    {
      IncreasingLog(logger.logged) && LogUpTo(logger.logged, messageId)
    }

    /** Every datagram carries a motion, and torques exactly when an external controller was running. */
    ghost predicate SentIsWellFormed()
      reads `sentIn, link`sent
    {
      && |sentIn| == |link.sent|
      && forall i :: 0 <= i < |sentIn| ==> sentIn[i].Fits(link.sent[i].motion, link.sent[i].control)
    }

    predicate MotionGeneratorRunning()
      reads this
    {
      !generatorMode.Idle?
    }

    predicate ControllerRunning()
      reads this
    {
      controllerMode.ExternalController?
    }

    predicate Running()
      reads this
    {
      MotionGeneratorRunning() || ControllerRunning()
    }

    /** A connected client that has received its first state. The controller mode has no initial value in the source. */
    constructor (link: Link, logSize: nat, first: RobotState, anyMode: ControllerMode)
      requires link.sent == [] && !anyMode.ExternalController?
      ensures Valid() && this.link == link && fresh(Repr() - {link})
      ensures accepted == [first] && ShowsState(first) && current == Modes(Idle, anyMode)
        && logger.logged == [] && logger.logSize == logSize
    {
      this.link := link;
      logger := new Logger<RobotState, RobotCommand>(logSize);
      robotMode, generatorMode, controllerMode := first.robotMode, first.generatorMode, first.controllerMode;
      messageId := first.messageId;
      current := Modes(Idle, anyMode);
      accepted, sentIn := [first], [];
    }

    method UpdateState(s: RobotState)
      requires Valid() && s.messageId > messageId
      modifies `robotMode, `generatorMode, `controllerMode, `messageId, `accepted
      ensures Valid() && accepted == old(accepted) + [s] && ShowsState(s)
    {
      robotMode, generatorMode, controllerMode, messageId := s.robotMode, s.generatorMode, s.controllerMode, s.messageId;
      accepted := accepted + [s];
      assert logger.Valid();
    }

    method SendRobotCommand(motion: Option<MotionCommand>,
                            control: Option<ControlCommand>) returns (r: Result<RobotCommand>)
      requires Valid()
      modifies `sentIn, link`sendFaults, link`sent
      ensures Valid()
      ensures var refusal := Refusal(current, motion, control, old(link.sendFaults));
              && r == (if refusal.Some? then Err(refusal.value) else Ok(CommandOf(messageId, motion, control)))
              && link.sent == old(link.sent) + (if refusal.Some? then [] else Sending(messageId, motion, control))
              && link.sendFaults == FaultsLeft(current, motion, control, old(link.sendFaults))
    {
      var command := RobotCommand(0, None, None);
      if motion.Some? || control.Some? {
        command := command.(messageId := messageId);
        if motion.Some? {
          if current.generator.Idle? {
            return Err(NoMotionGenerator);
          }
          command := command.(motion := motion);
        }
        if control.Some? {
          if !current.controller.ExternalController? {
            return Err(NoController);
          }
          command := command.(control := control);
        }
        if !current.generator.Idle? && current.controller.ExternalController? && (motion.None? || control.None?) {
          return Err(PartialCommand);
        }
        GuardsAreExact(current, motion, control);
        var sending := link.UdpSend(command);
        if sending.Err? {
          return Err(sending.failure);
        }
        sentIn := sentIn + [current];
      }
      r := Ok(command);
    }

    /** If states are already available, the most recent of them. */
    method DrainStates() returns (latest: Option<RobotState>)
      modifies link`udp
      ensures latest == Newest(Batch(old(link.udp)), messageId) && link.udp == AfterBatch(old(link.udp))
      ensures latest.Some? ==> |link.udp| < |old(link.udp)|
    {
      hide Newest;
      latest := None;
      ghost var seen: seq<RobotState> := [];
      NewestIsNewest(seen, messageId);
      while true
        invariant Batch(old(link.udp)) == seen + Batch(link.udp) && AfterBatch(old(link.udp)) == AfterBatch(link.udp)
        invariant latest == Newest(seen, messageId) && |link.udp| + |seen| <= |old(link.udp)|
        invariant seen == [] ==> latest.None?
        decreases |link.udp|
      {
        var received := link.UdpReceive();
        if received.None? {
          assert Batch(old(link.udp)) == seen;
          break;
        }
        LatestStep(seen, received.value, messageId);
        seen := seen + [received.value];
        if received.value.messageId > (if latest.Some? then latest.value.messageId else messageId) {
          latest := received;
        }
      }
    }

    /** Waits for the first state that is newer than the last accepted one. */
    method AwaitState() returns (r: Result<RobotState>)
      modifies link`udp
      ensures r == FirstNewer(old(link.udp), messageId) && link.udp == AfterFirstNewer(old(link.udp), messageId)
      ensures r.Ok? ==> |link.udp| < |old(link.udp)|
      ensures |link.udp| <= |old(link.udp)|
    {
      hide FirstNewer, AfterFirstNewer;
      while true
        invariant |link.udp| <= |old(link.udp)|
          && FirstNewer(old(link.udp), messageId) == FirstNewer(link.udp, messageId)
          && AfterFirstNewer(old(link.udp), messageId) == AfterFirstNewer(link.udp, messageId)
        decreases |link.udp|
      {
        r := link.UdpBlockingReceive();
        if r.Err? || r.value.messageId > messageId {
          return;
        }
      }
    }

    /** Accepts the newest state that is there, or waits for a newer one. */
    method ReceiveRobotState() returns (r: Result<RobotState>)
      requires Valid()
      modifies `robotMode, `generatorMode, `controllerMode, `messageId, `accepted, link`udp
      ensures Valid() && r == Acceptable(old(link.udp), old(messageId))
      ensures r.Ok? ==>
        accepted == old(accepted) + [r.value] && ShowsState(r.value) && messageId > old(messageId)
        && |link.udp| < |old(link.udp)| && link.udp == AfterAcceptable(old(link.udp), old(messageId))
      ensures r.Err? ==> unchanged(`robotMode, `generatorMode, `controllerMode, `messageId, `accepted)
      ensures |link.udp| <= |old(link.udp)|
    {
      hide Newest, FirstNewer, AfterFirstNewer, RobotImpl.StateIsAccepted, RobotImpl.LogIsOrdered, RobotImpl.SentIsWellFormed,
           Logger.Valid;
      var latest := DrainStates();
      if latest.None? {
        r := AwaitState();
        if r.Err? {
          return;
        }
        latest := Some(r.value);
      }
      AcceptedIsNewer(old(link.udp), messageId);
      UpdateState(latest.value);
      r := Ok(latest.value);
    }

    /** One cycle: send, receive, log. */
    method Update(motion: Option<MotionCommand>, control: Option<ControlCommand>) returns (r: Result<RobotState>)
      requires Valid()
      modifies `robotMode, `generatorMode, `controllerMode, `messageId, `accepted, `sentIn
      modifies link`udp, link`sendFaults, link`sent, logger, logger.states, logger.commands
      ensures Valid() && |link.udp| <= |old(link.udp)|
      ensures r.Ok? ==>
        && Guard(current, motion, control).None?
        && accepted == old(accepted) + [r.value] && ShowsState(r.value) && messageId > old(messageId)
        && |link.udp| < |old(link.udp)| && link.udp == AfterAcceptable(old(link.udp), old(messageId))
        && link.sent == old(link.sent) + Sending(old(messageId), motion, control)
        && logger.logged == old(logger.logged) + [Record(r.value, CommandOf(old(messageId), motion, control))]
      ensures r.Err? ==>
        && unchanged(`robotMode, `generatorMode, `controllerMode, `messageId, `accepted)
        && logger.logged == old(logger.logged)
        && (link.sent == old(link.sent) || link.sent == old(link.sent) + Sending(messageId, motion, control))
        && (r.failure == NetworkFailure || r.failure == ProtocolFailure || Guard(current, motion, control) == Some(r.failure))
      ensures motion.None? && control.None? ==> r == Observed(link.tcp, old(link.udp), old(messageId))
      ensures var refusal := Refusal(current, motion, control, old(link.sendFaults));
              && r == (if Broken(link.tcp) then Err(NetworkFailure)
                       else if refusal.Some? then Err(refusal.value)
                       else Acceptable(old(link.udp), old(messageId)))
              && link.sent == old(link.sent)
                 + (if Broken(link.tcp) || refusal.Some? then [] else Sending(old(messageId), motion, control))
              && link.sendFaults
                 == if Broken(link.tcp) then old(link.sendFaults)
                    else FaultsLeft(current, motion, control, old(link.sendFaults))
    {
      hide RobotImpl.StateIsAccepted, RobotImpl.SentIsWellFormed, Logger.Valid, Acceptable, AfterAcceptable,
           IncreasingLog, LogUpTo;
      var open := link.TcpThrowIfConnectionClosed();
      if open.Err? {
        return Err(open.failure);
      }
      var command := SendRobotCommand(motion, control);
      if command.Err? {
        return Err(command.failure);
      }
      r := ReceiveRobotState();
      if r.Ok? {
        LogStep(logger.logged, old(messageId), Record(r.value, command.value));
        logger.Log(r.value, command.value);
      }
    }

    /** Drops the states that are there and takes the next one; it is not logged. */
    method ReadOnce() returns (r: Result<RobotState>)
      requires Valid()
      modifies `robotMode, `generatorMode, `controllerMode, `messageId, `accepted, link`udp
      ensures Valid() && r == Acceptable(AfterBatch(old(link.udp)), old(messageId))
      ensures r.Ok? ==> accepted == old(accepted) + [r.value] && ShowsState(r.value) && messageId > old(messageId)
      ensures r.Err? ==> unchanged(`robotMode, `generatorMode, `controllerMode, `messageId, `accepted)
    {
      hide RobotImpl.StateIsAccepted, RobotImpl.LogIsOrdered, RobotImpl.SentIsWellFormed, Logger.Valid, Acceptable;
      while true
        invariant AfterBatch(link.udp) == AfterBatch(old(link.udp))
        modifies link`udp
        decreases |link.udp|
      {
        var dropped := link.UdpReceive();
        if dropped.None? {
          break;
        }
      }
      r := ReceiveRobotState();
    }

    /** Sends without receiving. */
    method WriteOnce(motion: Option<MotionCommand>, control: Option<ControlCommand>) returns (r: Result<Unit>)
      requires Valid()
      modifies `sentIn, link`sendFaults, link`sent
      ensures Valid()
      ensures var refusal := Refusal(current, motion, control, old(link.sendFaults));
              && r == (if Broken(link.tcp) then Err(NetworkFailure)
                       else if refusal.Some? then Err(refusal.value)
                       else Ok(Unit))
              && link.sent == old(link.sent) + if r.Ok? then Sending(messageId, motion, control) else []
    {
      hide RobotImpl.StateIsAccepted, RobotImpl.LogIsOrdered, RobotImpl.SentIsWellFormed, Logger.Valid, Guard;
      var open := link.TcpThrowIfConnectionClosed();
      if open.Err? {
        return Err(open.failure);
      }
      var command := SendRobotCommand(motion, control);
      r := if command.Ok? then Ok(Unit) else Err(command.failure);
    }

    /** Passes only a moving robot in the modes that were asked for; otherwise the Move response says what went wrong. */
    method ThrowOnMotionError(state: RobotState, motionId: Word) returns (r: Result<Unit>)
      requires Valid()
      modifies link`tcp, link`received, logger
      ensures Valid()
      ensures r.Ok? <==> state.robotMode.MoveMode? && InCurrentModes()
      ensures r.Ok? ==> logger.logged == old(logger.logged) && unchanged(link`tcp, link`received)
      ensures r.Err? ==>
        var reply := Awaited(old(link.tcp), old(link.received), motionId);
        && r.failure == (if reply.Err? then reply.failure
                         else if 2 <= reply.value <= 11
                         then CreateControlException(MoveStatusOf(reply.value), LastN(old(logger.logged), logger.logSize))
                         else ProtocolFailure)
        && IsOrderedReport(r.failure)
    {
      hide RobotImpl.StateIsAccepted, RobotImpl.SentIsWellFormed, Logger.Valid, Awaited, CreateControlException,
           LastN, MoveStatusOf;
      if state.robotMode.MoveMode? && generatorMode == current.generator && controllerMode == current.controller {
        return Ok(Unit);
      }
      var response := link.TcpBlockingReceiveResponse(motionId);
      if response.Err? {
        return Err(response.failure);
      }
      var failure := HandleMove(response.value, MotionGeneratorRunning());
      if failure.Some? && failure.value.MoveRefused? {
        OrderedReport(MoveStatusOf(response.value), logger.logged, logger.logSize);
        var log := logger.Flush();
        return Err(CreateControlException(MoveStatusOf(response.value), log));
      }
      r := Err(ProtocolFailure);
    }

    /** The response to a Move request was received and is no complaint. */
    ghost predicate IsAccepted(reply: Result<Byte>, generatorRunning: bool) {
      reply.Ok? && (reply.value == 0 || (reply.value == 1 && !generatorRunning))
    }

    /** The response to a request was received and refuses it. */
    ghost predicate IsRefused(reply: Result<Byte>) {
      reply.Ok? && 2 <= reply.value <= 11
    }

    method ExecuteMove(controller: RequestedController, generator: RequestedGenerator) returns (r: Result<Word>)
      modifies link`sendFaults, link`commandId, link`requests, link`tcp, link`received
      ensures
        var id, reply := old(link.commandId), Awaited(old(link.tcp), old(link.received), old(link.commandId));
        r == if NextFails(old(link.sendFaults)) then Err(NetworkFailure)
             else if reply.Err? then Err(reply.failure)
             else if HandleMove(reply.value, MotionGeneratorRunning()).Some?
             then Err(HandleMove(reply.value, MotionGeneratorRunning()).value)
             else Ok(id)
      ensures link.requests == old(link.requests)
        + if NextFails(old(link.sendFaults)) then [] else [MoveRequest(old(link.commandId), controller, generator)]
      ensures r.Ok? ==>
        && (link.tcp, link.received) == AfterAwaited(old(link.tcp), old(link.received), r.value)
        && r.value !in link.received
        && (r.value !in old(link.received) ==> Replies(link.tcp, r.value) + 1 == Replies(old(link.tcp), r.value))
      ensures r.Err? ==> !IsGuard(r.failure)
    {
      hide Awaited, AfterAwaited, Replies, MoveStatusOf;
      r := link.TcpSendRequest((id: Word) => MoveRequest(id, controller, generator));
      if r.Err? {
        return;
      }
      var response := link.TcpBlockingReceiveResponse(r.value);
      if response.Err? {
        return Err(response.failure);
      }
      var failure := HandleMove(response.value, MotionGeneratorRunning());
      if failure.Some? {
        return Err(failure.value);
      }
    }

    predicate InCurrentModes()
      reads `generatorMode, `controllerMode, `current
    {
      ShownModes() == current
    }

    /** The modes the robot shows. */
    function ShownModes(): Modes
      reads `generatorMode, `controllerMode
    {
      Modes(generatorMode, controllerMode)
    }

    /** Waits until the robot shows the modes that were asked for; a second response to the request ends the waiting, too. */
    method AwaitMotion(id: Word) returns (r: Result<Unit>)
      requires Valid()
      modifies `robotMode, `generatorMode, `controllerMode, `messageId, `accepted, `sentIn
      modifies link`udp, link`sendFaults, link`sent, link`tcp, link`received, logger, logger.states, logger.commands
      ensures Valid() && link.sent == old(link.sent) && old(accepted) <= accepted && messageId >= old(messageId)
      ensures r.Err? ==> !IsGuard(r.failure)
      ensures
        var outcome := WaitOutcome(old(link.udp), old(link.tcp), old(link.received), id, old(messageId),
                                   old(ShownModes()), current);
        && r == (if outcome.Failing? then Err(outcome.failure) else Ok(Unit))
        && (r.Ok? ==> (InCurrentModes() <==> outcome.Shown?))
      ensures r.Ok? && id !in old(link.received) ==>
        (InCurrentModes() <==> Replies(link.tcp, id) == Replies(old(link.tcp), id))
    {
      hide RobotImpl.StateIsAccepted, RobotImpl.SentIsWellFormed, RobotImpl.LogIsOrdered, Logger.Valid, Replies,
           AfterRead, ReadFailure, AfterAcceptable, Observed, HandleMove;
      ghost var outcome := WaitOutcome(link.udp, link.tcp, link.received, id, messageId, ShownModes(), current);
      while generatorMode != current.generator || controllerMode != current.controller
        invariant Valid() && link.sent == old(link.sent) && old(accepted) <= accepted && messageId >= old(messageId)
        invariant outcome == WaitOutcome(link.udp, link.tcp, link.received, id, messageId, ShownModes(), current)
        invariant id !in old(link.received) ==> id !in link.received && Replies(link.tcp, id) == Replies(old(link.tcp), id)
        decreases |link.udp|
      {
        var running := MotionGeneratorRunning();
        var again := link.TcpReceiveResponse(id, (code: Byte) => HandleMove(code, running));
        if again.Err? {
          return Err(AsControlException(again.failure));
        }
        if again.value {
          break;
        }
        var state := Update(None, None);
        if state.Err? {
          return Err(state.failure);
        }
      }
      r := Ok(Unit);
    }

    /** What asking for a motion will come to. */
    function StartResult(controller: RequestedController, generator: RequestedGenerator): Result<Word>
      reads this, link
    {
      if Running() then Err(MultipleMotions)
      else if generator.UnknownGenerator? || controller.UnknownController? then Err(InvalidArgument)
      else if NextFails(link.sendFaults) then Err(NetworkFailure)
      else
        match StartOutcome(link.udp, link.tcp, link.received, link.commandId, messageId, ShownModes(),
                           Modes(generator.mode, controller.mode))
        case Failing(f) => Err(f)
        case _ => Ok(link.commandId)
    }

    /** At most one request was sent. */
    ghost predicate MaybeRequested(before: seq<Request>, request: Request)
      reads link`requests
    {
      link.requests == before || link.requests == before + [request]
    }

    /** Asks for a motion and waits for the robot to enter it. */
    method StartMotion(controller: RequestedController, generator: RequestedGenerator) returns (r: Result<Word>)
      requires Valid()
      modifies `robotMode, `generatorMode, `controllerMode, `messageId, `accepted, `sentIn, `current
      modifies link`udp, link`sendFaults, link`sent, link`tcp, link`received, link`commandId, link`requests
      modifies logger, logger.states, logger.commands
      ensures Valid() && link.sent == old(link.sent) && old(accepted) <= accepted && messageId >= old(messageId)
      ensures r.Err? ==> !IsGuard(r.failure)
      ensures old(Running()) ==>
        r == Err(MultipleMotions) && current == old(current) && link.requests == old(link.requests)
      ensures r.Ok? ==>
        && IsAccepted(Awaited(old(link.tcp), old(link.received), r.value), false)
        && generator.Generator? && controller.Controller?
        && current == Modes(generator.mode, controller.mode)
        && logger.logged == [] && r.value == old(link.commandId)
        && link.requests == old(link.requests) + [MoveRequest(r.value, controller, generator)]
      ensures !old(Running()) && (generator.UnknownGenerator? || controller.UnknownController?) ==>
        r == Err(InvalidArgument) && link.requests == old(link.requests)
      ensures r.Err? ==> MaybeRequested(old(link.requests), MoveRequest(old(link.commandId), controller, generator))
      ensures r == old(StartResult(controller, generator))
      ensures !old(Running()) && generator.Generator? && controller.Controller? ==>
        var id := old(link.commandId);
        var outcome := StartOutcome(old(link.udp), old(link.tcp), old(link.received), id, old(messageId), old(ShownModes()),
                                    Modes(generator.mode, controller.mode));
        && (!NextFails(old(link.sendFaults)) && IsRefused(Awaited(old(link.tcp), old(link.received), id)) ==>
              r == Err(MoveRefused(MoveStatusOf(Awaited(old(link.tcp), old(link.received), id).value))))
        && (r.Ok? ==> (InCurrentModes() <==> outcome.Shown?))
        && (r.Ok? && id !in old(link.received) ==>
              (InCurrentModes() <==> Replies(link.tcp, id) + 1 == Replies(old(link.tcp), id)))
    {
      hide RobotImpl.StateIsAccepted, RobotImpl.SentIsWellFormed, Logger.Valid, Guard, Replies, Awaited, AfterAwaited,
           WaitOutcome, HandleMove;
      if MotionGeneratorRunning() || ControllerRunning() {
        return Err(MultipleMotions);
      }
      if generator.UnknownGenerator? {
        return Err(InvalidArgument);
      }
      current := current.(generator := generator.mode);
      if controller.UnknownController? {
        return Err(InvalidArgument);
      }
      current := current.(controller := controller.mode);
      r := ExecuteMove(controller, generator);
      if r.Err? {
        return;
      }
      var waiting := AwaitMotion(r.value);
      if waiting.Err? {
        return Err(waiting.failure);
      }
      var _ := logger.Flush();
    }

    /** Why sending the command until the robot shows that it has stopped will fail, if it will. */
    function RepeatFailure(finished: MotionCommand, control: Option<ControlCommand>): Option<Failure>
      reads this, link
    {
      Repeated(current, finished, control, link.tcp, link.udp, link.sendFaults, messageId, ShownModes())
    }

    lemma StopsAtOnce(finished: MotionCommand, control: Option<ControlCommand>)
      ensures !Running() ==> RepeatFailure(finished, control).None?
    {
    }

    /** One cycle of that. */
    method RepeatOnce(finished: MotionCommand, control: Option<ControlCommand>)
      returns (r: Result<RobotState>, ghost sent: seq<RobotCommand>)
      requires Valid() && Running()
      modifies `robotMode, `generatorMode, `controllerMode, `messageId, `accepted, `sentIn
      modifies link`udp, link`sendFaults, link`sent, logger, logger.states, logger.commands
      ensures Valid() && messageId >= old(messageId) && link.sent == old(link.sent) + sent
      ensures sent == [] || sent == [RobotCommand(old(messageId), Some(finished), control)]
      ensures r.Ok? ==>
        && RepeatFailure(finished, control) == old(RepeatFailure(finished, control))
        && |sent| == 1 && messageId > old(messageId) && |link.udp| < |old(link.udp)|
        && accepted == old(accepted) + [r.value] && logger.logged == old(logger.logged) + [Record(r.value, sent[0])]
      ensures r.Err? ==>
        && old(RepeatFailure(finished, control)) == Some(r.failure) && Running() && accepted == old(accepted)
        && (r.failure == NetworkFailure || r.failure == ProtocolFailure
            || (IsGuard(r.failure) && !current.Fits(Some(finished), control)))
    {
      hide RobotImpl.StateIsAccepted, RobotImpl.SentIsWellFormed, RobotImpl.LogIsOrdered, Logger.Valid, Guard,
           Modes.Fits, Refusal, FaultsLeft, Acceptable, AfterAcceptable;
      GuardsAreExact(current, Some(finished), control);
      r := Update(Some(finished), control);
      sent := if link.sent == old(link.sent) then [] else [RobotCommand(old(messageId), Some(finished), control)];
    }

    /** Sends the command until the robot shows that it has stopped. */
    method RepeatUntilStopped(finished: MotionCommand, control: Option<ControlCommand>)
      returns (r: Result<Unit>, ghost sends: seq<RobotCommand>)
      requires Valid() && Running()
      modifies `robotMode, `generatorMode, `controllerMode, `messageId, `accepted, `sentIn
      modifies link`udp, link`sendFaults, link`sent, logger, logger.states, logger.commands
      ensures Valid() && old(accepted) <= accepted && messageId >= old(messageId)
      ensures link.sent == old(link.sent) + sends && FinishingSends(sends, old(messageId), messageId, finished, control)
      ensures r.Ok? ==> !Running() && Logged(old(logger.logged), old(|accepted|), sends)
      ensures r == Outcome(old(RepeatFailure(finished, control)))
      ensures r.Err? ==> Running()
      ensures r.Err? ==>
        || r.failure == NetworkFailure || r.failure == ProtocolFailure
        || (IsGuard(r.failure) && !current.Fits(Some(finished), control))
    {
      hide RobotImpl.Valid, FinishingSends, Modes.Fits, Cycles, RobotImpl.RepeatFailure;
      NoSends(messageId, finished, control);
      NoCycles();
      assert accepted[|old(accepted)|..] == [];
      sends := [];
      while MotionGeneratorRunning() || ControllerRunning()
        invariant Valid() && link.sent == old(link.sent) + sends && messageId >= old(messageId)
          && old(accepted) <= accepted
        invariant FinishingSends(sends, old(messageId), messageId, finished, control)
        invariant sends == [] || sends[|sends| - 1].messageId < messageId
        invariant Logged(old(logger.logged), old(|accepted|), sends)
        invariant RepeatFailure(finished, control) == old(RepeatFailure(finished, control))
        decreases |link.udp|
      {
        ghost var id, states := messageId, accepted[|old(accepted)|..];
        var state;
        ghost var sent;
        state, sent := RepeatOnce(finished, control);
        MoreSends(sends, old(messageId), id, messageId, finished, control);
        if state.Ok? {
          OneMoreCycle(states, sends, state.value, RobotCommand(id, Some(finished), control));
          assert accepted[|old(accepted)|..] == states + [state.value];
        }
        if sent != [] {
          sends := sends + [RobotCommand(id, Some(finished), control)];
        }
        if state.Err? {
          return Err(state.failure), sends;
        }
      }
      StopsAtOnce(finished, control);
      r := Ok(Unit);
    }

    /** Since an earlier point, every command that was sent was answered by a state, and both were logged together. */
    ghost predicate Logged(before: seq<LogRecord>, from: nat, sends: seq<RobotCommand>)
      reads `accepted, logger`logged
    {
      && |accepted| == from + |sends|
      && logger.logged == before + Cycles(accepted[from..], sends)
    }

    /** Takes the response that ends a motion which has stopped. */
    method TakeFinalResponse(motionId: Word) returns (r: Result<Unit>)
      requires Valid() && !Running()
      modifies `current, link`tcp, link`received, logger
      ensures Valid()
      ensures r == Finished(Awaited(old(link.tcp), old(link.received), motionId), LastN(old(logger.logged), logger.logSize))
      ensures current == if r.Ok? then STOPPED else old(current)
      ensures r.Err? ==> IsOrderedReport(r.failure)
      ensures r.Err? ==> r.failure == NetworkFailure || r.failure == ProtocolFailure || r.failure.MotionAborted?
    {
      hide RobotImpl.StateIsAccepted, RobotImpl.SentIsWellFormed, Logger.Valid, CreateControlException, Awaited,
           AfterAwaited, Replies, LastN, MoveStatusOf;
      var response := link.TcpBlockingReceiveResponse(motionId);
      if response.Err? {
        return Err(response.failure);
      }
      StatusIsRead(response.value);
      var status := MoveStatusOf(response.value);
      var failure := HandleMove(response.value, MotionGeneratorRunning());
      if status.ReflexAborted? || (failure.Some? && failure.value.MoveRefused?) {
        OrderedReport(status, logger.logged, logger.logSize);
        var log := logger.Flush();
        return Err(CreateControlException(status, log));
      }
      if failure.Some? {
        return Err(failure.value);
      }
      current := STOPPED;
      r := Ok(Unit);
    }

    /** Sends the last command, flagged as finished, until the robot shows that it has stopped; then takes the Move response. */
    method FinishMotion(motionId: Word, motion: Option<MotionCommand>, control: Option<ControlCommand>)
      returns (r: Result<Unit>, ghost sends: seq<RobotCommand>)
      requires Valid()
      modifies `robotMode, `generatorMode, `controllerMode, `messageId, `accepted, `sentIn, `current
      modifies link`udp, link`tcp, link`received, link`sendFaults, link`sent, logger, logger.states, logger.commands
      ensures Valid() && link.sent == old(link.sent) + sends && old(accepted) <= accepted && messageId >= old(messageId)
      ensures !old(Running()) ==> r.Ok? && sends == []
      ensures old(Running()) && motion.None? ==> r == Err(NoMotionCommand) && sends == []
      ensures motion.Some? ==> r != Err(NoMotionCommand)
      ensures r.Err? ==> !r.failure.StopRefused?
      ensures motion.Some? ==>
        FinishingSends(sends, old(messageId), messageId, motion.value.(finished := true), control)
      ensures r.Ok? ==> !Running() && current == STOPPED
      ensures r.Err? ==>
        current == old(current) && (IsGuard(r.failure) ==> !old(current).Fits(motion, control))
        && IsOrderedReport(r.failure)
      ensures old(Running()) && motion.Some? ==>
        var failure := old(RepeatFailure(motion.value.(finished := true), control));
        (failure.Some? <==> Running()) && (failure.Some? ==> r == Err(failure.value))
      ensures old(Running()) && motion.Some? && !Running() ==>
        && |accepted| == |old(accepted)| + |sends|
        && r == Finished(Awaited(old(link.tcp), old(link.received), motionId),
                         LastN(old(logger.logged) + Cycles(accepted[|old(accepted)|..], sends), logger.logSize))
    {
      hide RobotImpl.StateIsAccepted, RobotImpl.SentIsWellFormed, RobotImpl.LogIsOrdered, Logger.Valid,
           CreateControlException, Awaited, Finished, LastN, Cycles, FinishingSends, IncreasingLog;
      if motion.Some? {
        NoSends(messageId, motion.value.(finished := true), control);
      }
      sends := [];
      if !MotionGeneratorRunning() && !ControllerRunning() {
        current := STOPPED;
        return Ok(Unit), sends;
      }
      if motion.None? {
        return Err(NoMotionCommand), sends;
      }
      r, sends := RepeatUntilStopped(motion.value.(finished := true), control);
      if r.Err? {
        return;
      }
      r := TakeFinalResponse(motionId);
    }

    method ExecuteStopMove() returns (r: Result<Word>)
      modifies link`sendFaults, link`commandId, link`requests, link`tcp, link`received
      ensures link.commandId == (old(link.commandId) + 1) % 0x1_0000_0000
      ensures link.requests
           == old(link.requests) + if NextFails(old(link.sendFaults)) then [] else [StopMoveRequest(old(link.commandId))]
      ensures r.Ok? ==> r.value == old(link.commandId) && !NextFails(old(link.sendFaults))
      ensures !NextFails(old(link.sendFaults)) ==>
        var reply := Awaited(old(link.tcp), old(link.received), old(link.commandId));
        r == if reply.Err? then Err(reply.failure)
             else if reply.value == 0 then Ok(old(link.commandId))
             else if reply.value <= 5 then Err(StopRefused(reply.value))
             else Err(ProtocolFailure)
      ensures r.Ok? ==> link.tcp == AfterAwaited(old(link.tcp), old(link.received), old(link.commandId)).0
      ensures r.Err? && NextFails(old(link.sendFaults)) ==> r == Err(NetworkFailure)
    {
      hide Awaited;
      r := link.TcpSendRequest((id: Word) => StopMoveRequest(id));
      if r.Err? {
        return;
      }
      var response := link.TcpBlockingReceiveResponse(r.value);
      if response.Err? {
        return Err(response.failure);
      }
      var failure := HandleStopMove(response.value);
      if failure.Some? {
        return Err(failure.value);
      }
    }

    /** Waits until a new state shows that the robot has stopped. */
    method AwaitStop() returns (r: Result<Unit>)
      requires Valid()
      modifies `robotMode, `generatorMode, `controllerMode, `messageId, `accepted, link`udp
      ensures Valid() && old(accepted) <= accepted && messageId >= old(messageId)
      ensures r == Outcome(Stopping(old(link.udp), old(messageId)))
      ensures r.Ok? ==> !Running() && |accepted| > |old(accepted)|
    {
      hide RobotImpl.StateIsAccepted, RobotImpl.SentIsWellFormed, RobotImpl.LogIsOrdered, Logger.Valid, Acceptable,
           AfterAcceptable;
      while true
        invariant Valid() && old(accepted) <= accepted && messageId >= old(messageId)
        invariant Stopping(link.udp, messageId) == Stopping(old(link.udp), old(messageId))
        decreases |link.udp|
      {
        var state := ReceiveRobotState();
        if state.Err? {
          return Err(state.failure);
        }
        if !MotionGeneratorRunning() && !ControllerRunning() {
          break;
        }
      }
      r := Ok(Unit);
    }

    /** Asks the robot to stop and waits until it has; sends no commands. */
    method CancelMotion(motionId: Word) returns (r: Result<Unit>)
      requires Valid()
      modifies `robotMode, `generatorMode, `controllerMode, `messageId, `accepted, `current
      modifies link`udp, link`tcp, link`received, link`sendFaults, link`commandId, link`requests
      ensures Valid() && old(accepted) <= accepted && messageId >= old(messageId)
      ensures r.Ok? ==> !Running() && current == STOPPED && |accepted| > |old(accepted)| && motionId !in link.received
      ensures link.requests
           == old(link.requests) + if NextFails(old(link.sendFaults)) then [] else [StopMoveRequest(old(link.commandId))]
      ensures r.Ok? ==> !NextFails(old(link.sendFaults))
      ensures r.Ok? ==> Awaited(old(link.tcp), old(link.received), old(link.commandId)) == Ok(0)
      ensures r == Cancelled(old(link.udp), old(link.tcp), old(link.received), old(link.sendFaults), old(link.commandId),
                             old(messageId))
      ensures r.Err? ==> current == old(current)
      ensures link.commandId == (old(link.commandId) + 1) % 0x1_0000_0000
    {
      hide RobotImpl.StateIsAccepted, RobotImpl.SentIsWellFormed, RobotImpl.LogIsOrdered, Logger.Valid, Acceptable,
           Awaited, AfterAwaited, Stopping, AfterRead, Replies;
      var stop := ExecuteStopMove();
      if stop.Err? {
        return Err(stop.failure);
      }
      var stopped := AwaitStop();
      if stopped.Err? {
        return Err(stopped.failure);
      }
      var ignored := link.TcpReceiveResponse(motionId, (_: Byte) => None);
      if ignored.Err? {
        return Err(ignored.failure);
      }
      current := STOPPED;
      r := Ok(Unit);
    }
  }

  // ----- How a start ends -----

  /** The modes shown once n more states have been accepted, if so many are. */
  function ShownAt(udp: seq<UdpEvent>, messageId: nat, shown: Modes, n: nat): Option<Modes>
    decreases n
  {
    if n == 0 then Some(shown)
    else
      match Acceptable(udp, messageId)
      case Err(_) => None
      case Ok(s) =>
        ShownAt(AfterAcceptable(udp, messageId), s.messageId, Modes(s.generatorMode, s.controllerMode), n - 1)
  }

  /** The n-th accepted state is the first to show the modes. */
  ghost predicate FirstToShow(udp: seq<UdpEvent>, messageId: nat, shown: Modes, wanted: Modes, n: nat) {
    && ShownAt(udp, messageId, shown, n) == Some(wanted)
    && forall k: nat :: k < n ==> ShownAt(udp, messageId, shown, k) != Some(wanted)
  }

  /** The first n reads bring neither a response under the id nor a failure, nor is the connection found broken. */
  ghost predicate Quiet(tcp: seq<TcpEvent>, id: Word, n: nat) {
    && (forall k :: 0 <= k < n && k < |tcp| ==> tcp[k].Nothing? || (tcp[k].Response? && tcp[k].id != id))
    && (0 < n < |tcp| ==> !Broken(tcp[n..]))
  }

  ghost predicate ShowsAfter(udp: seq<UdpEvent>, tcp: seq<TcpEvent>, received: map<Word, Byte>, id: Word, messageId: nat,
                             shown: Modes, wanted: Modes, n: nat) {
    && FirstToShow(udp, messageId, shown, wanted, n)
    && Quiet(tcp, id, n) && (n > 0 ==> id !in received)
  }

  /** The modes are shown exactly if, for some n, the n-th accepted state is the first to show them, and no response to the
      request is there or comes in with the n reads before it. */
  lemma ShownIff(udp: seq<UdpEvent>, tcp: seq<TcpEvent>, received: map<Word, Byte>, id: Word, messageId: nat,
                 shown: Modes, wanted: Modes)
    ensures WaitOutcome(udp, tcp, received, id, messageId, shown, wanted).Shown?
       <==> exists n: nat :: ShowsAfter(udp, tcp, received, id, messageId, shown, wanted, n)
  {
    hide WaitOutcome, ShowsAfter;
    if WaitOutcome(udp, tcp, received, id, messageId, shown, wanted).Shown? {
      var n := ShownMeansShows(udp, tcp, received, id, messageId, shown, wanted);
    }
    if n: nat :| ShowsAfter(udp, tcp, received, id, messageId, shown, wanted, n) {
      ShowsMeansShown(udp, tcp, received, id, messageId, shown, wanted, n);
    }
  }

  lemma {:induction false} ShownMeansShows(udp: seq<UdpEvent>, tcp: seq<TcpEvent>, received: map<Word, Byte>, id: Word,
                                           messageId: nat, shown: Modes, wanted: Modes) returns (n: nat)
    requires WaitOutcome(udp, tcp, received, id, messageId, shown, wanted).Shown?
    ensures ShowsAfter(udp, tcp, received, id, messageId, shown, wanted, n)
    decreases |udp|
  {
    hide Acceptable, AfterAcceptable, HandleMove, ShowsAfter;
    n := 0;
    if shown == wanted {
      ShowsAtOnce(udp, tcp, received, id, messageId, shown, wanted);
    } else {
      var s := Acceptable(udp, messageId).value;
      n := ShownMeansShows(AfterAcceptable(udp, messageId), Tail(tcp), AfterRead(tcp, received), id, s.messageId,
                           Modes(s.generatorMode, s.controllerMode), wanted);
      n := n + 1;
      OneCycleMore(udp, tcp, received, id, messageId, shown, wanted, n);
    }
  }

  lemma {:induction false} ShowsMeansShown(udp: seq<UdpEvent>, tcp: seq<TcpEvent>, received: map<Word, Byte>, id: Word,
                                           messageId: nat, shown: Modes, wanted: Modes, n: nat)
    requires ShowsAfter(udp, tcp, received, id, messageId, shown, wanted, n)
    ensures WaitOutcome(udp, tcp, received, id, messageId, shown, wanted).Shown?
    decreases n
  {
    hide Acceptable, AfterAcceptable, HandleMove, ShowsAfter;
    ShowsAtOnce(udp, tcp, received, id, messageId, shown, wanted);
    if n > 0 {
      OneCycleMore(udp, tcp, received, id, messageId, shown, wanted, n);
      var s := Acceptable(udp, messageId).value;
      ShowsMeansShown(AfterAcceptable(udp, messageId), Tail(tcp), AfterRead(tcp, received), id, s.messageId,
                      Modes(s.generatorMode, s.controllerMode), wanted, n - 1);
    }
  }

  lemma ShowsAtOnce(udp: seq<UdpEvent>, tcp: seq<TcpEvent>, received: map<Word, Byte>, id: Word, messageId: nat,
                    shown: Modes, wanted: Modes)
    ensures ShowsAfter(udp, tcp, received, id, messageId, shown, wanted, 0) <==> shown == wanted
  {
  }

  lemma OneCycleMore(udp: seq<UdpEvent>, tcp: seq<TcpEvent>, received: map<Word, Byte>, id: Word, messageId: nat,
                     shown: Modes, wanted: Modes, n: nat)
    requires n > 0
    ensures ShowsAfter(udp, tcp, received, id, messageId, shown, wanted, n)
       <==> && shown != wanted && ReadFailure(tcp).None? && id !in AfterRead(tcp, received)
            && Observed(Tail(tcp), udp, messageId).Ok?
            && var s := Observed(Tail(tcp), udp, messageId).value;
               ShowsAfter(AfterAcceptable(udp, messageId), Tail(tcp), AfterRead(tcp, received), id, s.messageId,
                          Modes(s.generatorMode, s.controllerMode), wanted, n - 1)
  {
    QuietStep(tcp, received, id, n);
    FirstStep(udp, messageId, shown, wanted, n);
    hide Acceptable, AfterAcceptable, Quiet, FirstToShow, ReadFailure, AfterRead, Tail, Broken;
  }

  lemma QuietStep(tcp: seq<TcpEvent>, received: map<Word, Byte>, id: Word, n: nat)
    requires n > 0
    ensures Quiet(tcp, id, n) && id !in received
       <==> && ReadFailure(tcp).None? && id !in AfterRead(tcp, received) && !Broken(Tail(tcp))
            && Quiet(Tail(tcp), id, n - 1)
  {
    if tcp != [] && !Silent(tcp) {
      assert forall k :: 0 <= k < |tcp| - 1 ==> tcp[1..][k] == tcp[k + 1];
      assert n < |tcp| ==> tcp[1..][n - 1..] == tcp[n..];
    }
  }

  lemma FirstStep(udp: seq<UdpEvent>, messageId: nat, shown: Modes, wanted: Modes, n: nat)
    requires n > 0
    ensures FirstToShow(udp, messageId, shown, wanted, n)
       <==> && shown != wanted && Acceptable(udp, messageId).Ok?
            && var s := Acceptable(udp, messageId).value;
               FirstToShow(AfterAcceptable(udp, messageId), s.messageId, Modes(s.generatorMode, s.controllerMode), wanted,
                           n - 1)
  {
    hide Acceptable, AfterAcceptable;
    assert ShownAt(udp, messageId, shown, 0) == Some(shown);
    if Acceptable(udp, messageId).Ok? {
      var s, rest := Acceptable(udp, messageId).value, AfterAcceptable(udp, messageId);
      var modes := Modes(s.generatorMode, s.controllerMode);
      assert forall k: nat :: k > 0 ==> ShownAt(udp, messageId, shown, k) == ShownAt(rest, s.messageId, modes, k - 1);
      if FirstToShow(udp, messageId, shown, wanted, n) {
        forall k: nat | k < n - 1
          ensures ShownAt(rest, s.messageId, modes, k) != Some(wanted)
        {
          assert ShownAt(udp, messageId, shown, k + 1) != Some(wanted);
        }
      }
    }
  }

  /** A motion that starts as it should: its request is answered, then a state shows the modes. Whatever else comes later,
      the final response to the request included, the start ends with the modes shown. */
  lemma OrderlyStart(udp: seq<UdpEvent>, id: Word, messageId: nat, shown: Modes, wanted: Modes, later: seq<TcpEvent>)
    requires shown.generator.Idle? && Acceptable(udp, messageId).Ok?
    requires var s := Acceptable(udp, messageId).value; Modes(s.generatorMode, s.controllerMode) == wanted
    requires !Broken(later)
    ensures StartOutcome(udp, [Response(id, 1), Nothing] + later, map[], id, messageId, shown, wanted) == Shown
  {
    hide Acceptable, AfterAcceptable;
    var tcp := [Response(id, 1), Nothing] + later;
    assert tcp[1..] == [Nothing] + later && ([Nothing] + later)[1..] == later;
    assert MoveStatusOf(1) == MotionStarted;
    var none: map<Word, Byte> := map[];
    assert none[id := 1] - {id} == none;
    assert AfterAwaited(tcp, none, id) == ([Nothing] + later, none);
    assert Tail([Nothing] + later) == later && AfterRead([Nothing] + later, none) == none;
    var s := Acceptable(udp, messageId).value;
    assert WaitOutcome(AfterAcceptable(udp, messageId), later, none, id, s.messageId, wanted, wanted) == Shown;
    assert Observed(later, udp, messageId) == Ok(s);
  }

  /** The same motion, with the final response overtaking the state: the start ends without the modes being shown. */
  lemma OvertakenStart(udp: seq<UdpEvent>, id: Word, messageId: nat, shown: Modes, wanted: Modes, later: seq<TcpEvent>)
    requires shown.generator.Idle? && shown != wanted
    ensures StartOutcome(udp, [Response(id, 1), Response(id, 0)] + later, map[], id, messageId, shown, wanted) == Answered
  {
    var tcp := [Response(id, 1), Response(id, 0)] + later;
    assert tcp[1..] == [Response(id, 0)] + later;
    assert MoveStatusOf(1) == MotionStarted && MoveStatusOf(0) == Success;
    var none: map<Word, Byte> := map[];
    assert none[id := 1] - {id} == none;
    assert AfterAwaited(tcp, none, id) == ([Response(id, 0)] + later, none);
  }

  /** A run in which startMotion returns normally although the robot does not show the modes. */
  method StartsTooEarly(first: RobotState) returns (robot: RobotImpl, r: Result<Word>)
    requires first.generatorMode.Idle? && !first.controllerMode.ExternalController?
    ensures robot.Valid() && r == Ok(0) && robot.current == Modes(JointVelocity, ExternalController) && !robot.InCurrentModes()
  {
    hide RobotImpl.Valid, StartOutcome;
    var link := new Link([], [Response(0, 1), Response(0, 0)], []);
    robot := new RobotImpl(link, 0, first, Other);
    assert [Response(0, 1), Response(0, 0)] + [] == [Response(0, 1), Response(0, 0)];
    OvertakenStart([], 0, first.messageId, robot.ShownModes(), Modes(JointVelocity, ExternalController), []);
    r := robot.StartMotion(Controller(ExternalController), Generator(JointVelocity));
  }
}
