/** The real-time loop of src/control_loop.cpp. */
module ControlLoops {
  import opened RealMath
  import opened Framing
  import opened Logger
  import opened RobotTypes
  import opened RobotLink
  import opened RobotImpl

  /** What a callback is called with. */
  datatype Call = Call(state: RobotState, step: U64)

  datatype Reply = Reply(values: seq<real>, finished: bool) | Throws

  /** The torques before the first call. */
  const NO_TORQUES := ControlCommand([0.0, 0.0, 0.0, 0.0, 0.0, 0.0, 0.0])

  function FailureOf<T>(r: Result<T>): Option<Failure> {
    if r.Err? then Some(r.failure) else None
  }

  predicate Finishes(r: Reply) {
    r.Reply? && r.finished
  }

  /** Callbacks may remember what they were called with: the last call is the current one. */
  type Callback = seq<Call> -> Reply

  /** Filtering, limiting and checking of what a callback returns; None stands for invalid_argument. */
  type Conversion = (seq<real>, RobotState) -> Option<seq<real>>

  /** The first step is 0, each later one the difference of the times of two states, at least 1. */
  ghost predicate StepsFollowTime(calls: seq<Call>) {
    && (calls != [] ==> calls[0].step == 0)
    && forall i :: 0 < i < |calls| ==>
      calls[i - 1].state.messageId < calls[i].state.messageId
      && calls[i].step == calls[i].state.messageId - calls[i - 1].state.messageId
  }

  ghost predicate InMotion(calls: seq<Call>, modes: Modes) {
    forall c :: c in calls ==> c.state.robotMode.MoveMode? && Modes(c.state.generatorMode, c.state.controllerMode) == modes
  }

  /** What the callback's answer to the last call becomes. */
  function Converted(callback: Callback, convert: Conversion, history: seq<Call>): (r: Option<seq<real>>)
    requires history != []
  {
    match callback(history)
    case Reply(values, finished) => convert(values, history[|history| - 1].state)
    case Throws => None
  }

  /** An exception of the callback, or of the checks of its answer. */
  function AnswerFailure(callback: Callback, convert: Conversion, history: seq<Call>): Option<Failure>
    requires history != []
  {
    if callback(history).Throws? then Some(CallbackFailure)
    else if Converted(callback, convert, history).None? then Some(InvalidArgument)
    else None
  }

  /** The callback's answer to the last call was these values, and did not ask for the end of the motion. */
  ghost predicate Continues(callback: Callback, convert: Conversion, history: seq<Call>, values: seq<real>) {
    history != [] && Converted(callback, convert, history) == Some(values) && !Finishes(callback(history))
  }

  /** Datagram i is the converted answer to call i, not finished, stamped with the id of the state the callback saw. */
  ghost predicate Answers(sends: seq<RobotCommand>, calls: seq<Call>, callback: Callback, convert: Conversion) {
    |sends| <= |calls| && forall i :: 0 <= i < |sends| ==>
      && sends[i].messageId == calls[i].state.messageId
      && sends[i].motion.Some? && !sends[i].motion.value.finished
      && Continues(callback, convert, calls[..i + 1], sends[i].motion.value.values)
  }

  ghost predicate AnswersTorques(sends: seq<RobotCommand>, calls: seq<Call>, callback: Callback, convert: Conversion) {
    |sends| <= |calls| && forall i :: 0 <= i < |sends| ==>
      sends[i].control.Some? && Continues(callback, convert, calls[..i + 1], sends[i].control.value.torques)
  }

  // ----- Time -----

  function TotalTime(calls: seq<Call>): nat {
    if calls == [] then 0 else TotalTime(calls[..|calls| - 1]) + calls[|calls| - 1].step
  }

  /** The steps sum to the time from the first state to the last, however many states were lost. */
  lemma {:induction false} StepsSumToTime(calls: seq<Call>)
    requires StepsFollowTime(calls) && calls != []
    ensures TotalTime(calls) == calls[|calls| - 1].state.messageId - calls[0].state.messageId
  {
    if |calls| > 1 {
      StepsSumToTime(calls[..|calls| - 1]);
    } else {
      assert calls[..0] == [];
    }
  }

  /** Something that adds up its steps sees time zero in the first call only. */
  lemma {:induction false} TimeIsZeroOnce(calls: seq<Call>, i: nat)
    requires StepsFollowTime(calls) && i < |calls|
    ensures TotalTime(calls[..i + 1]) == 0 <==> i == 0
  {
    StepsSumToTime(calls[..i + 1]);
    CallsIncrease(calls);
  }

  // ----- One more call, one more datagram -----

  lemma OneMoreCall(calls: seq<Call>, call: Call, modes: Modes, previous: nat)
    requires StepsFollowTime(calls) && InMotion(calls, modes)
    requires call.state.robotMode.MoveMode? && Modes(call.state.generatorMode, call.state.controllerMode) == modes
    requires if calls == [] then previous == call.state.messageId
             else previous == calls[|calls| - 1].state.messageId < call.state.messageId
    requires call.step == call.state.messageId - previous
    ensures StepsFollowTime(calls + [call]) && InMotion(calls + [call], modes)
  {
    hide Modes.Consistent, WrapSub;
    OneMoreStep(calls, call, previous);
    hide StepsFollowTime;
  }

  lemma OneMoreStep(calls: seq<Call>, call: Call, previous: nat)
    requires StepsFollowTime(calls) && call.step == call.state.messageId - previous
    requires if calls == [] then previous == call.state.messageId
             else previous == calls[|calls| - 1].state.messageId < call.state.messageId
    ensures StepsFollowTime(calls + [call])
  {
    var all, n := calls + [call], |calls|;
    assert calls != [] ==> all[0] == calls[0] && all[n - 1] == calls[n - 1];
    forall i | 0 < i <= n
      ensures all[i - 1].state.messageId < all[i].state.messageId
      ensures all[i].step == all[i].state.messageId - all[i - 1].state.messageId
    {
      assert all[i - 1] == calls[i - 1];
      if i < n {
        assert all[i] == calls[i];
      }
    }
  }

  lemma AnswersKept(sends: seq<RobotCommand>, calls: seq<Call>, call: Call, callback: Callback, convert: Conversion)
    ensures Answers(sends, calls, callback, convert) ==> Answers(sends, calls + [call], callback, convert)
    ensures AnswersTorques(sends, calls, callback, convert) ==> AnswersTorques(sends, calls + [call], callback, convert)
  {
    hide Continues;
    assert forall i {:trigger calls[..i + 1]} :: 0 <= i < |calls| ==> (calls + [call])[..i + 1] == calls[..i + 1];
  }

  lemma OneMoreAnswer(sends: seq<RobotCommand>, calls: seq<Call>, callback: Callback, convert: Conversion,
                      send: RobotCommand)
    requires Answers(sends, calls, callback, convert) && |calls| == |sends| + 1
    requires send.messageId == calls[|sends|].state.messageId && send.motion.Some? && !send.motion.value.finished
    requires Continues(callback, convert, calls, send.motion.value.values)
    ensures Answers(sends + [send], calls, callback, convert)
  {
    hide Continues;
    assert calls[..|calls|] == calls;
  }

  lemma OneMoreTorque(sends: seq<RobotCommand>, calls: seq<Call>, callback: Callback, convert: Conversion,
                      send: RobotCommand)
    requires AnswersTorques(sends, calls, callback, convert) && |calls| == |sends| + 1
    requires send.control.Some? && Continues(callback, convert, calls, send.control.value.torques)
    ensures AnswersTorques(sends + [send], calls, callback, convert)
  {
    hide Continues;
    assert calls[..|calls|] == calls;
  }

  // ----- What a run comes to -----

  /** The motion to be run: the callbacks, and what the connection has in store. */
  datatype Job = Job(motionCallback: Callback, controlCallback: Option<Callback>, convertMotion: Conversion,
                     convertTorques: Conversion, modes: Modes, motionId: Word, tcp: seq<TcpEvent>,
                     received: map<Word, Byte>)

  /** A failure without the records that were logged. */
  function Bare(f: Failure): Failure {
    if f.MotionAborted? then MotionAborted(f.status, None, []) else f
  }

  function BareResult<T>(r: Result<T>): Result<T> {
    if r.Err? then Err(Bare(r.failure)) else r
  }

  /** What the callbacks decide in one cycle. */
  datatype Decision =
    | Failed(failure: Failure)
    | Over(motion: MotionCommand, control: Option<ControlCommand>)
    | On(motion: MotionCommand, control: Option<ControlCommand>)

  function CallAt(state: RobotState, previousTime: U64): Call {
    Call(state, WrapSub(state.messageId, previousTime))
  }

  /** The motion callback is asked first; the torque callback is asked only if the motion goes on. */
  function Decide(job: Job, call: Call, calls: seq<Call>, torques: Option<ControlCommand>): Decision {
    var all := calls + [call];
    var failure := AnswerFailure(job.motionCallback, job.convertMotion, all);
    if failure.Some? then Failed(failure.value)
    else
      var motion := MotionCommand(Converted(job.motionCallback, job.convertMotion, all).value, false);
      if Finishes(job.motionCallback(all)) then Over(motion, torques)
      else if job.controlCallback.None? then On(motion, None)
      else
        var callback := job.controlCallback.value;
        var torqueFailure := AnswerFailure(callback, job.convertTorques, all);
        if torqueFailure.Some? then Failed(torqueFailure.value)
        else
          var control := ControlCommand(Converted(callback, job.convertTorques, all).value);
          if Finishes(callback(all)) then Over(motion, Some(control)) else On(motion, Some(control))
  }

  /** The response to the Move request says why a state shows no motion. */
  function Blame(reply: Result<Byte>): Failure {
    if reply.Err? then reply.failure
    else if 2 <= reply.value <= 11 then MotionAborted(MoveStatusOf(reply.value), None, [])
    else ProtocolFailure
  }

  /** The state that a cycle ends with, if it ends well. */
  function NextState(job: Job, udp: seq<UdpEvent>, sendFaults: seq<bool>, messageId: nat, motion: Option<MotionCommand>,
                     control: Option<ControlCommand>): Result<RobotState> {
    var refusal := Refusal(job.modes, motion, control, sendFaults);
    if Broken(job.tcp) then Err(NetworkFailure)
    else if refusal.Some? then Err(refusal.value)
    else
      match Acceptable(udp, messageId)
      case Err(f) => Err(f)
      case Ok(s) =>
        if s.robotMode.MoveMode? && Modes(s.generatorMode, s.controllerMode) == job.modes then Ok(s)
        else Err(Blame(Awaited(job.tcp, job.received, job.motionId)))
  }

  /** How finishing ends from a state in which the motion runs. */
  function Ended(job: Job, udp: seq<UdpEvent>, sendFaults: seq<bool>, messageId: nat, motion: MotionCommand,
                 control: Option<ControlCommand>): Result<Unit> {
    var failure := Repeated(job.modes, motion.(finished := true), control, job.tcp, udp, sendFaults, messageId,
                            job.modes);
    var reply := Awaited(job.tcp, job.received, job.motionId);
    if failure.Some? then Err(failure.value)
    else if reply.Ok? && reply.value <= 1 then Ok(Unit)
    else Err(Blame(reply))
  }

  /** How the run ends from a state that was accepted in a running motion. */
  function Ending(job: Job, udp: seq<UdpEvent>, sendFaults: seq<bool>, state: RobotState, previousTime: U64,
                  calls: seq<Call>, torques: Option<ControlCommand>): Result<Unit>
    decreases |udp|
  {
    var call, id := CallAt(state, previousTime), state.messageId;
    match Decide(job, call, calls, torques)
    case Failed(f) => Err(f)
    case Over(motion, control) => Ended(job, udp, sendFaults, id, motion, control)
    case On(motion, control) =>
      match NextState(job, udp, sendFaults, id, Some(motion), control)
      case Err(f) => Err(f)
      case Ok(next) =>
        Ending(job, AfterAcceptable(udp, id), FaultsLeft(job.modes, Some(motion), control, sendFaults), next, id,
               calls + [call], control)
  }

  /** How the whole run ends. */
  function Total(job: Job, udp: seq<UdpEvent>, sendFaults: seq<bool>, messageId: nat): Result<Unit> {
    match NextState(job, udp, sendFaults, messageId, None, None)
    case Err(f) => Err(f)
    case Ok(state) =>
      Ending(job, AfterAcceptable(udp, messageId), sendFaults, state, state.messageId, [],
             if job.controlCallback.Some? then Some(NO_TORQUES) else None)
  }

  lemma FinishedBare(reply: Result<Byte>)
    requires reply.Err? ==> !reply.failure.MotionAborted?
    ensures forall log :: BareResult(Finished(reply, log)) ==
                          if reply.Ok? && reply.value <= 1 then Ok(Unit) else Err(Blame(reply))
  {
    hide MoveStatusOf;
  }

  /** How a run goes on after one cycle. */
  lemma EndingUnfolds(job: Job, udp: seq<UdpEvent>, sendFaults: seq<bool>, state: RobotState, previousTime: U64,
                      calls: seq<Call>, torques: Option<ControlCommand>)
    ensures var call, id := CallAt(state, previousTime), state.messageId;
            var decision := Decide(job, call, calls, torques);
            Ending(job, udp, sendFaults, state, previousTime, calls, torques) ==
            if decision.Failed? then Err(decision.failure)
            else if decision.Over? then Ended(job, udp, sendFaults, id, decision.motion, decision.control)
            else
              var next := NextState(job, udp, sendFaults, id, Some(decision.motion), decision.control);
              if next.Err? then Err(next.failure)
              else
                Ending(job, AfterAcceptable(udp, id),
                       FaultsLeft(job.modes, Some(decision.motion), decision.control, sendFaults), next.value, id, calls + [call], decision.control)
  {
  }

  class ControlLoop {
    const robot: RobotImpl
    const motionCallback: Option<Callback>
    const controlCallback: Option<Callback>
    const convertMotion: Conversion
    const convertTorques: Conversion
    var motionId: Word
    /** Why the construction failed, if it did; there is then no loop to run. */
    var refusal: Option<Failure>
    /** What the callbacks have been called with. */
    var motionCalls: seq<Call>
    var controlCalls: seq<Call>

    ghost predicate Started()
      reads this, robot
    {
      && refusal.None? && motionCallback.Some? && motionCalls == controlCalls == []
      && !robot.current.generator.Idle? && (controlCallback.Some? <==> robot.current.controller.ExternalController?)
    }

    constructor WithControl(robot: RobotImpl, controlCallback: Option<Callback>, motionCallback: Option<Callback>,
                            generator: ActiveGenerator, convertMotion: Conversion, convertTorques: Conversion)
      requires robot.Valid()
      modifies robot.Repr()
      ensures robot.Valid() && this.robot == robot && this.motionCallback == motionCallback
        && this.controlCallback == controlCallback
      ensures this.convertMotion == convertMotion && this.convertTorques == convertTorques
      ensures refusal.None? ==>
        && Started() && robot.current == Modes(generator, ExternalController)
        && robot.link.requests
           == old(robot.link.requests) + [MoveRequest(motionId, Controller(ExternalController), Generator(generator))]
      ensures refusal == if motionCallback.None? || controlCallback.None? then Some(InvalidArgument)
                         else FailureOf(old(robot.StartResult(Controller(ExternalController), Generator(generator))))
      ensures robot.link.sent == old(robot.link.sent) && robot.messageId >= old(robot.messageId)
      ensures refusal.Some? ==> !IsGuard(refusal.value) && robot.MaybeRequested(
        old(robot.link.requests),
        MoveRequest(old(robot.link.commandId), Controller(ExternalController), Generator(generator)))
    {
      this.robot, this.motionCallback, this.controlCallback := robot, motionCallback, controlCallback;
      this.convertMotion, this.convertTorques := convertMotion, convertTorques;
      motionId, motionCalls, controlCalls := 0, [], [];
      refusal := Some(InvalidArgument);
      new;
      hide RobotImpl.Valid, RobotImpl.MaybeRequested, RobotImpl.StartResult;
      if controlCallback.None? || motionCallback.None? {
        NothingRequested(Controller(ExternalController), generator);
        return;
      }
      Begin(Controller(ExternalController), generator);
    }

    constructor WithMode(robot: RobotImpl, controller: RequestedController, motionCallback: Option<Callback>,
                         generator: ActiveGenerator, convertMotion: Conversion, convertTorques: Conversion)
      requires robot.Valid()
      modifies robot.Repr()
      ensures robot.Valid() && this.robot == robot && this.motionCallback == motionCallback && controlCallback == None
      ensures this.convertMotion == convertMotion && this.convertTorques == convertTorques
      ensures refusal.None? ==>
        && Started() && controller.Controller? && robot.current == Modes(generator, controller.mode)
        && robot.link.requests == old(robot.link.requests) + [MoveRequest(motionId, controller, Generator(generator))]
      ensures refusal == if motionCallback.None? || controller.UnknownController? || controller.mode.ExternalController?
                         then Some(InvalidArgument)
                         else FailureOf(old(robot.StartResult(controller, Generator(generator))))
      ensures robot.link.sent == old(robot.link.sent) && robot.messageId >= old(robot.messageId)
      ensures refusal.Some? ==> !IsGuard(refusal.value) && robot.MaybeRequested(
        old(robot.link.requests), MoveRequest(old(robot.link.commandId), controller, Generator(generator)))
    {
      this.robot, this.motionCallback, this.controlCallback := robot, motionCallback, None;
      this.convertMotion, this.convertTorques := convertMotion, convertTorques;
      motionId, motionCalls, controlCalls := 0, [], [];
      refusal := Some(InvalidArgument);
      new;
      hide RobotImpl.Valid, RobotImpl.MaybeRequested, RobotImpl.StartResult;
      if motionCallback.None? || controller.UnknownController? || controller.mode.ExternalController? {
        NothingRequested(controller, generator);
        return;
      }
      Begin(controller, generator);
    }

    lemma NothingRequested(controller: RequestedController, generator: ActiveGenerator)
      ensures robot.MaybeRequested(robot.link.requests,
                                   MoveRequest(robot.link.commandId, controller, Generator(generator)))
    {
    }

    /** Starts the motion; a failure is kept as a refusal. */
    method Begin(controller: RequestedController, generator: ActiveGenerator)
      requires robot.Valid() && controller.Controller?
      modifies `motionId, `refusal, robot.Repr()
      ensures robot.Valid() && refusal == FailureOf(old(robot.StartResult(controller, Generator(generator))))
      ensures refusal.None? ==>
        && robot.current == Modes(generator, controller.mode)
        && robot.link.requests == old(robot.link.requests) + [MoveRequest(motionId, controller, Generator(generator))]
      ensures robot.link.sent == old(robot.link.sent) && robot.messageId >= old(robot.messageId)
      ensures refusal.Some? ==> !IsGuard(refusal.value) && robot.MaybeRequested(
        old(robot.link.requests), MoveRequest(old(robot.link.commandId), controller, Generator(generator)))
    {
      hide RobotImpl.Valid, RobotImpl.MaybeRequested, StartOutcome, Replies, Awaited, MoveStatusOf, NextFails,
           RobotImpl.IsAccepted, RobotImpl.IsRefused, RobotImpl.InCurrentModes, RobotImpl.Running, RobotImpl.StartResult;
      var started := robot.StartMotion(controller, Generator(generator));
      if started.Err? {
        refusal := Some(started.failure);
        return;
      }
      motionId, refusal := started.value, None;
    }

    method SpinMotion(state: RobotState, step: U64) returns (command: Result<MotionCommand>, go: bool)
      requires motionCallback.Some?
      modifies `motionCalls
      ensures motionCalls == old(motionCalls) + [Call(state, step)]
      ensures command.Ok? ==>
        && !command.value.finished
        && Converted(motionCallback.value, convertMotion, motionCalls) == Some(command.value.values)
        && go == !Finishes(motionCallback.value(motionCalls))
      ensures AnswerFailure(motionCallback.value, convertMotion, motionCalls)
           == if command.Err? then Some(command.failure) else None
    {
      motionCalls := motionCalls + [Call(state, step)];
      match motionCallback.value(motionCalls)
      case Throws =>
        command, go := Err(CallbackFailure), false;
      case Reply(values, finished) =>
        var converted := convertMotion(values, state);
        command := if converted.None? then Err(InvalidArgument) else Ok(MotionCommand(converted.value, false));
        go := !finished;
    }

    method SpinControl(state: RobotState, step: U64) returns (command: Result<ControlCommand>, go: bool)
      requires controlCallback.Some?
      modifies `controlCalls
      ensures controlCalls == old(controlCalls) + [Call(state, step)]
      ensures command.Ok? ==>
        && Converted(controlCallback.value, convertTorques, controlCalls) == Some(command.value.torques)
        && go == !Finishes(controlCallback.value(controlCalls))
      ensures AnswerFailure(controlCallback.value, convertTorques, controlCalls)
           == if command.Err? then Some(command.failure) else None
    {
      controlCalls := controlCalls + [Call(state, step)];
      match controlCallback.value(controlCalls)
      case Throws =>
        command, go := Err(CallbackFailure), false;
      case Reply(values, finished) =>
        var converted := convertTorques(values, state);
        command := if converted.None? then Err(InvalidArgument) else Ok(ControlCommand(converted.value));
        go := !finished;
    }

    ghost function TheJob(): Job
      reads this, robot`current, robot.link`tcp, robot.link`received
      requires motionCallback.Some?
    {
      Job(motionCallback.value, controlCallback, convertMotion, convertTorques, robot.current, motionId,
              robot.link.tcp, robot.link.received)
    }

    /** Sends the commands, receives the next state and checks it. */
    method Exchange(motion: Option<MotionCommand>, control: Option<ControlCommand>) returns (r: Result<RobotState>)
      requires robot.Valid()
      modifies robot`robotMode, robot`generatorMode, robot`controllerMode, robot`messageId, robot`accepted, robot`sentIn
      modifies robot.link`udp, robot.link`sendFaults, robot.link`sent, robot.link`tcp, robot.link`received
      modifies robot.logger, robot.logger.states, robot.logger.commands
      ensures robot.Valid() && old(robot.accepted) <= robot.accepted && robot.messageId >= old(robot.messageId)
      ensures r.Ok? ==>
        && Moving(r.value) && robot.messageId > old(robot.messageId) && |robot.link.udp| < |old(robot.link.udp)|
        && robot.link.sent == old(robot.link.sent) + Sending(old(robot.messageId), motion, control)
      ensures r.Err? ==>
        && (robot.link.sent == old(robot.link.sent)
            || robot.link.sent == old(robot.link.sent) + Sending(old(robot.messageId), motion, control))
        && (IsGuard(r.failure) ==> Guard(robot.current, motion, control).Some?)
        && r.failure != NoMotionCommand && !r.failure.StopRefused? && IsOrderedReport(r.failure)
      ensures motionCallback.Some? ==>
        BareResult(r) == NextState(old(TheJob()), old(robot.link.udp), old(robot.link.sendFaults), old(robot.messageId),
                                   motion, control)
      ensures r.Ok? ==>
        && robot.messageId == r.value.messageId
        && robot.link.udp == AfterAcceptable(old(robot.link.udp), old(robot.messageId))
        && robot.link.sendFaults == FaultsLeft(robot.current, motion, control, old(robot.link.sendFaults))
        && unchanged(robot.link`tcp, robot.link`received)
    {
      hide RobotImpl.Valid, Guard, Awaited, Acceptable, AfterAcceptable, Refusal, FaultsLeft;
      r := robot.Update(motion, control);
      if r.Err? {
        return;
      }
      var check := robot.ThrowOnMotionError(r.value, motionId);
      if check.Err? {
        return Err(check.failure);
      }
    }

    /** One cycle of the loop; the datagram joins those that were sent before. */
    method Cycle(motion: MotionCommand, control: Option<ControlCommand>,
                 ghost sends: seq<RobotCommand>, ghost base: seq<RobotCommand>, ghost modes: Modes)
      returns (r: Result<RobotState>, ghost all: seq<RobotCommand>)
      requires robot.Valid() && motionCallback.Some? && robot.link.sent == base + sends
      requires robot.current == modes && modes.Fits(Some(motion), control)
      requires Faithful(sends, modes) && Faithful(sends + [RobotCommand(robot.messageId, Some(motion), control)], modes)
      modifies robot`robotMode, robot`generatorMode, robot`controllerMode, robot`messageId, robot`accepted, robot`sentIn
      modifies robot.link`udp, robot.link`sendFaults, robot.link`sent, robot.link`tcp, robot.link`received
      modifies robot.logger, robot.logger.states, robot.logger.commands
      ensures robot.Valid() && robot.messageId >= old(robot.messageId)
      ensures robot.link.sent == base + all && Faithful(all, modes)
      ensures r.Ok? ==>
        && Moving(r.value) && |all| == |sends| + 1
        && robot.messageId > old(robot.messageId) && |robot.link.udp| < |old(robot.link.udp)|
      ensures r.Err? ==> !IsGuard(r.failure) && r.failure != NoMotionCommand && !r.failure.StopRefused?
      ensures BareResult(r) == NextState(old(TheJob()), old(robot.link.udp), old(robot.link.sendFaults),
                                         old(robot.messageId), Some(motion), control)
      ensures r.Ok? ==>
        && robot.messageId == r.value.messageId && TheJob() == old(TheJob())
        && robot.link.udp == AfterAcceptable(old(robot.link.udp), old(robot.messageId))
        && robot.link.sendFaults == FaultsLeft(modes, Some(motion), control, old(robot.link.sendFaults))
    {
      hide RobotImpl.Valid, ControlLoop.Faithful, NextState, AfterAcceptable, FaultsLeft;
      all := sends;
      r := Exchange(Some(motion), control);
      if robot.link.sent != old(robot.link.sent) {
        all := sends + [RobotCommand(old(robot.messageId), Some(motion), control)];
      }
    }

    /** The robot moves, in the modes that were asked for. */
    ghost predicate Moving(state: RobotState)
      reads robot
    {
      robot.ShowsState(state) && state.robotMode.MoveMode? && robot.InCurrentModes()
    }

    /** Every datagram so far answers a call, and at most the last call is not answered yet. */
    ghost predicate Faithful(sends: seq<RobotCommand>, modes: Modes)
      reads this
      requires motionCallback.Some?
    {
      && StepsFollowTime(motionCalls) && InMotion(motionCalls, modes)
      && Answers(sends, motionCalls, motionCallback.value, convertMotion) && |motionCalls| <= |sends| + 1
      && (controlCallback.None? ==> controlCalls == [] && WithoutTorques(sends))
      && (controlCallback.Some? ==>
            controlCalls <= motionCalls && AnswersTorques(sends, controlCalls, controlCallback.value, convertTorques))
    }

    /** All calls are answered, and the state is newer than what they saw. */
    ghost predicate AtHead(sends: seq<RobotCommand>, state: RobotState, previousTime: nat)
      reads this
    {
      && |motionCalls| == |sends|
      && (controlCallback.Some? ==> controlCalls == motionCalls)
      && if motionCalls == [] then previousTime == state.messageId
         else previousTime == motionCalls[|motionCalls| - 1].state.messageId < state.messageId
    }

    /** The last call of one of the callbacks asked for the end of the motion. */
    ghost predicate Finished()
      reads this
      requires motionCallback.Some?
    {
      || Finishes(motionCallback.value(motionCalls))
      || (controlCallback.Some? && controlCalls == motionCalls && Finishes(controlCallback.value(controlCalls)))
    }

    /** What the last call of the callbacks came to, if it was a failure. */
    ghost function CallFailure(): Option<Failure>
      reads this
      requires motionCallback.Some?
    {
      if motionCalls == [] then None
      else if AnswerFailure(motionCallback.value, convertMotion, motionCalls).Some?
      then AnswerFailure(motionCallback.value, convertMotion, motionCalls)
      else if controlCallback.Some? && controlCalls == motionCalls
      then AnswerFailure(controlCallback.value, convertTorques, controlCalls)
      else None
    }

    /** The condition of the loop: the motion callback is asked first; torques stay as they are if it has finished. */
    method Spin(state: RobotState, previousTime: U64, torques: Option<ControlCommand>,
                ghost sends: seq<RobotCommand>, ghost modes: Modes)
      returns (motion: Result<MotionCommand>, control: Option<ControlCommand>, go: bool)
      requires motionCallback.Some? && torques == LastTorques() && (torques.Some? <==> controlCallback.Some?)
      requires Faithful(sends, modes) && AtHead(sends, state, previousTime)
      requires state.robotMode.MoveMode? && Modes(state.generatorMode, state.controllerMode) == modes
      modifies `motionCalls, `controlCalls
      ensures Faithful(sends, modes) && |motionCalls| == |sends| + 1 && motionCalls[|sends|].state == state
      ensures motion.Err? ==> motion.failure == CallbackFailure || motion.failure == InvalidArgument
      ensures CallFailure() == if motion.Err? then Some(motion.failure) else None
      ensures motionCalls == old(motionCalls) + [CallAt(state, previousTime)]
      ensures Decide(TheJob(), CallAt(state, previousTime), old(motionCalls), torques)
           == if motion.Err? then Failed(motion.failure)
              else if go then On(motion.value, control)
              else Over(motion.value, control)
      ensures motion.Ok? ==>
        && control == LastTorques() && (control.Some? <==> controlCallback.Some?) && !motion.value.finished
        && Converted(motionCallback.value, convertMotion, motionCalls) == Some(motion.value.values)
        && (go ==> Faithful(sends + [RobotCommand(state.messageId, Some(motion.value), control)], modes)
                   && (controlCallback.Some? ==> controlCalls == motionCalls))
        && (!go ==> Finished())
    {
      hide StepsFollowTime, InMotion, Answers, AnswersTorques, Converted, WithoutTorques, AnswerFailure;
      control := torques;
      var step := WrapSub(state.messageId, previousTime);
      ghost var call, calls := Call(state, step), motionCalls;
      AnswerFailureKinds(motionCallback.value, convertMotion, motionCalls + [call]);
      if controlCallback.Some? {
        AnswerFailureKinds(controlCallback.value, convertTorques, controlCalls + [call]);
      }
      OneMoreCall(calls, call, modes, previousTime);
      AnswersKept(sends, calls, call, motionCallback.value, convertMotion);
      motion, go := SpinMotion(state, step);
      if motion.Err? || !go {
        return;
      }
      ghost var send := RobotCommand(state.messageId, Some(motion.value), control);
      if controlCallback.Some? {
        AnswersKept(sends, calls, call, controlCallback.value, convertTorques);
        var command;
        command, go := SpinControl(state, step);
        if command.Err? {
          return Err(command.failure), control, false;
        }
        control := Some(command.value);
        if !go {
          return;
        }
        send := send.(control := control);
        OneMoreTorque(sends, controlCalls, controlCallback.value, convertTorques, send);
      } else {
        OneMoreWithout(sends, send);
      }
      OneMoreAnswer(sends, motionCalls, motionCallback.value, convertMotion, send);
    }

    /** The torques that are in force: those converted from the last answer, or the initial ones. */
    ghost function LastTorques(): Option<ControlCommand>
      reads this
    {
      if controlCallback.None? then None
      else if controlCalls == [] then Some(NO_TORQUES)
      else
        match Converted(controlCallback.value, convertTorques, controlCalls)
        case None => None
        case Some(torques) => Some(ControlCommand(torques))
    }

    /** The last datagrams: the converted answer to the last call, flagged as finished, with the torques in force. */
    ghost predicate Finishing(sends: seq<RobotCommand>, finishing: seq<RobotCommand>)
      reads this
      requires motionCallback.Some?
    {
      finishing != [] ==>
        && |motionCalls| == |sends| + 1
        && Converted(motionCallback.value, convertMotion, motionCalls).Some?
        && LastTorques().Some? == controlCallback.Some?
        && exists to: nat :: FinishingSends(
             finishing, motionCalls[|sends|].state.messageId, to,
             MotionCommand(Converted(motionCallback.value, convertMotion, motionCalls).value, true), LastTorques())
    }

    /** What running the loop will come to, but for what is logged. */
    ghost function Result(): Result<Unit>
      reads this, robot, robot.link
      requires motionCallback.Some?
    {
      Total(TheJob(), robot.link.udp, robot.link.sendFaults, robot.messageId)
    }

    lemma NothingTaken()
      requires motionCallback.Some?
      ensures FaultsLeft(robot.current, None, None, robot.link.sendFaults) == robot.link.sendFaults
    {
    }

    /** Finishes the motion with the last command, in a state in which it runs. */
    method FinishLoop(motion: MotionCommand, control: Option<ControlCommand>, ghost sends: seq<RobotCommand>)
      returns (r: Result<Unit>, ghost finishing: seq<RobotCommand>)
      requires robot.Valid() && motionCallback.Some? && !motion.finished && robot.current.Fits(Some(motion), control)
      requires robot.InCurrentModes() && |motionCalls| == |sends| + 1
      requires motionCalls[|sends|].state.messageId == robot.messageId
      requires Converted(motionCallback.value, convertMotion, motionCalls) == Some(motion.values)
      requires control == LastTorques() && (control.Some? <==> controlCallback.Some?)
      modifies robot`robotMode, robot`generatorMode, robot`controllerMode, robot`messageId, robot`accepted, robot`sentIn
      modifies robot`current
      modifies robot.link`udp, robot.link`sendFaults, robot.link`sent, robot.link`tcp, robot.link`received
      modifies robot.logger, robot.logger.states, robot.logger.commands
      ensures robot.Valid() && robot.link.sent == old(robot.link.sent) + finishing
        && robot.messageId >= old(robot.messageId)
      ensures Finishing(sends, finishing)
      ensures BareResult(r) == Ended(old(TheJob()), old(robot.link.udp), old(robot.link.sendFaults), old(robot.messageId),
                                     motion, control)
      ensures r.Ok? ==> !robot.Running() && robot.current == STOPPED
      ensures r.Err? ==>
        && robot.current == old(robot.current)
        && !IsGuard(r.failure) && r.failure != NoMotionCommand && !r.failure.StopRefused?
    {
      hide RobotImpl.Valid, Awaited, Converted, FinishingSends, Repeated, Cycles, LastN,
           ControlLoop.LastTorques;
      FinishedBare(Awaited(robot.link.tcp, robot.link.received, motionId));
      r, finishing := robot.FinishMotion(motionId, Some(motion), control);
    }

    /** The loop, from the first state on. */
    method Loop(first: RobotState, ghost modes: Modes)
      returns (r: Result<Unit>, ghost sends: seq<RobotCommand>, ghost finishing: seq<RobotCommand>)
      requires robot.Valid() && Started() && robot.current == modes && Moving(first)
      modifies `motionCalls, `controlCalls
      modifies robot`robotMode, robot`generatorMode, robot`controllerMode, robot`messageId, robot`accepted, robot`sentIn
      modifies robot`current
      modifies robot.link`udp, robot.link`sendFaults, robot.link`sent, robot.link`tcp, robot.link`received
      modifies robot.logger, robot.logger.states, robot.logger.commands
      ensures robot.Valid() && robot.link.sent == old(robot.link.sent) + sends + finishing
        && robot.messageId >= old(robot.messageId)
      ensures Faithful(sends, modes) && Finishing(sends, finishing)
      ensures BareResult(r) == old(Ending(TheJob(), robot.link.udp, robot.link.sendFaults, first, first.messageId, [],
                                          if controlCallback.Some? then Some(NO_TORQUES) else None))
      ensures CallFailure().Some? ==> r == Err(CallFailure().value)
      ensures r.Ok? ==> !robot.Running() && robot.current == STOPPED && Finished() && |motionCalls| == |sends| + 1
      ensures r.Err? ==>
        && robot.current == modes
        && !IsGuard(r.failure) && r.failure != NoMotionCommand && !r.failure.StopRefused?
    {
      hide RobotImpl.Valid, Awaited, StepsFollowTime, InMotion, Answers, AnswersTorques, Converted, WithoutTorques,
           FinishingSends, AnswerFailure, NextState, Decide, Ending, Ended, AfterAcceptable, FaultsLeft;
      assert this !in robot.Repr() && CallFailure().None?;
      var control := if controlCallback.Some? then Some(NO_TORQUES) else None;
      assert control == LastTorques();
      assert Finishing([], []);
      NothingSent(motionCallback.value, convertMotion, modes);
      if controlCallback.Some? {
        NothingSent(controlCallback.value, convertTorques, modes);
      }
      assert Faithful([], modes);
      hide ControlLoop.CallFailure, ControlLoop.Finished, ControlLoop.LastTorques, ControlLoop.Finishing;
      ghost var job := TheJob();
      ghost var result := Ending(job, robot.link.udp, robot.link.sendFaults, first, first.messageId, [], control);
      sends, finishing := [], [];
      var state, previousTime := first, first.messageId;
      var motion: Result<MotionCommand>, go;
      while true
        invariant robot.Valid() && robot.current == modes && Moving(state) && robot.messageId >= old(robot.messageId)
        invariant robot.link.sent == old(robot.link.sent) + sends
        invariant Faithful(sends, modes) && AtHead(sends, state, previousTime)
          && control == LastTorques() && (control.Some? <==> controlCallback.Some?)
        invariant TheJob() == job && robot.messageId == state.messageId
        invariant result == Ending(job, robot.link.udp, robot.link.sendFaults, state, previousTime, motionCalls, control)
        decreases |robot.link.udp|
      {
        EndingUnfolds(job, robot.link.udp, robot.link.sendFaults, state, previousTime, motionCalls, control);
        motion, control, go := Spin(state, previousTime, control, sends, modes);
        if motion.Err? {
          NotFinishing(sends);
          return Err(motion.failure), sends, finishing;
        }
        if !go {
          break;
        }
        previousTime := state.messageId;
        var next;
        next, sends := Cycle(motion.value, control, sends, old(robot.link.sent), modes);
        if next.Err? {
          NotFinishing(sends);
          return Err(next.failure), sends, finishing;
        }
        state := next.value;
      }
      r, finishing := FinishLoop(motion.value, control, sends);
    }

    lemma NotFinishing(sends: seq<RobotCommand>)
      requires motionCallback.Some?
      ensures Finishing(sends, [])
    {
    }

    /** The body of the try block. */
    method RunLoop() returns (r: Result<Unit>, ghost sends: seq<RobotCommand>, ghost finishing: seq<RobotCommand>)
      requires robot.Valid() && Started()
      modifies `motionCalls, `controlCalls
      modifies robot`robotMode, robot`generatorMode, robot`controllerMode, robot`messageId, robot`accepted, robot`sentIn
      modifies robot`current
      modifies robot.link`udp, robot.link`sendFaults, robot.link`sent, robot.link`tcp, robot.link`received
      modifies robot.logger, robot.logger.states, robot.logger.commands
      ensures robot.Valid() && robot.link.sent == old(robot.link.sent) + sends + finishing
        && robot.messageId >= old(robot.messageId)
      ensures Faithful(sends, old(robot.current)) && Finishing(sends, finishing)
      ensures BareResult(r) == old(Result()) && NO_TORQUES == ControlCommand(seq(7, _ => 0.0))
      ensures CallFailure().Some? ==> r == Err(CallFailure().value)
      ensures r.Ok? ==> !robot.Running() && robot.current == STOPPED && Finished() && |motionCalls| == |sends| + 1
      ensures r.Err? ==>
        && robot.current == old(robot.current)
        && !IsGuard(r.failure) && r.failure != NoMotionCommand && !r.failure.StopRefused?
    {
      hide RobotImpl.Valid, Awaited, StepsFollowTime, InMotion, Answers, AnswersTorques, Converted, WithoutTorques,
           FinishingSends, AnswerFailure, NextState, Ending, AfterAcceptable, FaultsLeft;
      assert this !in robot.Repr() && CallFailure().None?;
      NothingSent(motionCallback.value, convertMotion, robot.current);
      if controlCallback.Some? {
        NothingSent(controlCallback.value, convertTorques, robot.current);
      }
      assert Faithful([], robot.current);
      NotFinishing([]);
      NothingTaken();
      hide ControlLoop.CallFailure, ControlLoop.Finished, ControlLoop.Finishing, ControlLoop.Faithful;
      var first := Exchange(None, None);
      if first.Err? {
        return Err(first.failure), [], [];
      }
      r, sends, finishing := Loop(first.value, robot.current);
    }

    /** Runs the motion to its end; on any failure the motion is cancelled once, and the first failure reported. */
    method Run() returns (r: Result<Unit>, ghost sends: seq<RobotCommand>, ghost finishing: seq<RobotCommand>)
      requires robot.Valid() && Started()
      modifies `motionCalls, `controlCalls, robot.Repr()
      ensures robot.Valid() && robot.link.sent == old(robot.link.sent) + sends + finishing
        && robot.messageId >= old(robot.messageId)
      ensures Faithful(sends, old(robot.current)) && Finishing(sends, finishing)
        && WireTrace(sends, finishing, motionCalls)
      ensures BareResult(r) == old(Result())
      ensures CallFailure().Some? ==> r == Err(CallFailure().value)
      ensures r.Ok? ==>
        !robot.Running() && robot.current == STOPPED && Finished() && |motionCalls| == |sends| + 1
        && robot.link.requests == old(robot.link.requests)
      ensures r.Err? ==>
        && !IsGuard(r.failure) && r.failure != NoMotionCommand && !r.failure.StopRefused?
        && robot.link.commandId == (old(robot.link.commandId) + 1) % 0x1_0000_0000
        && (robot.link.requests == old(robot.link.requests)
            || robot.link.requests == old(robot.link.requests) + [StopMoveRequest(old(robot.link.commandId))])
        && (robot.current == old(robot.current) || (robot.current == STOPPED && !robot.Running()))
    {
      hide RobotImpl.Valid, WireTrace, Total, Cancelled, ControlLoop.Finishing, ControlLoop.Faithful, ControlLoop.CallFailure,
           ControlLoop.Finished, Awaited, NextFails;
      assert this !in robot.Repr();
      r, sends, finishing := RunLoop();
      TraceOfRun(this, sends, finishing, old(robot.current));
      if r.Err? {
        var _ := robot.CancelMotion(motionId);
      }
    }
  }

  /** The datagrams of a run, in the order they were sent: first unfinished ones, then finished ones; each unfinished one
      carries the id of the state its callback saw; ids strictly increase. */
  ghost predicate WireTrace(sends: seq<RobotCommand>, finishing: seq<RobotCommand>, calls: seq<Call>) {
    var all := sends + finishing;
    && |sends| <= |calls|
    && (forall i :: 0 <= i < |all| ==> all[i].motion.Some? && (all[i].motion.value.finished <==> i >= |sends|))
    && (forall i :: 0 <= i < |sends| ==> all[i].messageId == calls[i].state.messageId)
    && (forall i, j :: 0 <= i < j < |all| ==> all[i].messageId < all[j].messageId)
  }

  lemma TraceOfRun(loop: ControlLoop, sends: seq<RobotCommand>, finishing: seq<RobotCommand>, modes: Modes)
    requires loop.motionCallback.Some? && loop.Faithful(sends, modes) && loop.Finishing(sends, finishing)
    ensures WireTrace(sends, finishing, loop.motionCalls)
  {
    var calls := loop.motionCalls;
    hide Converted, Continues, InMotion, AnswersTorques, WithoutTorques;
    CallsIncrease(calls);
  }

  lemma {:induction false} CallsIncrease(calls: seq<Call>)
    requires StepsFollowTime(calls)
    ensures forall i, j :: 0 <= i < j < |calls| ==> calls[i].state.messageId < calls[j].state.messageId
  {
    var n := |calls| - 1;
    if n > 0 {
      CallsIncrease(calls[..n]);
      assert calls[n - 1].state.messageId < calls[n].state.messageId;
      assert forall i :: 0 <= i < n ==> calls[i] == calls[..n][i];
    }
  }

  lemma NothingSent(callback: Callback, convert: Conversion, modes: Modes)
    ensures StepsFollowTime([]) && InMotion([], modes) && WithoutTorques([])
    ensures Answers([], [], callback, convert) && AnswersTorques([], [], callback, convert)
  {
  }

  ghost predicate WithoutTorques(sends: seq<RobotCommand>) {
    forall c :: c in sends ==> c.control.None?
  }

  lemma AnswerFailureKinds(callback: Callback, convert: Conversion, history: seq<Call>)
    requires history != []
    ensures var f := AnswerFailure(callback, convert, history);
            f.Some? ==> f.value == CallbackFailure || f.value == InvalidArgument
  {
  }

  lemma OneMoreWithout(sends: seq<RobotCommand>, send: RobotCommand)
    requires WithoutTorques(sends) && send.control.None?
    ensures WithoutTorques(sends + [send])
  {
  }
}