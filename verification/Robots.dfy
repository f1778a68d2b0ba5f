/** Who may control the robot: the lock of src/robot.cpp and the objects of src/active_control.cpp,
    src/active_motion_generator.cpp and src/active_torque_control.cpp. */
module Robots {
  import opened RealMath
  import opened Framing
  import opened Logger
  import opened RobotTypes
  import opened RobotLink
  import opened RobotImpl
  import opened ControlLoops

  class ControlMutex {
    var locked: bool
    /** The object whose lock it is, when it is not held by a call that is still running. */
    ghost var owner: ActiveControl?

    constructor ()
      ensures !locked && owner == null
    {
      locked, owner := false, null;
    }
  }

  /** What the user passes to writeOnce; invalid stands for values that the checks refuse. */
  datatype Input = Input(values: seq<real>, finished: bool, valid: bool)

  const NO_VELOCITY := MotionCommand([0.0, 0.0, 0.0, 0.0, 0.0, 0.0, 0.0], false)

  function TorquesOf(input: Option<Input>): Option<ControlCommand> {
    if input.None? then None else Some(ControlCommand(input.value.values))
  }

  function LastTime(calls: seq<Call>): Option<U64> {
    if calls == [] then None else Some(calls[|calls| - 1].state.messageId)
  }

  /** What a call to read hands over, given the states that come in. */
  function StatesRead(tcp: seq<TcpEvent>, udp: seq<UdpEvent>, messageId: nat, callback: seq<RobotState> -> bool,
                      seen: seq<RobotState>): Result<seq<RobotState>>
    decreases |udp|
  {
    match Observed(tcp, udp, messageId)
    case Err(f) => Err(f)
    case Ok(s) =>
      if callback(seen + [s]) then StatesRead(tcp, AfterAcceptable(udp, messageId), s.messageId, callback, seen + [s])
      else Ok(seen + [s])
  }

  /** A motion that the user drives cycle by cycle. */
  class ActiveControl {
    const impl: RobotImpl
    const mutex: ControlMutex
    const motionId: Word
    /** The modes asked for; a torque control has no motion input of its own. */
    const modes: Modes
    const torqueOnly: bool
    var controlFinished: bool
    var lastReadAccess: Option<U64>
    /** What the reads that did not fail have returned. */
    ghost var returned: seq<Call>
    /** How the motion has ended, and whether the object is gone. */
    ghost var finishes: nat
    ghost var cancels: nat
    ghost var destroyed: bool

    constructor (impl: RobotImpl, motionId: Word, mutex: ControlMutex, modes: Modes, torqueOnly: bool)
      ensures this.impl == impl && this.mutex == mutex && this.motionId == motionId
      ensures this.modes == modes && this.torqueOnly == torqueOnly
      ensures Live() && lastReadAccess == None && returned == [] && finishes == cancels == 0
    {
      this.impl, this.mutex, this.motionId, this.modes, this.torqueOnly := impl, mutex, motionId, modes, torqueOnly;
      controlFinished, lastReadAccess := false, None;
      returned, finishes, cancels, destroyed := [], 0, 0, false;
    }

    ghost predicate Live()
      reads this
    {
      !controlFinished && !destroyed
    }

    /** It holds the lock exactly while it is live, and ends by exactly one finish or one cancellation. */
    ghost predicate Valid()
      reads this, mutex, impl`current, impl`messageId
    {
      && !modes.generator.Idle? && (torqueOnly ==> modes.controller.ExternalController?)
      && (Live() <==> mutex.owner == this)
      && (Live() ==> mutex.locked && impl.current == modes)
      && (if Live() then finishes == cancels == 0 else finishes + cancels == 1)
      && (controlFinished <==> finishes == 1)
      && (lastReadAccess.Some? ==> lastReadAccess.value <= impl.messageId)
      && StepsFollowTime(returned) && lastReadAccess == LastTime(returned)
    }

    /** The next state, and the time since the state of the last call. */
    method ReadOnce(ghost robot: Robot) returns (r: Result<(RobotState, U64)>)
      requires robot.Valid() && this in robot.owners && !destroyed
      modifies `lastReadAccess, `returned, impl.Repr()
      ensures robot.Valid() && (Live() <==> old(Live())) && impl.link.sent == old(impl.link.sent)
      ensures r.Ok? ==>
        var state, step := r.value.0, r.value.1;
        && impl.accepted == old(impl.accepted) + [state] && lastReadAccess == Some(state.messageId)
        && returned == old(returned) + [Call(state, step)]
        && step == (if old(lastReadAccess).None? then 0 else state.messageId - old(lastReadAccess).value)
        && (old(lastReadAccess).Some? ==> step >= 1)
        && state.robotMode.MoveMode? && (Live() ==> Modes(state.generatorMode, state.controllerMode) == modes)
      ensures r.Err? ==> lastReadAccess == old(lastReadAccess) && returned == old(returned)
      ensures var next := Acceptable(AfterBatch(old(impl.link.udp)), old(impl.messageId));
              && (next.Err? ==> r == Err(next.failure))
              && (r.Ok? <==> next.Ok? && next.value.robotMode.MoveMode?
                             && Modes(next.value.generatorMode, next.value.controllerMode) == impl.current)
    {
      hide StepsFollowTime, RobotImpl.Valid, Robot.OwnersAreValid, Awaited, Acceptable;
      robot.OwnerIsValid(this);
      var state := ReadChecked();
      r := if state.Err? then Err(state.failure) else Ok((state.value, 0));
      if state.Ok? {
        if lastReadAccess.None? {
          lastReadAccess := Some(state.value.messageId);
        }
        var step := WrapSub(state.value.messageId, lastReadAccess.value);
        r := Ok((state.value, step));
        OneMoreStep(returned, Call(state.value, step), lastReadAccess.value);
        lastReadAccess, returned := Some(state.value.messageId), returned + [Call(state.value, step)];
      }
      robot.OwnerActed(this);
    }

    /** A state that shows the motion running as asked for. */
    method ReadChecked() returns (r: Result<RobotState>)
      requires impl.Valid()
      modifies impl`robotMode, impl`generatorMode, impl`controllerMode, impl`messageId, impl`accepted
      modifies impl.link`udp, impl.link`tcp, impl.link`received, impl.logger
      ensures impl.Valid() && impl.messageId >= old(impl.messageId)
      ensures var next := Acceptable(AfterBatch(old(impl.link.udp)), old(impl.messageId));
              && (next.Err? ==> r == Err(next.failure))
              && (r.Ok? <==> next.Ok? && next.value.robotMode.MoveMode?
                             && Modes(next.value.generatorMode, next.value.controllerMode) == impl.current)
      ensures r.Ok? ==>
        && impl.accepted == old(impl.accepted) + [r.value] && impl.messageId == r.value.messageId > old(impl.messageId)
        && r.value.robotMode.MoveMode? && Modes(r.value.generatorMode, r.value.controllerMode) == impl.current
    {
      hide RobotImpl.Valid, Awaited, Acceptable;
      r := impl.ReadOnce();
      if r.Err? {
        return;
      }
      var check := impl.ThrowOnMotionError(r.value, motionId);
      if check.Err? {
        return Err(check.failure);
      }
    }

    /** The motion has been finished: the object gives back the lock. */
    method EndControl()
      requires Live() && mutex.owner == this
      modifies `controlFinished, `finishes, mutex
      ensures controlFinished && finishes == old(finishes) + 1 && !mutex.locked && mutex.owner == null
    {
      controlFinished := true;
      finishes := finishes + 1;
      mutex.locked := false;
      mutex.owner := null;
    }

    /** Why the user's input is refused, if it is. */
    function Refused(valid: bool, torques: Option<Input>): Option<Failure>
      reads `controlFinished
    {
      if controlFinished then Some(MotionHasFinished)
      else if torques.Some? && !modes.controller.ExternalController? then Some(TorquesNotAllowed)
      else if torques.None? && modes.controller.ExternalController? then Some(TorquesMissing)
      else if !valid || (torques.Some? && !torques.value.valid) then Some(InvalidArgument)
      else None
    }

    /** The user's cycle of a motion generator, with torques for an external controller. */
    method WriteOnce(input: Input, torques: Option<Input>, ghost robot: Robot)
      returns (r: Result<Unit>, ghost sends: seq<RobotCommand>)
      requires robot.Valid() && this in robot.owners && !destroyed && !torqueOnly
      modifies `controlFinished, `finishes, mutex, impl.Repr()
      ensures robot.Valid() && impl.link.sent == old(impl.link.sent) + sends
      ensures old(Refused(input.valid, torques)).Some? ==>
        r == Err(old(Refused(input.valid, torques)).value) && unchanged(this, mutex, impl.Repr())
      ensures old(Refused(input.valid, torques)).None? ==>
        if input.finished || (torques.Some? && torques.value.finished)
        then Ends(r, old(impl.messageId), sends, MotionCommand(input.values, false), TorquesOf(torques))
        else Sends(r, old(impl.messageId), old(impl.link.sendFaults), sends, MotionCommand(input.values, false),
                   TorquesOf(torques))
      ensures r.Err? ==> !IsGuard(r.failure) && (Live() <==> old(Live()))
    {
      hide RobotImpl.Valid, Robot.OwnersAreValid, Awaited, FinishingSends, StepsFollowTime, ActiveControl.Ends,
           ActiveControl.Sends;
      sends := [];
      if controlFinished {
        return Err(MotionHasFinished), sends;
      }
      robot.OwnerIsValid(this);
      if torques.Some? && !modes.controller.ExternalController? {
        return Err(TorquesNotAllowed), sends;
      }
      if torques.None? && modes.controller.ExternalController? {
        return Err(TorquesMissing), sends;
      }
      if !input.valid || (torques.Some? && !torques.value.valid) {
        return Err(InvalidArgument), sends;
      }
      r, sends := FinishOrWrite(input.finished || (torques.Some? && torques.value.finished),
                                MotionCommand(input.values, false), TorquesOf(torques));
      robot.OwnerActed(this);
    }

    /** The user's cycle of a torque control; the motion generator is commanded to stand still. */
    method WriteTorquesOnce(torques: Input, ghost robot: Robot) returns (r: Result<Unit>, ghost sends: seq<RobotCommand>)
      requires robot.Valid() && this in robot.owners && !destroyed && torqueOnly
      modifies `controlFinished, `finishes, mutex, impl.Repr()
      ensures robot.Valid() && impl.link.sent == old(impl.link.sent) + sends
      ensures NO_VELOCITY == MotionCommand(seq(7, _ => 0.0), false)
      ensures old(Refused(true, Some(torques))).Some? ==>
        r == Err(old(Refused(true, Some(torques))).value) && unchanged(this, mutex, impl.Repr())
      ensures old(Refused(true, Some(torques))).None? ==>
        if torques.finished then Ends(r, old(impl.messageId), sends, NO_VELOCITY, TorquesOf(Some(torques)))
        else Sends(r, old(impl.messageId), old(impl.link.sendFaults), sends, NO_VELOCITY, TorquesOf(Some(torques)))
      ensures r.Err? ==> !IsGuard(r.failure) && (Live() <==> old(Live()))
    {
      hide RobotImpl.Valid, Robot.OwnersAreValid, Awaited, FinishingSends, StepsFollowTime, ActiveControl.Ends,
           ActiveControl.Sends;
      sends := [];
      if controlFinished {
        return Err(MotionHasFinished), sends;
      }
      robot.OwnerIsValid(this);
      if !torques.valid {
        return Err(InvalidArgument), sends;
      }
      r, sends := FinishOrWrite(torques.finished, NO_VELOCITY, TorquesOf(Some(torques)));
      robot.OwnerActed(this);
    }

    /** The last command is sent, flagged as finished; on success the motion has been finished normally and nothing runs
        any more. */
    ghost predicate Ends(r: Result<Unit>, id: U64, sends: seq<RobotCommand>, motion: MotionCommand,
                         control: Option<ControlCommand>)
      reads this, mutex, impl
    {
      && FinishingSends(sends, id, impl.messageId, motion.(finished := true), control)
      && (r.Ok? ==> controlFinished && finishes == 1 && !mutex.locked && !impl.Running() && impl.current == STOPPED)
    }

    /** One unfinished command is sent, unless the connection is broken or sending fails. */
    ghost predicate Sends(r: Result<Unit>, id: U64, sendFaults: seq<bool>, sends: seq<RobotCommand>, motion: MotionCommand,
                          control: Option<ControlCommand>)
      reads this, impl.link`tcp
    {
      && Live()
      && r == (if Broken(impl.link.tcp) || NextFails(sendFaults) then Err(NetworkFailure) else Ok(Unit))
      && sends == if r.Ok? then [RobotCommand(id, Some(motion), control)] else []
    }

    method FinishOrWrite(ending: bool, motion: MotionCommand, control: Option<ControlCommand>)
      returns (r: Result<Unit>, ghost sends: seq<RobotCommand>)
      requires impl.Valid() && Valid() && Live() && (control.Some? <==> modes.controller.ExternalController?)
      modifies `controlFinished, `finishes, mutex, impl.Repr()
      ensures impl.Valid() && Valid() && impl.messageId >= old(impl.messageId)
      ensures impl.link.sent == old(impl.link.sent) + sends
      ensures if ending then Ends(r, old(impl.messageId), sends, motion, control)
              else Sends(r, old(impl.messageId), old(impl.link.sendFaults), sends, motion, control)
      ensures r.Ok? && ending ==> mutex.owner == null && !mutex.locked
      ensures r.Err? || !ending ==> Live() && mutex.owner == this && mutex.locked
      ensures r.Err? ==> !IsGuard(r.failure)
    {
      hide RobotImpl.Valid, Awaited, FinishingSends, Finished, Cycles, LastN;
      if !ending {
        sends := [];
        r := impl.WriteOnce(Some(motion), control);
        if r.Ok? {
          sends := [RobotCommand(old(impl.messageId), Some(motion), control)];
        }
        return;
      }
      r, sends := impl.FinishMotion(motionId, Some(motion), control);
      if r.Ok? {
        EndControl();
      }
    }

    /** The destructor: an unfinished motion is cancelled. If that fails, the program is terminated. */
    method Destroy(ghost robot: Robot) returns (r: Result<Unit>)
      requires robot.Valid() && this in robot.owners && !destroyed
      modifies `cancels, `destroyed, mutex, impl.Repr()
      ensures r.Ok? ==> robot.Valid() && destroyed && finishes + cancels == 1
      ensures r == if old(controlFinished) then Ok(Unit)
                   else old(Cancelled(impl.link.udp, impl.link.tcp, impl.link.received, impl.link.sendFaults,
                                      impl.link.commandId, impl.messageId))
      ensures r.Ok? && old(controlFinished) ==>
        cancels == 0 && impl.link.requests == old(impl.link.requests) && mutex.locked == old(mutex.locked)
      ensures r.Ok? && !old(controlFinished) ==>
        cancels == 1 && !mutex.locked && !impl.Running() && impl.current == STOPPED
    {
      hide RobotImpl.Valid, Robot.OwnersAreValid, Awaited, Cancelled, StepsFollowTime, NextFails;
      robot.OwnerIsValid(this);
      r := Ok(Unit);
      if !controlFinished {
        r := impl.CancelMotion(motionId);
        if r.Err? {
          return;
        }
        cancels := cancels + 1;
        mutex.locked := false;
        mutex.owner := null;
      }
      destroyed := true;
      robot.OwnerActed(this);
    }
  }

  class Robot {
    const impl: RobotImpl
    const mutex: ControlMutex
    /** All motions that were ever handed to the user. */
    ghost var owners: set<ActiveControl>

    constructor (impl: RobotImpl)
      requires impl.Valid()
      ensures Valid() && this.impl == impl && owners == {} && !mutex.locked
    {
      this.impl := impl;
      mutex := new ControlMutex();
      owners := {};
    }

    ghost predicate Valid()
      reads this, mutex, owners, impl.Repr()
    {
      && impl.Valid()
      && OwnersAreValid()
      && (mutex.locked <==> mutex.owner != null)
    }

    ghost predicate OwnersAreValid()
      reads this, mutex, owners, impl`current, impl`messageId
    {
      && (mutex.owner != null ==> mutex.owner in owners)
      && forall a :: a in owners ==> a.impl == impl && a.mutex == mutex && a.Valid()
    }

    lemma OwnerIsValid(a: ActiveControl)
      requires Valid() && a in owners
      ensures a.impl == impl && a.mutex == mutex && a.Valid()
    {
    }

    /** What one owner does leaves the others as they are. */
    twostate lemma OwnerActed(actor: ActiveControl)
      requires old(Valid()) && actor in owners && unchanged(this)
      requires forall a :: a in owners && a != actor ==> unchanged(a)
      requires actor.Valid() && impl.messageId >= old(impl.messageId)
      requires mutex.owner == old(mutex.owner) || (old(mutex.owner) == actor && mutex.owner == null)
      requires old(mutex.owner) != actor ==> impl.current == old(impl.current) && mutex.locked == old(mutex.locked)
      ensures OwnersAreValid()
    {
    }

    /** While nobody drives the robot, what a call does with it is no business of those who did. */
    twostate lemma OwnersUndisturbed()
      requires old(Valid()) && old(mutex.owner) == null && unchanged(this) && unchanged(owners)
        && unchanged(mutex`owner)
      requires impl.messageId >= old(impl.messageId)
      ensures OwnersAreValid()
    {
    }

    /** Takes the lock for the duration of a call. */
    method TryLock() returns (r: Result<Unit>)
      requires Valid()
      modifies mutex`locked
      ensures r.Err? <==> old(mutex.locked)
      ensures r.Err? ==> r.failure == InvalidOperation && Valid()
      ensures r.Ok? ==> mutex.locked && mutex.owner == null && impl.Valid()
    {
      if mutex.locked {
        return Err(InvalidOperation);
      }
      mutex.locked := true;
      r := Ok(Unit);
    }

    method ReadOnce() returns (r: Result<RobotState>)
      requires Valid()
      modifies mutex`locked, impl.Repr()
      ensures Valid() && mutex.locked == old(mutex.locked)
      ensures old(mutex.locked) ==> r == Err(InvalidOperation) && unchanged(impl.Repr())
      ensures !old(mutex.locked) ==> r == Acceptable(AfterBatch(old(impl.link.udp)), old(impl.messageId))
    {
      hide RobotImpl.Valid, Acceptable, Robot.OwnersAreValid;
      var locking := TryLock();
      if locking.Err? {
        return Err(locking.failure);
      }
      r := impl.ReadOnce();
      mutex.locked := false;
      OwnersUndisturbed();
    }

    /** Calls back with every state until the callback declines one; sends nothing. */
    method Read(callback: seq<RobotState> -> bool) returns (r: Result<seq<RobotState>>)
      requires Valid()
      modifies mutex`locked, impl.Repr()
      ensures Valid() && mutex.locked == old(mutex.locked) && impl.link.sent == old(impl.link.sent)
      ensures old(mutex.locked) ==> r == Err(InvalidOperation) && unchanged(impl.Repr())
      ensures !old(mutex.locked) ==> r == old(StatesRead(impl.link.tcp, impl.link.udp, impl.messageId, callback, []))
      ensures r.Ok? ==> impl.accepted == old(impl.accepted) + r.value && r.value != [] && !callback(r.value)
      ensures r.Ok? ==> forall k :: 0 < k < |r.value| ==> callback(r.value[..k])
    {
      hide RobotImpl.Valid, Robot.OwnersAreValid;
      var locking := TryLock();
      if locking.Err? {
        return Err(locking.failure);
      }
      r := ReadStates(callback);
      mutex.locked := false;
      OwnersUndisturbed();
    }

    /** The loop of read, while the lock is held. */
    method ReadStates(callback: seq<RobotState> -> bool) returns (r: Result<seq<RobotState>>)
      requires impl.Valid()
      modifies impl.Repr()
      ensures impl.Valid() && impl.messageId >= old(impl.messageId) && impl.link.sent == old(impl.link.sent)
      ensures r == old(StatesRead(impl.link.tcp, impl.link.udp, impl.messageId, callback, []))
      ensures r.Ok? ==> impl.accepted == old(impl.accepted) + r.value && r.value != [] && !callback(r.value)
      ensures r.Ok? ==> forall k :: 0 < k < |r.value| ==> callback(r.value[..k])
    {
      hide RobotImpl.Valid, Guard, Acceptable, AfterAcceptable;
      var states: seq<RobotState> := [];
      while true
        invariant impl.Valid() && impl.messageId >= old(impl.messageId)
        invariant StatesRead(impl.link.tcp, impl.link.udp, impl.messageId, callback, states)
               == old(StatesRead(impl.link.tcp, impl.link.udp, impl.messageId, callback, []))
        invariant impl.link.sent == old(impl.link.sent) && impl.accepted == old(impl.accepted) + states
        invariant forall k :: 0 < k <= |states| ==> callback(states[..k])
        decreases |impl.link.udp|
      {
        var state := impl.Update(None, None);
        if state.Err? {
          return Err(state.failure);
        }
        var seen := states + [state.value];
        assert forall k :: 0 < k < |seen| ==> seen[..k] == states[..k];
        states := seen;
        if !callback(states) {
          return Ok(states);
        }
        assert states[..|states|] == states;
      }
    }

    /** The lock of the call becomes the lock of the new object. */
    method HandOver(motionId: Word, modes: Modes, torqueOnly: bool) returns (control: ActiveControl)
      requires OwnersAreValid() && mutex.locked && mutex.owner == null && impl.current == modes
      requires !modes.generator.Idle? && (torqueOnly ==> modes.controller.ExternalController?)
      modifies `owners, mutex`owner
      ensures OwnersAreValid() && mutex.owner == control && fresh(control) && owners == old(owners) + {control}
      ensures control.Live() && control.modes == modes && control.motionId == motionId
        && control.torqueOnly == torqueOnly
    {
      control := new ActiveControl(impl, motionId, mutex, modes, torqueOnly);
      mutex.owner := control;
      owners := owners + {control};
    }

    /** Starts a motion that the user drives; the new object takes over the lock. */
    method StartControl(generator: ActiveGenerator, controller: RequestedController, torqueOnly: bool)
      returns (r: Result<ActiveControl>)
      requires Valid() && (torqueOnly ==> controller == Controller(ExternalController))
      modifies this, mutex, impl.Repr()
      ensures Valid()
      ensures old(mutex.locked) ==> r == Err(InvalidOperation) && unchanged(this, mutex, impl.Repr())
      ensures r.Err? ==> mutex.locked == old(mutex.locked) && owners == old(owners)
      ensures !old(mutex.locked) ==>
        match old(impl.StartResult(controller, Generator(generator)))
        case Err(f) => r == Err(f)
        case Ok(id) => r.Ok? && r.value.motionId == id
      ensures r.Ok? ==>
        && fresh(r.value) && owners == old(owners) + {r.value} && r.value.Live()
        && controller.Controller? && r.value.modes == Modes(generator, controller.mode)
        && r.value.torqueOnly == torqueOnly
        && impl.link.requests == old(impl.link.requests) + [MoveRequest(r.value.motionId, controller, Generator(generator))]
    {
      hide RobotImpl.Valid, Awaited, Robot.OwnersAreValid, ActiveControl.Valid, StartOutcome, Replies, StepsFollowTime,
           LastTime, MoveStatusOf, RobotImpl.MaybeRequested, RobotImpl.IsAccepted,
           RobotImpl.IsRefused, RobotImpl.StartResult;
      var locking := TryLock();
      if locking.Err? {
        return Err(locking.failure);
      }
      var motionId := impl.StartMotion(controller, Generator(generator));
      if motionId.Err? {
        mutex.locked := false;
        OwnersUndisturbed();
        return Err(motionId.failure);
      }
      OwnersUndisturbed();
      var control := HandOver(motionId.value, Modes(generator, controller.mode), torqueOnly);
      r := Ok(control);
    }

    predicate MovesAs(request: Request, controller: RequestedController, generator: ActiveGenerator) {
      request.MoveRequest? && request.controller == controller && request.generator == Generator(generator)
    }

    /** The requests of a call that failed: perhaps one to move, and then perhaps one to stop. */
    ghost predicate GaveUp(before: seq<Request>, controller: RequestedController, generator: ActiveGenerator)
      reads impl.link`requests
    {
      var requests := impl.link.requests;
      && before <= requests && |requests| <= |before| + 2
      && (|requests| > |before| ==> MovesAs(requests[|before|], controller, generator))
      && (|requests| > |before| + 1 ==> requests[|before| + 1].StopMoveRequest?)
    }

    /** What a call to control comes to once it has the lock: there is no loop if the motion was not started. */
    ghost predicate Controlled(r: Result<Unit>, before: seq<Request>, controller: RequestedController,
                               generator: ActiveGenerator, loop: ControlLoop?)
      reads this, impl, impl.link`requests, loop
    {
      var requests := impl.link.requests;
      if r.Ok? then
        && !impl.Running() && impl.current == STOPPED && loop != null && loop.motionCallback.Some? && loop.Finished()
        && |requests| == |before| + 1 && before <= requests && MovesAs(requests[|before|], controller, generator)
      else
        !IsGuard(r.failure) && GaveUp(before, controller, generator)
    }

    /** The datagrams are those of a loop over the given callbacks, in the modes asked for. */
    ghost predicate Looped(r: Result<Unit>, loop: ControlLoop?, sends: seq<RobotCommand>, finishing: seq<RobotCommand>,
                           controlCallback: Option<Callback>, motionCallback: Option<Callback>,
                           convertMotion: Conversion, convertTorques: Conversion, modes: Modes)
      reads loop
    {
      if loop == null then sends == finishing == []
      else
        && loop.motionCallback == motionCallback && loop.controlCallback == controlCallback && motionCallback.Some?
        && loop.convertMotion == convertMotion && loop.convertTorques == convertTorques
        && loop.Faithful(sends, modes) && loop.Finishing(sends, finishing)
        && WireTrace(sends, finishing, loop.motionCalls)
        && (loop.CallFailure().Some? ==> r == Err(loop.CallFailure().value))
    }

    /** Why a motion is not started, if it is not. */
    function Unstarted(controlCallback: Option<Callback>, motionCallback: Option<Callback>, generator: ActiveGenerator,
                       controller: RequestedController): Option<Failure>
      reads impl, impl.link
    {
      if motionCallback.None? || controller.UnknownController?
         || (controlCallback.None? && controller.mode.ExternalController?)
      then Some(InvalidArgument)
      else FailureOf(impl.StartResult(controller, Generator(generator)))
    }

    /** Runs a whole motion. */
    method RunControl(controlCallback: Option<Callback>, motionCallback: Option<Callback>, generator: ActiveGenerator,
                      controller: RequestedController, convertMotion: Conversion, convertTorques: Conversion)
      returns (r: Result<Unit>, ghost sends: seq<RobotCommand>, ghost finishing: seq<RobotCommand>,
               ghost ran: ControlLoop?)
      requires impl.Valid() && (controlCallback.Some? ==> controller == Controller(ExternalController))
      modifies impl.Repr()
      ensures impl.Valid() && impl.messageId >= old(impl.messageId)
      ensures impl.link.sent == old(impl.link.sent) + sends + finishing
      ensures Controlled(r, old(impl.link.requests), controller, generator, ran)
      ensures var why := old(Unstarted(controlCallback, motionCallback, generator, controller));
              && (ran == null <==> why.Some?) && (why.Some? ==> r == Err(why.value))
              && (why.None? ==> Looped(r, ran, sends, finishing, controlCallback, motionCallback, convertMotion,
                                       convertTorques, Modes(generator, controller.mode)))
      ensures ran == null ==> sends == finishing == []
    {
      hide RobotImpl.Valid, ControlLoop.Faithful, ControlLoop.Finishing, WireTrace, ControlLoop.Finished,
           ControlLoop.CallFailure, Sending, RobotImpl.StartResult;
      sends, finishing, ran := [], [], null;
      var loop;
      if controlCallback.Some? {
        loop := new ControlLoop.WithControl(impl, controlCallback, motionCallback, generator, convertMotion, convertTorques);
      } else {
        loop := new ControlLoop.WithMode(impl, controller, motionCallback, generator, convertMotion, convertTorques);
      }
      if loop.refusal.Some? {
        return Err(loop.refusal.value), sends, finishing, ran;
      }
      r, sends, finishing := loop.Run();
      ran := loop;
    }

    /** Runs a whole motion while holding the lock. */
    method Control(controlCallback: Option<Callback>, motionCallback: Option<Callback>, generator: ActiveGenerator,
                   controller: RequestedController, convertMotion: Conversion, convertTorques: Conversion)
      returns (r: Result<Unit>, ghost sends: seq<RobotCommand>, ghost finishing: seq<RobotCommand>,
               ghost ran: ControlLoop?)
      requires Valid() && (controlCallback.Some? ==> controller == Controller(ExternalController))
      modifies mutex`locked, impl.Repr()
      ensures Valid() && mutex.locked == old(mutex.locked)
      ensures impl.link.sent == old(impl.link.sent) + sends + finishing
      ensures old(mutex.locked) ==> r == Err(InvalidOperation) && unchanged(impl.Repr())
      ensures !old(mutex.locked) ==>
        && Controlled(r, old(impl.link.requests), controller, generator, ran)
        && var why := old(Unstarted(controlCallback, motionCallback, generator, controller));
           && (ran == null <==> why.Some?) && (why.Some? ==> r == Err(why.value))
           && (why.None? ==> Looped(r, ran, sends, finishing, controlCallback, motionCallback, convertMotion,
                                    convertTorques, Modes(generator, controller.mode)))
    {
      hide RobotImpl.Valid, Robot.OwnersAreValid, Robot.Looped, Robot.Controlled, Robot.Unstarted;
      sends, finishing, ran := [], [], null;
      var locking := TryLock();
      if locking.Err? {
        return Err(locking.failure), sends, finishing, ran;
      }
      r, sends, finishing, ran := RunControl(controlCallback, motionCallback, generator, controller, convertMotion,
                                             convertTorques);
      mutex.locked := false;
      OwnersUndisturbed();
    }
  }

  /** The steps that the reads of a motion have returned sum to the time from the first state returned to the last; a read
      that failed in between loses no time. */
  lemma ReadStepsSumToTime(control: ActiveControl)
    requires control.Valid() && control.returned != []
    ensures control.lastReadAccess.Some?
      && TotalTime(control.returned) == control.lastReadAccess.value - control.returned[0].state.messageId
  {
    StepsSumToTime(control.returned);
  }

  /** At most one motion is live. */
  lemma SingleOwner(robot: Robot, a: ActiveControl, b: ActiveControl)
    requires robot.Valid() && a in robot.owners && b in robot.owners && a.Live() && b.Live()
    ensures a == b
  {
  }
}
