/** The messages, modes and failures that the robot client of src/robot_impl.cpp works with. */
module RobotTypes {
  import opened RealMath
  import opened Framing
  import opened Logger

  datatype RobotMode = OtherMode | IdleMode | MoveMode | GuidingMode | ReflexMode | UserStoppedMode | RecoveryMode

  datatype MotionGeneratorMode = Idle | JointPosition | JointVelocity | CartesianPosition | CartesianVelocity

  datatype ControllerMode = JointImpedance | CartesianImpedance | ExternalController | Other

  /** Modes in a Move request are raw enumerators: anything may be cast to them. */
  datatype RequestedGenerator = Generator(mode: ActiveGenerator) | UnknownGenerator(code: nat)

  type ActiveGenerator = m: MotionGeneratorMode | !m.Idle? witness JointPosition

  datatype RequestedController = Controller(mode: ActiveController) | UnknownController(code: nat)

  type ActiveController = m: ControllerMode | !m.Other? witness JointImpedance

  type U64 = n: int | 0 <= n < 0x1_0000_0000_0000_0000

  /** Subtraction of unsigned 64-bit numbers. */
  function WrapSub(a: U64, b: U64): U64 {
    (a - b) % 0x1_0000_0000_0000_0000
  }

  /** The state's message id is also its time in milliseconds. */
  datatype RobotState = RobotState(messageId: U64, robotMode: RobotMode, generatorMode: MotionGeneratorMode,
                                   controllerMode: ControllerMode, successRate: real, data: seq<real>)

  datatype MotionCommand = MotionCommand(values: seq<real>, finished: bool)

  datatype ControlCommand = ControlCommand(torques: seq<real>)

  /** Parts that were not given are sent as zeros. */
  datatype RobotCommand = RobotCommand(messageId: U64, motion: Option<MotionCommand>, control: Option<ControlCommand>)

  datatype MoveStatus =
    | Success
    | MotionStarted
    | Preempted
    | CommandNotPossibleRejected
    | StartAtSingularPoseRejected
    | InvalidArgumentRejected
    | ReflexAborted
    | EmergencyAborted
    | InputErrorAborted
    | Aborted
    | PreemptedDueToActivatedSafetyFunctions
    | CommandRejectedDueToActivatedSafetyFunctions
    | UnknownStatus

  const MOVE_STATUSES := [
    Success, MotionStarted, Preempted, CommandNotPossibleRejected, StartAtSingularPoseRejected, InvalidArgumentRejected,
    ReflexAborted, EmergencyAborted, InputErrorAborted, Aborted, PreemptedDueToActivatedSafetyFunctions,
    CommandRejectedDueToActivatedSafetyFunctions]

  function MoveStatusOf(code: Byte): MoveStatus {
    if code < |MOVE_STATUSES| then MOVE_STATUSES[code] else UnknownStatus
  }

  /** The number of a status on the wire. */
  function MoveCode(status: MoveStatus): nat {
    match status
    case Success => 0
    case MotionStarted => 1
    case Preempted => 2
    case CommandNotPossibleRejected => 3
    case StartAtSingularPoseRejected => 4
    case InvalidArgumentRejected => 5
    case ReflexAborted => 6
    case EmergencyAborted => 7
    case InputErrorAborted => 8
    case Aborted => 9
    case PreemptedDueToActivatedSafetyFunctions => 10
    case CommandRejectedDueToActivatedSafetyFunctions => 11
    case UnknownStatus => 12
  }

  /** Every byte is read as the status with its number; those that are nobody's number are unknown. */
  lemma StatusIsRead(code: Byte)
    ensures MoveCode(MoveStatusOf(code)) == if code < 12 then code else 12
  {
    assert |MOVE_STATUSES| == 12;
  }

  /** Accepted, or refused for a reason the robot gives, or not a reply that can be given. */
  datatype Verdict = Accepted | Refused | Unexpected

  function MoveVerdict(status: MoveStatus, generatorRunning: bool): Verdict {
    match status
    case Success => Accepted
    case MotionStarted => if generatorRunning then Unexpected else Accepted
    case UnknownStatus => Unexpected
    case _ => Refused
  }

  /** Of the six statuses of StopMove, 0 is success. */
  function StopMoveVerdict(code: Byte): Verdict {
    if code == 0 then Accepted else if code < 6 then Refused else Unexpected
  }

  type LogRecord = Record<RobotState, RobotCommand>

  datatype Failure =
    | NetworkFailure
    | ProtocolFailure
    | InvalidArgument
    | InvalidOperation
    | CallbackFailure
    | MultipleMotions
    | NoMotionGenerator
    | NoController
    | PartialCommand
    | NoMotionCommand
    | MoveRefused(status: MoveStatus)
    | MotionRefused(status: MoveStatus)
    | StopRefused(code: Byte)
    | MotionAborted(status: MoveStatus, report: Option<PacketReport>, log: seq<LogRecord>)
    | MotionHasFinished
    | TorquesNotAllowed
    | TorquesMissing

  /** What a reflex adds to the message: the success rate, and how many states were lost before the last one. */
  datatype PacketReport = PacketReport(successRate: real, lostPackets: U64)

  /** The three guards of sendRobotCommand. */
  predicate IsGuard(f: Failure) {
    f.NoMotionGenerator? || f.NoController? || f.PartialCommand?
  }

  datatype Result<+T> = Ok(value: T) | Err(failure: Failure)

  datatype Unit = Unit
}
