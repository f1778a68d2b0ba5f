/** The Panda constants of include/franka/rate_limiting.h, and the seven-joint overloads of the limiters. */
module JointLimits {
  import opened RealMath
  import opened RateLimiting

  type JointVector = v: seq<real> | |v| == 7 witness [0.0, 0.0, 0.0, 0.0, 0.0, 0.0, 0.0]

  type JointInput = v: seq<Double> | |v| == 7
    witness [NonFinite, NonFinite, NonFinite, NonFinite, NonFinite, NonFinite, NonFinite]

  /** An index of a joint. */
  type Joint = i: nat | i < 7

  const K_LIMIT_EPS := 0.001
  const K_TOL_NUMBER_PACKETS_LOST := 3.0

  const K_MAX_JOINT_JERK: JointVector := [
    7500.0 - K_LIMIT_EPS, 3750.0 - K_LIMIT_EPS, 5000.0 - K_LIMIT_EPS, 6250.0 - K_LIMIT_EPS,
    7500.0 - K_LIMIT_EPS, 10000.0 - K_LIMIT_EPS, 10000.0 - K_LIMIT_EPS]

  const K_MAX_JOINT_ACCELERATION: JointVector := [
    15.0 - K_LIMIT_EPS, 7.5 - K_LIMIT_EPS, 10.0 - K_LIMIT_EPS, 12.5 - K_LIMIT_EPS,
    15.0 - K_LIMIT_EPS, 20.0 - K_LIMIT_EPS, 20.0 - K_LIMIT_EPS]

  /** The velocity limits of the arm itself. */
  const NOMINAL_JOINT_VELOCITY: JointVector := [2.175, 2.175, 2.175, 2.175, 2.61, 2.61, 2.61]

  function JointVelocityLimitsTolerance(i: Joint): real {
    K_LIMIT_EPS + K_TOL_NUMBER_PACKETS_LOST * 0.001 * K_MAX_JOINT_ACCELERATION[i]
  }

  function UpperLimitJointVelocity(i: Joint): real {
    NOMINAL_JOINT_VELOCITY[i] - JointVelocityLimitsTolerance(i)
  }

  function LowerLimitJointVelocity(i: Joint): real {
    -(NOMINAL_JOINT_VELOCITY[i] - JointVelocityLimitsTolerance(i))
  }

  /** The limits the control loop passes for joint i. */
  function PandaLimits(i: Joint): Limits {
    MakeLimits(UpperLimitJointVelocity(i), LowerLimitJointVelocity(i), K_MAX_JOINT_ACCELERATION[i], K_MAX_JOINT_JERK[i])
  }

  lemma PandaLimitsAreValid(i: Joint)
    ensures K_MAX_JOINT_ACCELERATION[i] > 0.0
    ensures PandaLimits(i).Valid() && PandaLimits(i).lower < 0.0 < PandaLimits(i).upper
    ensures PandaLimits(i).upper + 3.0 * 0.001 * PandaLimits(i).maxAcceleration == NOMINAL_JOINT_VELOCITY[i] - K_LIMIT_EPS
    ensures PandaLimits(i).lower == -PandaLimits(i).upper
  {
    MakeLimitsValid(UpperLimitJointVelocity(i), LowerLimitJointVelocity(i),
                    K_MAX_JOINT_ACCELERATION[i], K_MAX_JOINT_JERK[i]);
  }

  /** The velocity the arm reaches when `lost` packets are bridged at constant acceleration. */
  function Extrapolated(s: State, lost: nat): real {
    s.velocity + lost as real * 0.001 * s.acceleration
  }

  /** Bridging one packet more is bridging the others from where the first one leads. */
  lemma OnePacketMore(s: State, lost: nat)
    ensures Extrapolated(s, 0) == s.velocity
    ensures Extrapolated(s, lost + 1) == Extrapolated(State(s.velocity + 0.001 * s.acceleration, s.acceleration), lost)
  {
  }

  lemma ExtrapolationIsBounded(upper: real, bound: real, s: State, lost: nat)
    requires lost <= 3 && Abs(s.velocity) <= upper && Abs(s.acceleration) <= bound
    ensures Abs(Extrapolated(s, lost)) <= upper + 3.0 * 0.001 * bound
  {
    if
    case lost == 0 =>
    case lost == 1 =>
    case lost == 2 =>
    case lost == 3 =>
  }

  /** With the Panda constants, from any state of the invariant, up to three lost packets leave the velocity within the
      nominal limit less kLimitEps. */
  lemma PacketLossStaysWithinNominal(i: Joint, s: State, lost: nat)
    requires lost <= 3 && Inv(PandaLimits(i), s)
    ensures Abs(Extrapolated(s, lost)) <= NOMINAL_JOINT_VELOCITY[i] - K_LIMIT_EPS
  {
    hide Extrapolated, PandaLimits, Limits.Valid, Inv;
    PandaLimitsAreValid(i);
    InvariantBounds(PandaLimits(i), s);
    ExtrapolationIsBounded(PandaLimits(i).upper, PandaLimits(i).maxAcceleration, s, lost);
  }

  /** In particular at every step of every run that starts at rest. */
  lemma PacketLossInRuns(i: Joint, commands: nat -> real, n: nat, lost: nat)
    requires lost <= 3
    ensures Abs(Extrapolated(StateAt(PandaLimits(i), commands, State(0.0, 0.0), n), lost))
         <= NOMINAL_JOINT_VELOCITY[i] - K_LIMIT_EPS
  {
    hide Extrapolated, PandaLimits, Limits.Valid, Inv, Step;
    PandaLimitsAreValid(i);
    RestMeetsInvariant(PandaLimits(i));
    VelocityRunIsBounded(PandaLimits(i), commands, State(0.0, 0.0), n);
    PacketLossStaysWithinNominal(i, StateAt(PandaLimits(i), commands, State(0.0, 0.0), n), lost);
  }

  // ----- The array overloads -----

  ghost predicate AllFinite(v: seq<Double>) {
    forall i :: 0 <= i < |v| ==> v[i].Finite?
  }

  method CheckAllFinite(v: seq<Double>) returns (finite: bool)
    ensures finite <==> AllFinite(v)
  {
    for i := 0 to |v|
      invariant AllFinite(v[..i])
    {
      if v[i].NonFinite? {
        return false;
      }
      assert v[..i + 1] == v[..i] + [v[i]];
    }
    assert v[..|v|] == v;
    return true;
  }

  method LimitRateVelocities(upper: JointVector, lower: JointVector, maxAcceleration: JointVector, maxJerk: JointVector,
                             commanded: JointInput, lastVelocities: JointVector, lastAccelerations: JointVector)
    returns (r: Result<JointVector>)
    requires forall i: Joint :: maxAcceleration[i] != 0.0
    ensures r.Success? <==> AllFinite(commanded)
    ensures r.Success? ==> forall i: Joint ::
      r.value[i] == LimitVelocity(MakeLimits(upper[i], lower[i], maxAcceleration[i], maxJerk[i]), commanded[i].value,
                                  State(lastVelocities[i], lastAccelerations[i]))
  {
    var finite := CheckAllFinite(commanded);
    if !finite {
      return InvalidArgument;
    }
    var limited: JointVector := [0.0, 0.0, 0.0, 0.0, 0.0, 0.0, 0.0];
    for i := 0 to 7
      invariant forall j: Joint :: j < i ==>
        limited[j] == LimitVelocity(MakeLimits(upper[j], lower[j], maxAcceleration[j], maxJerk[j]), commanded[j].value,
                                    State(lastVelocities[j], lastAccelerations[j]))
    {
      hide LimitVelocity, MakeLimits;
      var l := MakeLimits(upper[i], lower[i], maxAcceleration[i], maxJerk[i]);
      limited := limited[i := LimitVelocity(l, commanded[i].value, State(lastVelocities[i], lastAccelerations[i]))];
    }
    return Success(limited);
  }

  method LimitRatePositions(upper: JointVector, lower: JointVector, maxAcceleration: JointVector, maxJerk: JointVector,
                            commanded: JointInput, lastPositions: JointVector, lastVelocities: JointVector,
                            lastAccelerations: JointVector)
    returns (r: Result<JointVector>)
    requires forall i: Joint :: maxAcceleration[i] != 0.0
    ensures r.Success? <==> AllFinite(commanded)
    ensures r.Success? ==> forall i: Joint ::
      r.value[i] == LimitPosition(MakeLimits(upper[i], lower[i], maxAcceleration[i], maxJerk[i]), commanded[i].value,
                                  lastPositions[i], State(lastVelocities[i], lastAccelerations[i]))
  {
    var finite := CheckAllFinite(commanded);
    if !finite {
      return InvalidArgument;
    }
    var limited: JointVector := [0.0, 0.0, 0.0, 0.0, 0.0, 0.0, 0.0];
    for i := 0 to 7
      invariant forall j: Joint :: j < i ==>
        limited[j] == LimitPosition(MakeLimits(upper[j], lower[j], maxAcceleration[j], maxJerk[j]), commanded[j].value,
                                    lastPositions[j], State(lastVelocities[j], lastAccelerations[j]))
    {
      hide LimitPosition, MakeLimits;
      var l := MakeLimits(upper[i], lower[i], maxAcceleration[i], maxJerk[i]);
      var s := State(lastVelocities[i], lastAccelerations[i]);
      limited := limited[i := LimitPosition(l, commanded[i].value, lastPositions[i], s)];
    }
    return Success(limited);
  }

  /** v is the value nearest to the command among those reachable from `last` at the given derivative limit. */
  ghost predicate NearestReachable(v: real, commanded: real, last: real, maxDerivative: real) {
    && Abs(v - last) <= maxDerivative * 0.001
    && (v < commanded ==> v == last + maxDerivative * 0.001)
    && (commanded < v ==> v == last - maxDerivative * 0.001)
  }

  lemma NearestReachableIsUnique(v: real, commanded: real, last: real, maxDerivative: real, other: real)
    requires NearestReachable(v, commanded, last, maxDerivative)
    requires Abs(other - last) <= maxDerivative * 0.001
    ensures Abs(v - commanded) <= Abs(other - commanded)
    ensures Abs(v - commanded) == Abs(other - commanded) ==> v == other
  {
  }

  /** The torque-rate overload. */
  method LimitRateTorques(maxDerivatives: JointVector, commanded: JointInput, lastCommanded: JointVector)
    returns (r: Result<JointVector>)
    ensures r.Success? <==> AllFinite(commanded)
    ensures r.Success? ==> forall i: Joint :: maxDerivatives[i] >= 0.0 ==>
      NearestReachable(r.value[i], commanded[i].value, lastCommanded[i], maxDerivatives[i])
    ensures r.Success? ==> forall i: Joint :: maxDerivatives[i] < 0.0 ==>
      r.value[i] == lastCommanded[i] - maxDerivatives[i] * 0.001
  {
    var finite := CheckAllFinite(commanded);
    if !finite {
      return InvalidArgument;
    }
    var limited: JointVector := [0.0, 0.0, 0.0, 0.0, 0.0, 0.0, 0.0];
    for i := 0 to 7
      invariant forall j: Joint :: j < i && maxDerivatives[j] >= 0.0 ==>
        NearestReachable(limited[j], commanded[j].value, lastCommanded[j], maxDerivatives[j])
      invariant forall j: Joint :: j < i && maxDerivatives[j] < 0.0 ==>
        limited[j] == lastCommanded[j] - maxDerivatives[j] * 0.001
    {
      var derivative := (commanded[i].value - lastCommanded[i]) / 0.001;
      limited := limited[i := lastCommanded[i] + Clamp(derivative, maxDerivatives[i]) * 0.001];
    }
    return Success(limited);
  }
}
