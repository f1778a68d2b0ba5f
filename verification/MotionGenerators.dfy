/** The synchronised point-to-point generator of examples/examples_common.cpp. */
module MotionGenerators {
  import opened RealMath
  import opened JointLimits
  import opened Trajectory
  import opened Synchronisation

  const ZERO7: JointVector := [0.0, 0.0, 0.0, 0.0, 0.0, 0.0, 0.0]

  function Difference(u: JointVector, v: JointVector): JointVector {
    seq(7, i requires 0 <= i < 7 => u[i] - v[i])
  }

  function Sum(u: JointVector, v: JointVector): JointVector {
    seq(7, i requires 0 <= i < 7 => u[i] + v[i])
  }

  predicate MovesJoint(delta: real) {
    Abs(delta) > K_DELTA_Q_MOTION_FINISHED
  }

  /** The motors of all joints. */
  type Motors = m: seq<Motor> | |m| == 7 && forall i :: 0 <= i < 7 ==> m[i].Valid()
    witness [Motor(1.0, 1.0, 1.0), Motor(1.0, 1.0, 1.0), Motor(1.0, 1.0, 1.0), Motor(1.0, 1.0, 1.0),
             Motor(1.0, 1.0, 1.0), Motor(1.0, 1.0, 1.0), Motor(1.0, 1.0, 1.0)]

  /** The time joint i needs on its own; zero if it does not move. */
  ghost function JointTime(lib: MathLib, m: Motor, delta: real): real
    requires lib.LawfulSqrt() && m.Valid()
  {
    if MovesJoint(delta) then
      ReachableSpeedFits(lib, m, delta);
      OwnTime(m, delta, ReachableSpeed(lib, m, delta))
    else 0.0
  }

  /** `time` is the largest time any joint needs on its own. */
  ghost predicate IsCommonTime(lib: MathLib, motors: Motors, delta: JointVector, time: real)
    requires lib.LawfulSqrt()
  {
    && (forall i: Joint :: JointTime(lib, motors[i], delta[i]) <= time)
    && exists i: Joint :: JointTime(lib, motors[i], delta[i]) == time
  }

  /** The joint follows a consistent plan that takes the given time, at a speed no larger than it can reach;
      if it needs all that time on its own it is not slowed down. */
  ghost predicate SynchronisedPlan(lib: MathLib, m: Motor, plan: JointPlan, time: real)
    requires lib.LawfulSqrt() && m.Valid()
  {
    && Consistent(plan, m.start, m.goal)
    && plan.tf == time
    && plan.speed <= ReachableSpeed(lib, m, plan.delta) <= m.speed
    && (JointTime(lib, m, plan.delta) == time ==> plan.speed == ReachableSpeed(lib, m, plan.delta))
  }

  /** Every joint that moves follows such a plan for the common time. */
  ghost predicate Synchronised(lib: MathLib, motors: Motors, plans: seq<JointPlan>, time: real)
    requires lib.LawfulSqrt() && |plans| == 7
  {
    forall i: Joint :: MovesJoint(plans[i].delta) ==> SynchronisedPlan(lib, motors[i], plans[i], time)
  }

  /** The plan of one joint at the synchronised speed has all these properties. */
  lemma PlanIsSynchronised(lib: MathLib, m: Motor, delta: real, time: real)
    requires lib.LawfulSqrt() && m.Valid() && MovesJoint(delta) && JointTime(lib, m, delta) <= time
    ensures Discriminant(m, delta, time) >= 0.0
    ensures var speed := SynchronisedSpeed(lib, m, delta, time);
            && 0.0 < speed <= ReachableSpeed(lib, m, delta) <= m.speed
            && SynchronisedPlan(lib, m, PlanAt(m, delta, speed), time)
  {
    ReachableSpeedFits(lib, m, delta);
    SynchronisedSpeedFits(lib, m, delta, time);
    SlowestKeepsSpeed(lib, m, delta);
    PlanIsConsistent(m, delta, SynchronisedSpeed(lib, m, delta, time));
    PlanFields(m, delta, SynchronisedSpeed(lib, m, delta, time));
    hide Discriminant, SynchronisedSpeed, ReachableSpeed, PlanAt, Consistent, OwnTime, RoomForRamps;
  }

  /** No choice of plans within the limits of the joints lets all of them finish together before the common time. */
  lemma CommonTimeIsOptimal(lib: MathLib, motors: Motors, delta: JointVector, commonTime: real,
                            plans: seq<JointPlan>, time: real)
    requires lib.LawfulSqrt() && IsCommonTime(lib, motors, delta, commonTime) && |plans| == 7 && time >= 0.0
    requires forall i: Joint :: MovesJoint(delta[i]) ==>
      plans[i].delta == delta[i] && plans[i].tf == time && WithinLimits(motors[i], plans[i])
    ensures commonTime <= time
  {
    hide MovesJoint, MathLib.LawfulSqrt, OwnTime, ReachableSpeed, WithinLimits;
    var slowest: Joint :| JointTime(lib, motors[slowest], delta[slowest]) == commonTime;
    if MovesJoint(delta[slowest]) {
      OwnTimeIsOptimal(lib, motors[slowest], plans[slowest]);
    }
  }

  lemma PlanFields(m: Motor, delta: real, speed: real)
    requires m.Valid() && speed != 0.0
    ensures PlanAt(m, delta, speed).delta == delta && PlanAt(m, delta, speed).speed == speed
  {
  }

  /** A joint that does not move still has the zero times it was constructed with. */
  ghost predicate Untouched(plan: JointPlan) {
    plan.t1 == plan.t2 == plan.tf == 0.0
  }

  /** All joints finish at the same time: the motion is reported finished exactly from the common time on, or from the
      start if no joint moves; then every moving joint has covered its whole distance, and before then none has finished. */
  lemma JointsFinishTogether(lib: MathLib, motors: Motors, plans: seq<JointPlan>, time: real, t: real)
    requires lib.LawfulSqrt() && |plans| == 7 && Synchronised(lib, motors, plans, time) && t >= 0.0
    requires forall i: Joint :: !MovesJoint(plans[i].delta) ==> Untouched(plans[i])
    ensures (forall i: Joint :: DesiredValue(plans[i], t).1)
       <==> time <= t || forall i: Joint :: !MovesJoint(plans[i].delta)
    ensures forall i: Joint :: MovesJoint(plans[i].delta) ==>
      && (DesiredValue(plans[i], t).1 <==> time <= t)
      && (time <= t ==> DesiredValue(plans[i], t).0 == plans[i].delta)
      && (t == 0.0 ==> DesiredValue(plans[i], t).0 == 0.0)
    ensures forall i: Joint :: !MovesJoint(plans[i].delta) ==>
      && DesiredValue(plans[i], t).1
      && Abs(plans[i].delta - DesiredValue(plans[i], t).0) <= K_DELTA_Q_MOTION_FINISHED
    ensures forall i: Joint :: Abs(DesiredValue(plans[i], t).0) <= Abs(plans[i].delta)
  {
    forall i: Joint
      ensures if MovesJoint(plans[i].delta) then
                && (DesiredValue(plans[i], t).1 <==> time <= t)
                && (time <= t ==> DesiredValue(plans[i], t).0 == plans[i].delta)
                && (t == 0.0 ==> DesiredValue(plans[i], t).0 == 0.0)
              else
                && DesiredValue(plans[i], t).1
                && Abs(plans[i].delta - DesiredValue(plans[i], t).0) <= K_DELTA_Q_MOTION_FINISHED
      ensures Abs(DesiredValue(plans[i], t).0) <= Abs(plans[i].delta)
    {
      if MovesJoint(plans[i].delta) {
        MovingJointFinishes(plans[i], motors[i], t);
      } else {
        StillJoint(plans[i], t);
      }
    }
    hide DesiredValue, MovesJoint, Consistent, Abs;
  }

  /** A joint that does not move is finished, and is sent nowhere, unless its distance is exactly the threshold: then it is
      sent there at once. */
  lemma StillJoint(plan: JointPlan, t: real)
    requires !MovesJoint(plan.delta) && Untouched(plan) && t >= 0.0
    ensures DesiredValue(plan, t) == (if Abs(plan.delta) < K_DELTA_Q_MOTION_FINISHED then 0.0 else plan.delta, true)
  {
  }

  lemma MovingJointFinishes(plan: JointPlan, m: Motor, t: real)
    requires Consistent(plan, m.start, m.goal) && t >= 0.0
    ensures DesiredValue(plan, t).1 <==> plan.tf <= t
    ensures plan.tf <= t ==> DesiredValue(plan, t).0 == plan.delta
    ensures t == 0.0 ==> DesiredValue(plan, t).0 == 0.0
    ensures Abs(DesiredValue(plan, t).0) <= Abs(plan.delta)
  {
    hide DesiredValue, Consistent, Progress, Velocity;
    ConsistentOrder(plan, m.start, m.goal);
    DesiredValueIsProgress(plan, m.start, m.goal, t);
    MotionEndsAtGoal(plan, m.start, m.goal, t);
    SignedSize(plan.delta, Progress(plan, t));
  }

  lemma SignedSize(x: real, y: real)
    requires 0.0 <= y
    ensures Abs(Sign(x) * y) <= y
  {
  }

  class MotionGenerator {
    const lib: MathLib
    const qGoal: JointVector
    const motors: Motors

    var qStart: JointVector
    var deltaQ: JointVector
    var dqMaxSync: JointVector
    var t1Sync: JointVector
    var t2Sync: JointVector
    var tfSync: JointVector
    var q1: JointVector
    var time: real

    constructor (lib: MathLib, speedFactor: real, qGoal: JointVector)
      requires speedFactor > 0.0
      ensures this.lib == lib && this.qGoal == qGoal && time == 0.0
      ensures forall i: Joint ::
        motors[i] == Motor((if i < 4 then 2.0 else 2.5) * speedFactor, 5.0 * speedFactor, 5.0 * speedFactor)
      ensures qStart == deltaQ == dqMaxSync == t1Sync == t2Sync == tfSync == q1 == ZERO7
    {
      this.lib := lib;
      this.qGoal := qGoal;
      var slow := Motor(2.0 * speedFactor, 5.0 * speedFactor, 5.0 * speedFactor);
      var fast := Motor(2.5 * speedFactor, 5.0 * speedFactor, 5.0 * speedFactor);
      motors := [slow, slow, slow, slow, fast, fast, fast];
      qStart, deltaQ := ZERO7, ZERO7;
      dqMaxSync, t1Sync, t2Sync, tfSync, q1 := ZERO7, ZERO7, ZERO7, ZERO7, ZERO7;
      time := 0.0;
    }

    function Plan(i: Joint): JointPlan
      reads this
    {
      JointPlan(deltaQ[i], dqMaxSync[i], t1Sync[i], t2Sync[i], tfSync[i], q1[i])
    }

    function Plans(): (plans: seq<JointPlan>)
      reads this
      ensures |plans| == 7 && forall i: Joint :: plans[i] == Plan(i)
    {
      [Plan(0), Plan(1), Plan(2), Plan(3), Plan(4), Plan(5), Plan(6)]
    }

    method CalculateDesiredValues(t: real) returns (deltaQd: JointVector, finished: bool)
      requires t >= 0.0
      ensures forall i: Joint :: deltaQd[i] == DesiredValue(Plan(i), t).0
      ensures finished <==> forall i: Joint :: DesiredValue(Plan(i), t).1
    {
      hide DesiredValue;
      deltaQd := ZERO7;
      var jointMotionFinished: seq<bool> := [];
      for i := 0 to 7
        invariant |jointMotionFinished| == i
        invariant forall j: Joint :: j < i ==> deltaQd[j] == DesiredValue(Plan(j), t).0
        invariant forall j: Joint :: j < i ==> jointMotionFinished[j] == DesiredValue(Plan(j), t).1
      {
        var desired := DesiredValue(Plan(i), t);
        deltaQd := deltaQd[i := desired.0];
        jointMotionFinished := jointMotionFinished + [desired.1];
      }
      finished := forall i :: 0 <= i < 7 ==> jointMotionFinished[i];
      assert finished <==> forall i: Joint :: jointMotionFinished[i];
    }

    /** The body of the second loop of calculateSynchronizedValues. */
    method SynchroniseJoint(i: Joint, commonTime: real)
      requires lib.LawfulSqrt() && MovesJoint(deltaQ[i]) && JointTime(lib, motors[i], deltaQ[i]) <= commonTime
      modifies this`dqMaxSync, this`t1Sync, this`t2Sync, this`tfSync, this`q1
      ensures SynchronisedSpeed(lib, motors[i], deltaQ[i], commonTime) > 0.0
      ensures Plan(i) == PlanAt(motors[i], deltaQ[i], SynchronisedSpeed(lib, motors[i], deltaQ[i], commonTime))
      ensures forall j: Joint :: j != i ==> Plan(j) == old(Plan(j))
    {
      hide OwnTime, ReachableSpeed, SynchronisedSpeed, Consistent, Discriminant, MathLib.LawfulSqrt, JointTime, Sign,
           Abs;
      PlanIsSynchronised(lib, motors[i], deltaQ[i], commonTime);
      var speed := SynchronisedSpeed(lib, motors[i], deltaQ[i], commonTime);
      var t1, d2 := 1.5 * speed / motors[i].start, 1.5 * speed / motors[i].goal;
      dqMaxSync := dqMaxSync[i := speed];
      t1Sync := t1Sync[i := t1];
      tfSync := tfSync[i := t1 / 2.0 + d2 / 2.0 + Abs(deltaQ[i] / speed)];
      t2Sync := t2Sync[i := tfSync[i] - d2];
      q1 := q1[i := speed * Sign(deltaQ[i]) * (0.5 * t1)];
    }

    /** The largest coefficient of t_f, found by the first loop of calculateSynchronizedValues. */
    method CommonTime() returns (commonTime: real)
      requires lib.LawfulSqrt()
      ensures IsCommonTime(lib, motors, deltaQ, commonTime)
    {
      hide JointTime, MathLib.LawfulSqrt;
      var tf: JointVector := ZERO7;
      for i := 0 to 7
        invariant forall j: Joint :: j < i ==> tf[j] == JointTime(lib, motors[j], deltaQ[j])
      {
        var t := OwnTimeOf(lib, motors[i], deltaQ[i]);
        tf := tf[i := t];
      }
      commonTime := tf[0];
      ghost var slowest: Joint := 0;
      for i := 1 to 7
        invariant forall j: Joint :: j < i ==> tf[j] <= commonTime
        invariant tf[slowest] == commonTime
      {
        if commonTime < tf[i] {
          commonTime, slowest := tf[i], i;
        }
      }
      assert JointTime(lib, motors[slowest], deltaQ[slowest]) == commonTime;
    }

    method CalculateSynchronizedValues() returns (ghost maxTf: real)
      requires lib.LawfulSqrt()
      modifies this`dqMaxSync, this`t1Sync, this`t2Sync, this`tfSync, this`q1
      ensures IsCommonTime(lib, motors, deltaQ, maxTf)
      ensures Synchronised(lib, motors, Plans(), maxTf)
      ensures forall i: Joint :: MovesJoint(deltaQ[i]) ==>
        && SynchronisedSpeed(lib, motors[i], deltaQ[i], maxTf) > 0.0
        && Plan(i) == PlanAt(motors[i], deltaQ[i], SynchronisedSpeed(lib, motors[i], deltaQ[i], maxTf))
      ensures forall i: Joint :: !MovesJoint(deltaQ[i]) ==> Plan(i) == old(Plan(i))
    {
      hide MathLib.LawfulSqrt, PlanAt, JointTime, MovesJoint, SynchronisedSpeed, Consistent, ReachableSpeed;
      var commonTime := CommonTime();
      maxTf := commonTime;
      for i := 0 to 7
        invariant forall j: Joint :: j < i && MovesJoint(deltaQ[j]) ==>
          && SynchronisedSpeed(lib, motors[j], deltaQ[j], commonTime) > 0.0
          && Plan(j) == PlanAt(motors[j], deltaQ[j], SynchronisedSpeed(lib, motors[j], deltaQ[j], commonTime))
        invariant forall j: Joint :: !MovesJoint(deltaQ[j]) || i <= j ==> Plan(j) == old(Plan(j))
      {
        if MovesJoint(deltaQ[i]) {
          SynchroniseJoint(i, commonTime);
        }
      }
      forall i: Joint | MovesJoint(deltaQ[i])
        ensures SynchronisedPlan(lib, motors[i], Plan(i), commonTime)
      {
        PlanIsSynchronised(lib, motors[i], deltaQ[i], commonTime);
      }
    }

    /** One call of the generator: `qD` is the joint position last commanded, `period` the milliseconds since the last call. */
    method Call(qD: JointVector, period: nat) returns (positions: JointVector, motionFinished: bool)
      requires lib.LawfulSqrt() && time >= 0.0
      modifies this
      ensures time == old(time) + period as real / 1000.0
      ensures time == 0.0 ==>
        && qStart == qD && deltaQ == Difference(qGoal, qD)
        && exists maxTf: real :: IsCommonTime(lib, motors, deltaQ, maxTf) && Synchronised(lib, motors, Plans(), maxTf)
      ensures time == 0.0 ==> forall i: Joint :: !MovesJoint(deltaQ[i]) ==> Plan(i) == old(Plan(i)).(delta := deltaQ[i])
      ensures time != 0.0 ==> qStart == old(qStart) && deltaQ == old(deltaQ) && Plans() == old(Plans())
      ensures forall i: Joint :: positions[i] == qStart[i] + DesiredValue(Plan(i), time).0
      ensures motionFinished <==> forall i: Joint :: DesiredValue(Plan(i), time).1
    {
      hide DesiredValue, IsCommonTime, Synchronised, MathLib.LawfulSqrt, MovesJoint;
      time := time + period as real / 1000.0;
      if time == 0.0 {
        qStart := qD;
        deltaQ := Difference(qGoal, qStart);
        ghost var maxTf := CalculateSynchronizedValues();
      }
      var deltaQd;
      deltaQd, motionFinished := CalculateDesiredValues(time);
      positions := Sum(qStart, deltaQd);
    }
  }

  /** The body of the first loop of calculateSynchronizedValues: the least time in which the joint can cover its distance. */
  method OwnTimeOf(lib: MathLib, m: Motor, delta: real) returns (tf: real)
    requires lib.LawfulSqrt() && m.Valid()
    ensures tf == JointTime(lib, m, delta)
    ensures MovesJoint(delta) ==> forall p: JointPlan :: p.delta == delta && WithinLimits(m, p) ==> tf <= p.tf
  {
    hide WithinLimits, OwnTime, ReachableSpeed, MathLib.LawfulSqrt;
    tf := 0.0;
    if MovesJoint(delta) {
      ReachableSpeedFits(lib, m, delta);
      var dqMaxReach := ReachableSpeed(lib, m, delta);
      tf := OwnTime(m, delta, dqMaxReach);
      forall p: JointPlan | p.delta == delta && WithinLimits(m, p)
        ensures tf <= p.tf
      {
        OwnTimeIsOptimal(lib, m, p);
      }
    }
  }
}
