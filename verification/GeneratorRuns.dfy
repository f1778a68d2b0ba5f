/** The generator of examples/examples_common.cpp as the callback of the loop in src/control_loop.cpp. */
module GeneratorRuns {
  import opened RealMath
  import opened JointLimits
  import opened Trajectory
  import opened Synchronisation
  import opened MotionGenerators
  import opened RobotTypes
  import opened ControlLoops

  /** Seconds since the first call, read off the states. */
  function Elapsed(calls: seq<Call>, i: nat): real
    requires i < |calls|
  {
    (calls[i].state.messageId - calls[0].state.messageId) as real / 1000.0
  }

  ghost predicate OnPlan(start: JointVector, plans: seq<JointPlan>, t: real, position: JointVector, finished: bool)
    requires |plans| == 7
  {
    && t >= 0.0
    && (forall j: Joint :: position[j] == start[j] + DesiredValue(plans[j], t).0)
    && (finished <==> forall j: Joint :: DesiredValue(plans[j], t).1)
  }

  /** The replies follow one plan from one start. */
  ghost predicate FollowsPlan(start: JointVector, plans: seq<JointPlan>, calls: seq<Call>,
                              positions: seq<JointVector>, finished: seq<bool>) {
    && |plans| == 7 && |positions| == |finished| <= |calls|
    && forall i :: 0 <= i < |positions| ==> OnPlan(start, plans, Elapsed(calls, i), positions[i], finished[i])
  }

  ghost predicate IsFresh(g: MotionGenerator)
    reads g
  {
    g.time == 0.0 && forall j: Joint :: Untouched(g.Plan(j))
  }

  /** The plans of a generator after its first call. */
  ghost predicate IsPlanned(g: MotionGenerator, start: JointVector)
    reads g
    requires g.lib.LawfulSqrt()
  {
    && g.qStart == start && g.deltaQ == Difference(g.qGoal, start)
    && (exists maxTf: real :: IsCommonTime(g.lib, g.motors, g.deltaQ, maxTf) && Synchronised(g.lib, g.motors, g.Plans(), maxTf))
    && forall j: Joint :: !MovesJoint(g.deltaQ[j]) ==> Untouched(g.Plan(j))
  }

  lemma ElapsedIsTotal(calls: seq<Call>, k: nat)
    requires StepsFollowTime(calls) && k < |calls|
    ensures TotalTime(calls[..k + 1]) == TotalTime(calls[..k]) + calls[k].step
    ensures TotalTime(calls[..k + 1]) as real / 1000.0 == Elapsed(calls, k) >= 0.0
    ensures Elapsed(calls, k) == 0.0 <==> k == 0
  {
    assert calls[..k + 1][..k] == calls[..k];
    StepsSumToTime(calls[..k + 1]);
    TimeIsZeroOnce(calls, k);
  }

  /** Whenever the generator reports the end, every joint that has to move is at its goal, and the others are as near to
      theirs as they were. In the first call no joint that has to move has moved. No joint ever goes further than its goal. */
  lemma FinishedAtGoal(g: MotionGenerator, start: JointVector, t: real, position: JointVector, finished: bool, j: Joint)
    requires g.lib.LawfulSqrt() && IsPlanned(g, start) && OnPlan(start, g.Plans(), t, position, finished)
    ensures MovesJoint(g.deltaQ[j]) && finished ==> position[j] == g.qGoal[j]
    ensures MovesJoint(g.deltaQ[j]) && t == 0.0 ==> position[j] == start[j]
    ensures !MovesJoint(g.deltaQ[j]) ==> Abs(g.qGoal[j] - position[j]) <= K_DELTA_Q_MOTION_FINISHED
    ensures Abs(position[j] - start[j]) <= Abs(g.qGoal[j] - start[j])
  {
    hide DesiredValue, MovesJoint, MathLib.LawfulSqrt, Untouched;
    var maxTf: real :| IsCommonTime(g.lib, g.motors, g.deltaQ, maxTf) && Synchronised(g.lib, g.motors, g.Plans(), maxTf);
    hide Synchronised, IsCommonTime;
    JointsFinishTogether(g.lib, g.motors, g.Plans(), maxTf, t);
    assert g.Plans()[j] == g.Plan(j) && g.Plan(j).delta == g.deltaQ[j];
    assert g.deltaQ[j] == g.qGoal[j] - start[j];
  }

  /** Calls the generator as the loop does: it plans in the first call only, from the position it is given there. */
  method Drive(g: MotionGenerator, calls: seq<Call>, qD: RobotState -> JointVector)
    returns (positions: seq<JointVector>, finished: seq<bool>)
    requires g.lib.LawfulSqrt() && IsFresh(g) && StepsFollowTime(calls)
    modifies g
    ensures |positions| == |calls| && FollowsPlan(g.qStart, g.Plans(), calls, positions, finished)
    ensures calls != [] ==> IsPlanned(g, qD(calls[0].state))
  {
    hide StepsFollowTime, DesiredValue, IsCommonTime, Synchronised, MathLib.LawfulSqrt, MovesJoint, TotalTime,
         Untouched, Elapsed, Difference;
    positions, finished := [], [];
    assert TotalTime(calls[..0]) == 0 by {
      NoTime(calls[..0]);
    }
    for k := 0 to |calls|
      invariant |positions| == k && g.time == TotalTime(calls[..k]) as real / 1000.0
      invariant FollowsPlan(g.qStart, g.Plans(), calls, positions, finished)
      invariant if k == 0 then IsFresh(g) else IsPlanned(g, qD(calls[0].state))
    {
      ElapsedIsTotal(calls, k);
      ghost var plans := g.Plans();
      assert forall j: Joint :: plans[j] == g.Plan(j);
      var p, f := g.Call(qD(calls[k].state), calls[k].step);
      if k == 0 {
        UntouchedKept(g, plans);
      } else {
        assert g.Plans() == plans && forall j: Joint :: g.Plan(j) == plans[j];
      }
      positions, finished := positions + [p], finished + [f];
    }
    assert calls[..|calls|] == calls;
  }

  lemma UntouchedKept(g: MotionGenerator, before: seq<JointPlan>)
    requires |before| == 7 && forall j: Joint :: Untouched(before[j])
    requires forall j: Joint :: !MovesJoint(g.deltaQ[j]) ==> g.Plan(j) == before[j].(delta := g.deltaQ[j])
    ensures forall j: Joint :: !MovesJoint(g.deltaQ[j]) ==> Untouched(g.Plan(j))
  {
    hide MovesJoint;
  }

  lemma NoTime(calls: seq<Call>)
    requires calls == []
    ensures TotalTime(calls) == 0
  {
  }
}
