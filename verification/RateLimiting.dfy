/** The scalar joint-velocity and joint-position limiters of src/rate_limiting.cpp and what they keep over every run.
    The sample time kDeltaT is 1 ms. It is written as the literal 0.001, which keeps products with it linear. */
module RateLimiting {
  import opened RealMath

  /** A double as a caller may pass it: finite, or infinite/NaN. */
  datatype Double = Finite(value: real) | NonFinite

  datatype Result<+T> = Success(value: T) | InvalidArgument

  /** The limits of one joint, with the slope of the braking bound computed from them. */
  datatype Limits = Limits(upper: real, lower: real, maxAcceleration: real, maxJerk: real, slope: real) {
    /** Limits the run theorems are about; see MakeLimitsValid for what this asks of the four numbers. */
    ghost predicate Valid() {
      && lower <= upper
      && maxAcceleration > 0.0 && maxJerk > 0.0
      && slope > 0.0 && slope * maxAcceleration == maxJerk && slope * 0.001 <= 1.0
    }
  }

  function MakeLimits(upper: real, lower: real, maxAcceleration: real, maxJerk: real): Limits
    requires maxAcceleration != 0.0
  {
    Limits(upper, lower, maxAcceleration, maxJerk, maxJerk / maxAcceleration)
  }

  lemma MakeLimitsValid(upper: real, lower: real, maxAcceleration: real, maxJerk: real)
    requires maxAcceleration > 0.0
    ensures MakeLimits(upper, lower, maxAcceleration, maxJerk).Valid()
       <==> lower <= upper && 0.0 < maxJerk && maxJerk * 0.001 <= maxAcceleration
  {
    var k := maxJerk / maxAcceleration;
    assert k * maxAcceleration == maxJerk;
    if k <= 0.0 {
      ProductNonnegative(-k, maxAcceleration);
    } else if k * 0.001 > 1.0 {
      ProductPositive(k * 0.001 - 1.0, maxAcceleration);
    } else {
      ProductPositive(k, maxAcceleration);
      ProductNonnegative(1.0 - k * 0.001, maxAcceleration);
    }
  }

  /** Velocity last sent and the acceleration that led to it. */
  datatype State = State(velocity: real, acceleration: real)

  function CommandedJerk(commanded: real, s: State): real {
    ((commanded - s.velocity) / 0.001 - s.acceleration) / 0.001
  }

  function CommandedAcceleration(l: Limits, commanded: real, s: State): real {
    s.acceleration + Clamp(CommandedJerk(commanded, s), l.maxJerk) * 0.001
  }

  /** The braking bound: the acceleration that reaches `limit` at the slope of the limits. */
  function Braking(l: Limits, limit: real, velocity: real): real {
    l.slope * (limit - velocity)
  }

  function SafeMaxAcceleration(l: Limits, velocity: real): real {
    Min(Braking(l, l.upper, velocity), l.maxAcceleration)
  }

  function SafeMinAcceleration(l: Limits, velocity: real): real {
    Max(Braking(l, l.lower, velocity), -l.maxAcceleration)
  }

  function LimitedAcceleration(l: Limits, commanded: real, s: State): real {
    Max(Min(CommandedAcceleration(l, commanded, s), SafeMaxAcceleration(l, s.velocity)),
        SafeMinAcceleration(l, s.velocity))
  }

  function LimitVelocity(l: Limits, commanded: real, s: State): real {
    s.velocity + LimitedAcceleration(l, commanded, s) * 0.001
  }

  function LimitPosition(l: Limits, commanded: real, position: real, s: State): real {
    position + LimitVelocity(l, (commanded - position) / 0.001, s) * 0.001
  }

  /** What the caller feeds back: the limited velocity and its finite-difference acceleration. */
  function Step(l: Limits, commanded: real, s: State): State {
    var v := LimitVelocity(l, commanded, s);
    State(v, (v - s.velocity) / 0.001)
  }

  // ----- One step -----

  ghost predicate WithinVelocity(l: Limits, v: real) {
    l.lower <= v <= l.upper
  }

  /** The inductive invariant of the limiter: the acceleration can still be taken back
      at the braking slope before the velocity limit is reached. */
  ghost predicate Inv(l: Limits, s: State) {
    && WithinVelocity(l, s.velocity)
    && Abs(s.acceleration) <= l.maxAcceleration
    && s.acceleration * (1.0 - l.slope * 0.001) <= Braking(l, l.upper, s.velocity)
    && Braking(l, l.lower, s.velocity) <= s.acceleration * (1.0 - l.slope * 0.001)
  }

  /** The accelerations that meet the jerk, acceleration and braking bounds in state s. */
  ghost predicate Admissible(l: Limits, s: State, a: real) {
    && Abs(a - s.acceleration) <= l.maxJerk * 0.001
    && Abs(a) <= l.maxAcceleration
    && Braking(l, l.lower, s.velocity) <= a <= Braking(l, l.upper, s.velocity)
  }

  lemma StepAcceleration(l: Limits, commanded: real, s: State)
    ensures Step(l, commanded, s).acceleration == LimitedAcceleration(l, commanded, s)
    ensures Step(l, commanded, s).velocity == s.velocity + LimitedAcceleration(l, commanded, s) * 0.001
  {
  }

  /** Inside the velocity limits the braking bounds point at the limits, and following one for one sample
      does not pass its limit. */
  lemma BrakingBounds(l: Limits, v: real)
    requires l.Valid() && WithinVelocity(l, v)
    ensures 0.0 <= Braking(l, l.upper, v) && Braking(l, l.upper, v) * 0.001 <= l.upper - v
    ensures Braking(l, l.lower, v) <= 0.0 && l.lower - v <= Braking(l, l.lower, v) * 0.001
  {
    BrakingBound(l.slope, l.upper, v);
    BrakingBound(l.slope, v, l.lower);
  }

  lemma BrakingBound(k: real, upper: real, v: real)
    requires k > 0.0 && k * 0.001 <= 1.0 && v <= upper
    ensures 0.0 <= k * (upper - v) && k * (upper - v) * 0.001 <= upper - v
  {
    ProductNonnegative(k, upper - v);
    ProductNonnegative(1.0 - k * 0.001, upper - v);
  }

  /** Inside the velocity limits the chosen acceleration is bounded and keeps to the braking bounds,
      and the next velocity is inside again, whatever the last acceleration was. */
  lemma StepStaysWithin(l: Limits, commanded: real, s: State)
    requires l.Valid() && WithinVelocity(l, s.velocity)
    ensures var next := Step(l, commanded, s);
            && WithinVelocity(l, next.velocity)
            && Abs(next.acceleration) <= l.maxAcceleration
            && Braking(l, l.lower, s.velocity) <= next.acceleration <= Braking(l, l.upper, s.velocity)
  {
    BrakingBounds(l, s.velocity);
    hide Braking, Limits.Valid, CommandedAcceleration;
    StepAcceleration(l, commanded, s);
  }

  /** Keeping to a braking bound before a step is keeping to the invariant after it:
      braking at slope k for one sample lowers the bound by the same amount. */
  lemma BrakingCarriesOver(l: Limits, limit: real, v: real, a: real)
    ensures a <= Braking(l, limit, v)
       <==> a * (1.0 - l.slope * 0.001) <= Braking(l, limit, v + a * 0.001)
    ensures Braking(l, limit, v) <= a
       <==> Braking(l, limit, v + a * 0.001) <= a * (1.0 - l.slope * 0.001)
  {
  }

  /** From inside the velocity limits, whatever the last acceleration was, one step establishes the invariant. */
  lemma InvariantEstablished(l: Limits, commanded: real, s: State)
    requires l.Valid() && WithinVelocity(l, s.velocity)
    ensures Inv(l, Step(l, commanded, s))
  {
    hide LimitedAcceleration, LimitVelocity, Step, Braking, Limits.Valid;
    StepStaysWithin(l, commanded, s);
    StepAcceleration(l, commanded, s);
    var a := Step(l, commanded, s).acceleration;
    BrakingCarriesOver(l, l.upper, s.velocity, a);
    BrakingCarriesOver(l, l.lower, s.velocity, a);
  }

  /** Under the invariant one jerk step suffices to get back between the braking bounds. */
  lemma JerkStepMeetsBrakingBounds(l: Limits, s: State)
    requires l.Valid() && Inv(l, s)
    ensures s.acceleration - l.maxJerk * 0.001 <= Braking(l, l.upper, s.velocity)
    ensures Braking(l, l.lower, s.velocity) <= s.acceleration + l.maxJerk * 0.001
  {
    hide Braking;
    ProductMonotone(s.acceleration, l.maxAcceleration, l.slope);
    ProductMonotone(-l.maxAcceleration, s.acceleration, l.slope);
  }

  /** Under the invariant the next acceleration also meets the jerk bound, so it is admissible. */
  lemma StepIsAdmissible(l: Limits, commanded: real, s: State)
    requires l.Valid() && Inv(l, s)
    ensures Admissible(l, s, Step(l, commanded, s).acceleration)
  {
    StepStaysWithin(l, commanded, s);
    StepAcceleration(l, commanded, s);
    JerkStepMeetsBrakingBounds(l, s);
    BrakingBounds(l, s.velocity);
    hide Braking, Inv, CommandedJerk, Step;
  }

  /** The jerk bound fails only outside the invariant, and this is exactly when: inside the velocity limits,
      the step respects the jerk limit for every command if and only if one jerk step reaches the safe range. */
  lemma JerkBoundIff(l: Limits, s: State)
    requires l.Valid() && WithinVelocity(l, s.velocity)
    ensures (forall c :: Abs(Step(l, c, s).acceleration - s.acceleration) <= l.maxJerk * 0.001)
       <==> s.acceleration - l.maxJerk * 0.001 <= SafeMaxAcceleration(l, s.velocity)
            && SafeMinAcceleration(l, s.velocity) <= s.acceleration + l.maxJerk * 0.001
  {
    BrakingBounds(l, s.velocity);
    var down := s.velocity + (s.acceleration - l.maxJerk * 0.001) * 0.001;
    var up := s.velocity + (s.acceleration + l.maxJerk * 0.001) * 0.001;
    assert CommandedAcceleration(l, down, s) == s.acceleration - l.maxJerk * 0.001;
    assert CommandedAcceleration(l, up, s) == s.acceleration + l.maxJerk * 0.001;
    hide Braking, CommandedJerk, Step;
    StepAcceleration(l, down, s);
    StepAcceleration(l, up, s);
    forall c
      ensures && Step(l, c, s).acceleration == LimitedAcceleration(l, c, s)
              && Abs(CommandedAcceleration(l, c, s) - s.acceleration) <= l.maxJerk * 0.001
    {
      StepAcceleration(l, c, s);
    }
  }

  /** The acceleration bound is not kept from far below the lower velocity limit, because the lower
      safe acceleration is applied last and is not capped. This is exactly when it is kept. */
  lemma AccelerationBoundIff(l: Limits, commanded: real, s: State)
    requires l.Valid()
    ensures Abs(Step(l, commanded, s).acceleration) <= l.maxAcceleration
       <==> s.velocity >= l.lower - l.maxAcceleration * l.maxAcceleration / l.maxJerk
  {
    BrakingReachesBound(l, s.velocity);
    hide Braking, CommandedAcceleration, Limits.Valid;
    StepAcceleration(l, commanded, s);
  }

  lemma BrakingReachesBound(l: Limits, v: real)
    requires l.Valid()
    ensures Braking(l, l.lower, v) <= l.maxAcceleration
       <==> v >= l.lower - l.maxAcceleration * l.maxAcceleration / l.maxJerk
  {
    var reach := l.maxAcceleration * l.maxAcceleration / l.maxJerk;
    assert l.slope * reach == l.maxAcceleration;
    if l.lower - v <= reach {
      ProductMonotone(l.lower - v, reach, l.slope);
    } else {
      ProductPositive(l.lower - v - reach, l.slope);
    }
  }

  /** A concrete state from which the limiter accelerates harder than its acceleration limit. */
  lemma AccelerationBoundFailsFarBelow()
    ensures var l := MakeLimits(1.0, -1.0, 10.0, 5000.0);
            l.Valid() && Step(l, 0.0, State(-2.0, 0.0)).acceleration == 500.0
  {
    assert MakeLimits(1.0, -1.0, 10.0, 5000.0) == Limits(1.0, -1.0, 10.0, 5000.0, 500.0);
  }

  // ----- The limiter as a projection -----

  /** Under the invariant the output is the velocity nearest to the command among those with an
      admissible acceleration, and the only nearest one. */
  lemma OutputIsNearest(l: Limits, commanded: real, s: State, other: real)
    requires l.Valid() && Inv(l, s) && Admissible(l, s, other)
    ensures var v := LimitVelocity(l, commanded, s);
            var v' := s.velocity + other * 0.001;
            && Abs(v - commanded) <= Abs(v' - commanded)
            && (Abs(v - commanded) == Abs(v' - commanded) ==> v == v')
  {
    JerkStepMeetsBrakingBounds(l, s);
    BrakingBounds(l, s.velocity);
    hide Braking, Inv;
  }

  /** A command that already meets the bounds is returned unchanged, from any state. */
  lemma AdmissibleCommandUnchanged(l: Limits, commanded: real, s: State)
    requires Admissible(l, s, (commanded - s.velocity) / 0.001)
    ensures LimitVelocity(l, commanded, s) == commanded
  {
    hide Braking;
  }

  lemma LimitIsIdempotent(l: Limits, commanded: real, s: State)
    requires l.Valid() && Inv(l, s)
    ensures LimitVelocity(l, LimitVelocity(l, commanded, s), s) == LimitVelocity(l, commanded, s)
  {
    StepIsAdmissible(l, commanded, s);
    AdmissibleCommandUnchanged(l, LimitVelocity(l, commanded, s), s);
  }

  lemma LimitIsMonotone(l: Limits, commanded: real, commanded': real, s: State)
    requires commanded <= commanded'
    ensures LimitVelocity(l, commanded, s) <= LimitVelocity(l, commanded', s)
  {
    hide Braking;
  }

  // ----- Runs -----

  /** The state after n steps of feeding the output and its finite-difference acceleration back in. */
  ghost function StateAt(l: Limits, commands: nat -> real, start: State, n: nat): State {
    if n == 0 then start else Step(l, commands(n - 1), StateAt(l, commands, start, n - 1))
  }

  lemma RestMeetsInvariant(l: Limits)
    requires l.Valid() && l.lower <= 0.0 <= l.upper
    ensures Inv(l, State(0.0, 0.0))
  {
    BrakingBounds(l, 0.0);
    hide Braking;
  }

  /** For every infinite sequence of commands the velocity, acceleration and jerk limits hold at every step. */
  lemma {:induction false} VelocityRunIsBounded(l: Limits, commands: nat -> real, start: State, n: nat)
    requires l.Valid() && Inv(l, start)
    ensures var s, next := StateAt(l, commands, start, n), StateAt(l, commands, start, n + 1);
            && Inv(l, s)
            && l.lower <= s.velocity <= l.upper
            && Abs(s.acceleration) <= l.maxAcceleration
            && Abs(next.acceleration - s.acceleration) <= l.maxJerk * 0.001
            && next.acceleration == (next.velocity - s.velocity) / 0.001
  {
    hide Inv, LimitVelocity, Braking, Limits.Valid;
    if n > 0 {
      VelocityRunIsBounded(l, commands, start, n - 1);
      InvariantEstablished(l, commands(n - 1), StateAt(l, commands, start, n - 1));
    }
    var s := StateAt(l, commands, start, n);
    StepIsAdmissible(l, commands(n), s);
    assert StateAt(l, commands, start, n + 1) == Step(l, commands(n), s);
    InvariantBounds(l, s);
  }

  lemma InvariantBounds(l: Limits, s: State)
    requires Inv(l, s)
    ensures WithinVelocity(l, s.velocity) && Abs(s.acceleration) <= l.maxAcceleration
  {
  }

  datatype PositionState = PositionState(position: real, state: State)

  /** What the caller of the position overload feeds back: the limited position and its finite differences. */
  function PositionStep(l: Limits, commanded: real, p: PositionState): PositionState {
    var q := LimitPosition(l, commanded, p.position, p.state);
    var v := (q - p.position) / 0.001;
    PositionState(q, State(v, (v - p.state.velocity) / 0.001))
  }

  ghost function PositionAt(l: Limits, commands: nat -> real, start: PositionState, n: nat): PositionState {
    if n == 0 then start else PositionStep(l, commands(n - 1), PositionAt(l, commands, start, n - 1))
  }

  /** The velocity commands that a run of the position overload induces. */
  ghost function InducedCommand(l: Limits, commands: nat -> real, start: PositionState, n: nat): real {
    (commands(n) - PositionAt(l, commands, start, n).position) / 0.001
  }

  lemma PositionStepIsStep(l: Limits, commanded: real, p: PositionState)
    ensures var next := PositionStep(l, commanded, p);
            && next.state == Step(l, (commanded - p.position) / 0.001, p.state)
            && next.state.velocity == (next.position - p.position) / 0.001
            && next.state.acceleration == (next.state.velocity - p.state.velocity) / 0.001
  {
    hide LimitVelocity;
  }

  /** A run of the position overload is a run of the velocity overload on the induced commands. */
  lemma {:induction false} PositionRunRefinesVelocityRun(l: Limits, commands: nat -> real, start: PositionState,
                                                        induced: nat -> real, n: nat)
    requires forall i :: induced(i) == InducedCommand(l, commands, start, i)
    ensures PositionAt(l, commands, start, n).state == StateAt(l, induced, start.state, n)
  {
    hide Step, PositionStep, InducedCommand;
    if n > 0 {
      PositionRunRefinesVelocityRun(l, commands, start, induced, n - 1);
      var p := PositionAt(l, commands, start, n - 1);
      PositionStepIsStep(l, commands(n - 1), p);
      InducedCommandUnfolds(l, commands, start, n - 1);
    }
  }

  lemma InducedCommandUnfolds(l: Limits, commands: nat -> real, start: PositionState, n: nat)
    ensures InducedCommand(l, commands, start, n) == (commands(n) - PositionAt(l, commands, start, n).position) / 0.001
  {
  }

  /** The first three finite differences of the positions sent are bounded in every run. */
  lemma PositionRunIsBounded(l: Limits, commands: nat -> real, start: PositionState, n: nat)
    requires l.Valid() && Inv(l, start.state)
    ensures var p, p1, p2 := PositionAt(l, commands, start, n), PositionAt(l, commands, start, n + 1),
                             PositionAt(l, commands, start, n + 2);
            var v1, v2 := (p1.position - p.position) / 0.001, (p2.position - p1.position) / 0.001;
            var a1, a2 := (v1 - p.state.velocity) / 0.001, (v2 - v1) / 0.001;
            && l.lower <= v1 <= l.upper
            && Abs(a1) <= l.maxAcceleration
            && Abs(a2 - a1) <= l.maxJerk * 0.001
  {
    hide LimitPosition, Step, PositionStep, Inv, Limits.Valid, Abs, InducedCommand;
    var induced := (i: nat) => InducedCommand(l, commands, start, i);
    PositionRunRefinesVelocityRun(l, commands, start, induced, n + 1);
    PositionRunRefinesVelocityRun(l, commands, start, induced, n + 2);
    VelocityRunIsBounded(l, induced, start.state, n + 1);
    PositionStepIsStep(l, commands(n), PositionAt(l, commands, start, n));
    PositionStepIsStep(l, commands(n + 1), PositionAt(l, commands, start, n + 1));
  }

  // ----- Recovery from outside the velocity limits -----

  /** Above the upper limit each step brakes, within the acceleration limit, and never passes the lower limit. */
  lemma RecoveryFromAbove(l: Limits, commanded: real, s: State)
    requires l.Valid() && l.upper < s.velocity
    ensures var next, excess := Step(l, commanded, s), s.velocity - l.upper;
            && next.velocity - l.upper
                <= excess - Min(l.slope * excess * 0.001, l.maxAcceleration * 0.001)
            && Abs(next.acceleration) <= l.maxAcceleration
            && l.lower <= next.velocity
  {
    BrakingBound(l.slope, s.velocity, l.upper);
    BrakingBound(l.slope, s.velocity, l.lower);
    BrakingDifference(l, s.velocity);
    assert Braking(l, l.upper, s.velocity) == -(l.slope * (s.velocity - l.upper));
    assert Braking(l, l.lower, s.velocity) == -(l.slope * (s.velocity - l.lower));
    RecoveryStepAbove(l, commanded, s, l.slope * (s.velocity - l.upper), l.slope * (s.velocity - l.lower));
  }

  lemma BrakingDifference(l: Limits, v: real)
    requires l.Valid()
    ensures Braking(l, l.lower, v) <= Braking(l, l.upper, v)
  {
    ProductMonotone(l.lower - v, l.upper - v, l.slope);
  }

  lemma RecoveryStepAbove(l: Limits, commanded: real, s: State, up: real, down: real)
    requires l.lower <= l.upper < s.velocity && l.maxAcceleration > 0.0
    requires Braking(l, l.upper, s.velocity) == -up && Braking(l, l.lower, s.velocity) == -down
    requires 0.0 <= up <= down && down * 0.001 <= s.velocity - l.lower
    ensures var next, excess := Step(l, commanded, s), s.velocity - l.upper;
            && next.velocity - l.upper <= excess - Min(up * 0.001, l.maxAcceleration * 0.001)
            && Abs(next.acceleration) <= l.maxAcceleration
            && l.lower <= next.velocity
  {
    hide Braking, CommandedAcceleration;
    StepAcceleration(l, commanded, s);
  }

  /** Below the lower limit the deficit shrinks at least by the factor 1 - k*dt, and the step never passes the upper limit. */
  lemma RecoveryFromBelow(l: Limits, commanded: real, s: State)
    requires l.Valid() && s.velocity < l.lower
    ensures var next, deficit := Step(l, commanded, s), l.lower - s.velocity;
            && l.lower - next.velocity <= deficit * (1.0 - l.slope * 0.001)
            && next.velocity <= l.upper
  {
    BrakingBound(l.slope, l.upper, s.velocity);
    BrakingBound(l.slope, l.lower, s.velocity);
    BrakingDifference(l, s.velocity);
    assert (l.lower - s.velocity) * (1.0 - l.slope * 0.001)
        == l.lower - s.velocity - l.slope * (l.lower - s.velocity) * 0.001;
    RecoveryStepBelow(l, commanded, s, Braking(l, l.upper, s.velocity), Braking(l, l.lower, s.velocity));
  }

  lemma RecoveryStepBelow(l: Limits, commanded: real, s: State, up: real, down: real)
    requires s.velocity < l.lower <= l.upper && l.maxAcceleration > 0.0
    requires Braking(l, l.upper, s.velocity) == up && Braking(l, l.lower, s.velocity) == down
    requires 0.0 <= down <= up && up * 0.001 <= l.upper - s.velocity
    ensures var next := Step(l, commanded, s);
            && s.velocity + down * 0.001 <= next.velocity
            && next.velocity <= l.upper
  {
    hide Braking, CommandedAcceleration;
    StepAcceleration(l, commanded, s);
  }

  lemma DeficitStep(l: Limits, commanded: real, s: State, deficit: real)
    requires l.Valid() && s.velocity <= l.upper
    requires l.lower - s.velocity <= deficit && 0.0 <= deficit
    ensures var next := Step(l, commanded, s);
            l.lower - next.velocity <= deficit * (1.0 - l.slope * 0.001) && next.velocity <= l.upper
  {
    hide Step, Braking;
    ProductNonnegative(deficit, 1.0 - l.slope * 0.001);
    if s.velocity < l.lower {
      RecoveryFromBelow(l, commanded, s);
      ProductMonotone(l.lower - s.velocity, deficit, 1.0 - l.slope * 0.001);
    } else {
      StepStaysWithin(l, commanded, s);
    }
  }

  /** From any start below the lower limit, the velocity deficit decays geometrically in every run,
      and the upper limit is never exceeded. */
  lemma {:induction false} DeficitDecays(l: Limits, commands: nat -> real, start: State, n: nat)
    requires l.Valid() && start.velocity <= l.lower
    ensures var s := StateAt(l, commands, start, n);
            && l.lower - s.velocity <= Geometric(l.lower - start.velocity, 1.0 - l.slope * 0.001, n)
            && s.velocity <= l.upper
    ensures 0.0 <= Geometric(l.lower - start.velocity, 1.0 - l.slope * 0.001, n)
  {
    hide Step;
    if n > 0 {
      DeficitDecays(l, commands, start, n - 1);
      var bound := Geometric(l.lower - start.velocity, 1.0 - l.slope * 0.001, n - 1);
      DeficitStep(l, commands(n - 1), StateAt(l, commands, start, n - 1), bound);
      ProductNonnegative(bound, 1.0 - l.slope * 0.001);
    }
  }

  /** The braking acceleration at an excess over the upper limit. */
  function BrakingAt(l: Limits, excess: real): real {
    l.slope * excess
  }

  /** What one sample of braking leaves of an excess. */
  function Braked(l: Limits, excess: real): real {
    excess - Min(BrakingAt(l, excess) * 0.001, l.maxAcceleration * 0.001)
  }

  /** What n samples leave of it. */
  ghost function Excess(l: Limits, excess: real, n: nat): real {
    if n == 0 then excess else Braked(l, Excess(l, excess, n - 1))
  }

  lemma BrakingRises(l: Limits, x: real, y: real)
    requires l.Valid() && x <= y
    ensures 0.0 <= BrakingAt(l, y) - BrakingAt(l, x)
    ensures (BrakingAt(l, y) - BrakingAt(l, x)) * 0.001 <= y - x
    ensures BrakingAt(l, 0.0) == 0.0 && l.maxAcceleration > 0.0
  {
    ProductMonotone(x, y, l.slope);
    ProductNonnegative(y - x, 1.0 - l.slope * 0.001);
  }

  lemma BrakedIsMonotone(l: Limits, x: real, y: real)
    requires l.Valid() && x <= y
    ensures Braked(l, x) <= Braked(l, y)
    ensures x >= 0.0 ==> 0.0 <= Braked(l, x) <= x
  {
    hide BrakingAt, Limits.Valid;
    BrakingRises(l, x, y);
    if x >= 0.0 {
      BrakingRises(l, 0.0, x);
    }
  }

  lemma BrakedIs(l: Limits, excess: real)
    ensures Braked(l, excess) == excess - Min(l.slope * excess * 0.001, l.maxAcceleration * 0.001)
  {
  }

  lemma ExcessStep(l: Limits, commanded: real, s: State, excess: real)
    requires l.Valid() && l.lower <= s.velocity && s.velocity - l.upper <= excess && 0.0 <= excess
    ensures var next := Step(l, commanded, s);
            && next.velocity - l.upper <= Braked(l, excess)
            && l.lower <= next.velocity && next.velocity <= Max(s.velocity, l.upper)
            && Abs(next.acceleration) <= l.maxAcceleration
  {
    hide Step, Braking, Braked;
    BrakedIsMonotone(l, excess, excess);
    if l.upper < s.velocity {
      RecoveryFromAbove(l, commanded, s);
      BrakedIs(l, s.velocity - l.upper);
      BrakedIsMonotone(l, s.velocity - l.upper, excess);
      BrakedIsMonotone(l, s.velocity - l.upper, s.velocity - l.upper);
      assert Step(l, commanded, s).velocity - l.upper <= Braked(l, s.velocity - l.upper);
    } else {
      StepStaysWithin(l, commanded, s);
    }
  }

  /** From any start above the upper limit, in every run, the velocity excess falls at least as fast as braking allows,
      the acceleration stays within its limit, and neither the start nor the lower limit is passed. */
  lemma {:induction false} ExcessDecays(l: Limits, commands: nat -> real, start: State, n: nat)
    requires l.Valid() && l.upper <= start.velocity
    ensures var s := StateAt(l, commands, start, n);
            && s.velocity - l.upper <= Excess(l, start.velocity - l.upper, n)
            && l.lower <= s.velocity <= start.velocity
            && (n > 0 ==> Abs(s.acceleration) <= l.maxAcceleration)
    ensures 0.0 <= Excess(l, start.velocity - l.upper, n)
  {
    hide Step, Braked;
    if n > 0 {
      ExcessDecays(l, commands, start, n - 1);
      var excess := Excess(l, start.velocity - l.upper, n - 1);
      ExcessStep(l, commands(n - 1), StateAt(l, commands, start, n - 1), excess);
      BrakedIsMonotone(l, excess, excess);
    }
  }

  /** Braking is linear, at the acceleration limit, until the slope takes over. */
  lemma {:induction false} ExcessIsLinearFirst(l: Limits, excess: real, n: nat)
    requires l.Valid() && excess >= 0.0
    ensures 0.0 <= Excess(l, excess, n)
    ensures BrakingAt(l, Excess(l, excess, n)) <= l.maxAcceleration
         || Excess(l, excess, n) == excess - n as real * (l.maxAcceleration * 0.001)
  {
    hide Braked, BrakingAt, Limits.Valid;
    if n > 0 {
      ExcessIsLinearFirst(l, excess, n - 1);
      var before := Excess(l, excess, n - 1);
      BrakedIsMonotone(l, before, before);
      BrakedPhase(l, before);
      OneMoreTime(n, l.maxAcceleration * 0.001);
    }
  }

  lemma OneMoreTime(n: nat, x: real)
    requires n > 0
    ensures n as real * x == (n - 1) as real * x + x
  {
  }

  lemma BrakedPhase(l: Limits, excess: real)
    requires l.Valid() && excess >= 0.0
    ensures BrakingAt(l, excess) > l.maxAcceleration ==> Braked(l, excess) == excess - l.maxAcceleration * 0.001
    ensures BrakingAt(l, excess) <= l.maxAcceleration ==>
      Braked(l, excess) == excess * (1.0 - l.slope * 0.001) && BrakingAt(l, Braked(l, excess)) <= l.maxAcceleration
  {
    BrakedIsMonotone(l, excess, excess);
    BrakingRises(l, Braked(l, excess), excess);
    ShrinkFactor(l, excess);
    hide BrakingAt;
  }

  lemma ShrinkFactor(l: Limits, excess: real)
    ensures excess * (1.0 - l.slope * 0.001) == excess - BrakingAt(l, excess) * 0.001
  {
  }

  /** From then on the excess decays geometrically. */
  lemma {:induction false} ExcessIsGeometricThen(l: Limits, excess: real, n: nat)
    requires l.Valid() && excess >= 0.0 && BrakingAt(l, excess) <= l.maxAcceleration
    ensures Excess(l, excess, n) == Geometric(excess, 1.0 - l.slope * 0.001, n)
    ensures 0.0 <= Excess(l, excess, n) && BrakingAt(l, Excess(l, excess, n)) <= l.maxAcceleration
  {
    hide Braked, BrakingAt, Limits.Valid;
    if n > 0 {
      ExcessIsGeometricThen(l, excess, n - 1);
      var before := Excess(l, excess, n - 1);
      BrakedIsMonotone(l, before, before);
      BrakedPhase(l, before);
    }
  }

  lemma {:induction false} ExcessComposes(l: Limits, excess: real, m: nat, n: nat)
    ensures Excess(l, excess, m + n) == Excess(l, Excess(l, excess, m), n)
  {
    hide Braked;
    if n > 0 {
      ExcessComposes(l, excess, m, n - 1);
    }
  }

  /** Once braking at the acceleration limit has had the time to use up the whole excess, what is left decays
      geometrically, from at most maxAcceleration/slope. */
  lemma ExcessPhases(l: Limits, excess: real, m: nat, n: nat)
    requires l.Valid() && excess >= 0.0 && m as real * (l.maxAcceleration * 0.001) >= excess
    ensures BrakingAt(l, Excess(l, excess, m)) <= l.maxAcceleration
    ensures Excess(l, excess, m + n) == Geometric(Excess(l, excess, m), 1.0 - l.slope * 0.001, n)
  {
    hide Braked, BrakingAt;
    ExcessIsLinearFirst(l, excess, m);
    ExcessComposes(l, excess, m, n);
    BrakingRises(l, 0.0, 0.0);
    ExcessIsGeometricThen(l, Excess(l, excess, m), n);
  }
}
