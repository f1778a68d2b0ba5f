/** The limiting of the elbow in src/control_loop.cpp. The call passes the seven arguments of the velocity overload: the
    acceleration limit lands in the lower velocity limit, the jerk limit in the acceleration limit, the commanded elbow in
    the jerk limit, and the last elbow in the commanded velocity. */
module ElbowLimiting {
  import opened RealMath
  import opened RateLimiting

  const K_MAX_ELBOW_JERK := 5000.0 - 0.001
  const K_MAX_ELBOW_ACCELERATION := 10.0 - 0.001
  const K_MAX_ELBOW_VELOCITY := 2.175 - 0.001 - 3.0 * 0.001 * (10.0 - 0.001)

  /** What the control loop sends as elbow. */
  function LimitElbow(commanded: real, last: real, velocity: real, acceleration: real): real {
    LimitVelocity(MakeLimits(K_MAX_ELBOW_VELOCITY, K_MAX_ELBOW_ACCELERATION, K_MAX_ELBOW_JERK, commanded),
                  last, State(velocity, acceleration))
  }

  /** The limits the position overload would have been called with. */
  function ElbowLimits(): Limits {
    MakeLimits(K_MAX_ELBOW_VELOCITY, -K_MAX_ELBOW_VELOCITY, K_MAX_ELBOW_ACCELERATION, K_MAX_ELBOW_JERK)
  }

  /** The acceleration the call arrives at: a multiple of the commanded elbow, within the jerk limit. */
  function ElbowAcceleration(commanded: real, limit: real, velocity: real): real {
    commanded / K_MAX_ELBOW_JERK * (limit - velocity)
  }

  /** For a commanded elbow that is not negative, the call sends this, wherever the elbow is. */
  lemma PositiveElbow(commanded: real, last: real, velocity: real, acceleration: real)
    requires commanded >= 0.0
    ensures LimitElbow(commanded, last, velocity, acceleration) == velocity
         + Max(ElbowAcceleration(commanded, K_MAX_ELBOW_ACCELERATION, velocity), -K_MAX_ELBOW_JERK) * 0.001
  {
    LowerBeatsUpper(commanded, velocity);
    var l := MakeLimits(K_MAX_ELBOW_VELOCITY, K_MAX_ELBOW_ACCELERATION, K_MAX_ELBOW_JERK, commanded);
    assert Braking(l, l.lower, velocity) == ElbowAcceleration(commanded, K_MAX_ELBOW_ACCELERATION, velocity);
    assert Braking(l, l.upper, velocity) == ElbowAcceleration(commanded, K_MAX_ELBOW_VELOCITY, velocity);
    hide Braking, ElbowAcceleration, CommandedAcceleration;
  }

  lemma LowerBeatsUpper(commanded: real, velocity: real)
    requires commanded >= 0.0
    ensures ElbowAcceleration(commanded, K_MAX_ELBOW_VELOCITY, velocity)
         <= ElbowAcceleration(commanded, K_MAX_ELBOW_ACCELERATION, velocity)
  {
    ProductMonotone(K_MAX_ELBOW_VELOCITY - velocity, K_MAX_ELBOW_ACCELERATION - velocity, commanded / K_MAX_ELBOW_JERK);
  }

  /** For a negative one, the jerk clamp is turned inside out and always adds the same amount. */
  lemma NegativeElbow(commanded: real, last: real, velocity: real, acceleration: real)
    requires commanded < 0.0
    ensures LimitElbow(commanded, last, velocity, acceleration) == velocity
         + Max(Min(acceleration - commanded * 0.001,
                   Min(ElbowAcceleration(commanded, K_MAX_ELBOW_VELOCITY, velocity), K_MAX_ELBOW_JERK)),
               Max(ElbowAcceleration(commanded, K_MAX_ELBOW_ACCELERATION, velocity), -K_MAX_ELBOW_JERK)) * 0.001
  {
    var l := MakeLimits(K_MAX_ELBOW_VELOCITY, K_MAX_ELBOW_ACCELERATION, K_MAX_ELBOW_JERK, commanded);
    assert Braking(l, l.lower, velocity) == ElbowAcceleration(commanded, K_MAX_ELBOW_ACCELERATION, velocity);
    assert Braking(l, l.upper, velocity) == ElbowAcceleration(commanded, K_MAX_ELBOW_VELOCITY, velocity);
    hide Braking, ElbowAcceleration, CommandedJerk;
  }

  /** The position of the elbow has no influence on what is sent. */
  lemma ElbowPositionIsIgnored(commanded: real, last: real, last': real, velocity: real, acceleration: real)
    ensures LimitElbow(commanded, last, velocity, acceleration) == LimitElbow(commanded, last', velocity, acceleration)
  {
    hide LimitElbow, ElbowAcceleration, Max, Min;
    if commanded >= 0.0 {
      PositiveElbow(commanded, last, velocity, acceleration);
      PositiveElbow(commanded, last', velocity, acceleration);
    } else {
      NegativeElbow(commanded, last, velocity, acceleration);
      NegativeElbow(commanded, last', velocity, acceleration);
    }
  }

  lemma AccelerationAtRest(commanded: real, limit: real)
    requires 0.0 <= limit <= 10.0
    ensures commanded >= 0.0 ==> 0.0 <= ElbowAcceleration(commanded, limit, 0.0) <= 0.003 * commanded
    ensures commanded <= 0.0 ==> 0.003 * commanded <= ElbowAcceleration(commanded, limit, 0.0) <= 0.0
  {
    var ratio := commanded / K_MAX_ELBOW_JERK;
    assert ratio * K_MAX_ELBOW_JERK == commanded;
    if commanded >= 0.0 {
      ProductNonnegative(ratio, limit);
      ProductNonnegative(ratio, 10.0 - limit);
    } else {
      ProductNonnegative(-ratio, limit);
      ProductNonnegative(-ratio, 10.0 - limit);
    }
  }

  lemma RestIsKept(l: Limits, rest: State)
    requires l.Valid() && l.lower <= 0.0 <= l.upper && rest == State(0.0, 0.0)
    ensures LimitVelocity(l, 0.0, rest) == 0.0
  {
    BrakingBounds(l, 0.0);
    hide Braking, LimitVelocity;
    AdmissibleCommandUnchanged(l, 0.0, rest);
  }

  /** With those limits the run theorems hold. */
  lemma ElbowLimitsAreValid()
    ensures ElbowLimits().Valid() && ElbowLimits().lower <= 0.0 <= ElbowLimits().upper
  {
    MakeLimitsValid(K_MAX_ELBOW_VELOCITY, -K_MAX_ELBOW_VELOCITY, K_MAX_ELBOW_ACCELERATION, K_MAX_ELBOW_JERK);
    hide Limits.Valid;
  }

  lemma HeldPosition(l: Limits, elbow: real)
    requires l.Valid() && l.lower <= 0.0 <= l.upper
    ensures LimitPosition(l, elbow, elbow, State(0.0, 0.0)) == elbow
  {
    hide LimitVelocity, Limits.Valid;
    RestIsKept(l, State(0.0, 0.0));
  }

  /** An elbow held still is sent to almost zero, whatever its position; the position overload would hold it. */
  lemma HeldElbowIsSentToZero(elbow: real)
    ensures Abs(LimitElbow(elbow, elbow, 0.0, 0.0)) <= 0.000003 * Abs(elbow)
    ensures LimitPosition(ElbowLimits(), elbow, elbow, State(0.0, 0.0)) == elbow
  {
    hide LimitElbow, LimitPosition, ElbowLimits, ElbowAcceleration;
    ElbowLimitsAreValid();
    HeldPosition(ElbowLimits(), elbow);
    AccelerationAtRest(elbow, K_MAX_ELBOW_VELOCITY);
    AccelerationAtRest(elbow, K_MAX_ELBOW_ACCELERATION);
    if elbow >= 0.0 {
      PositiveElbow(elbow, elbow, 0.0, 0.0);
    } else {
      NegativeElbow(elbow, elbow, 0.0, 0.0);
    }
  }

  /** The call keeps an elbow where it is held exactly at zero. */
  lemma HeldElbowIff(elbow: real)
    ensures LimitElbow(elbow, elbow, 0.0, 0.0) == elbow <==> elbow == 0.0
  {
    hide LimitElbow, LimitPosition, ElbowLimits;
    HeldElbowIsSentToZero(elbow);
  }

  /** So at half a radian the elbow jumps by half a radian in one sample. */
  lemma ElbowJumps()
    ensures LimitElbow(0.5, 0.5, 0.0, 0.0) < 0.001
  {
    HeldElbowIsSentToZero(0.5);
    hide LimitElbow;
  }
}
