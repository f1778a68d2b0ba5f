/** The three-phase motion of one joint that MotionGenerator evaluates (examples/examples_common.cpp). */
module Trajectory {
  import opened RealMath
  import Ramp

  /** The synchronised values of one joint, as the generator stores them. */
  datatype JointPlan = JointPlan(delta: real, speed: real, t1: real, t2: real, tf: real, q1: real)

  /** Eigen's cwiseSign. */
  function Sign(x: real): real {
    if x > 0.0 then 1.0 else if x < 0.0 then -1.0 else 0.0
  }

  function Cube(x: real): real {
    x * x * x
  }

  /** A joint whose distance is below this is not moved. */
  const K_DELTA_Q_MOTION_FINISHED := 0.000001

  function FirstPhase(p: JointPlan, t: real): real
    requires p.t1 > 0.0
  {
    -1.0 / Cube(p.t1) * p.speed * Sign(p.delta) * (0.5 * t - p.t1) * Cube(t)
  }

  function SecondPhase(p: JointPlan, t: real): real {
    p.q1 + (t - p.t1) * p.speed * Sign(p.delta)
  }

  function ThirdPhase(p: JointPlan, t: real): real
    requires p.tf > p.t2
  {
    var d2, td := p.tf - p.t2, p.t2 - p.t1;
    p.delta + 0.5 * (1.0 / Cube(d2) * (t - p.t1 - 2.0 * d2 - td) * Cube(t - p.t1 - td)
                     + (2.0 * t - 2.0 * p.t1 - d2 - 2.0 * td)) * p.speed * Sign(p.delta)
  }

  /** The body of the loop of calculateDesiredValues for one joint: the desired offset from the start
      and whether the joint has finished. */
  function DesiredValue(p: JointPlan, t: real): (real, bool)
    requires t >= 0.0
  {
    if Abs(p.delta) < K_DELTA_Q_MOTION_FINISHED then (0.0, true)
    else if t < p.t1 then (FirstPhase(p, t), false)
    else if t < p.t2 then (SecondPhase(p, t), false)
    else if t < p.tf then (ThirdPhase(p, t), false)
    else (p.delta, true)
  }

  /** What the synchronisation establishes for a joint that moves. */
  ghost predicate Consistent(p: JointPlan, startAcceleration: real, goalAcceleration: real) {
    && Abs(p.delta) > K_DELTA_Q_MOTION_FINISHED
    && startAcceleration > 0.0 && goalAcceleration > 0.0 && p.speed > 0.0
    && startAcceleration * p.t1 == 1.5 * p.speed
    && goalAcceleration * (p.tf - p.t2) == 1.5 * p.speed
    && 0.0 < p.t1 <= p.t2 < p.tf
    && p.speed * (p.tf - 0.5 * p.t1 - 0.5 * (p.tf - p.t2)) == Abs(p.delta)
    && p.q1 == p.speed * Sign(p.delta) * (0.5 * p.t1)
  }

  // ----- The same motion, as progress toward the goal -----

  function SpeedUpFraction(p: JointPlan, t: real): real
    requires p.t1 != 0.0
  {
    t / p.t1
  }

  function SlowDownFraction(p: JointPlan, t: real): real
    requires p.tf != p.t2
  {
    (p.tf - t) / (p.tf - p.t2)
  }

  function SpeedUp(p: JointPlan, t: real): real
    requires p.t1 != 0.0
  {
    p.speed * p.t1 * Ramp.Distance(SpeedUpFraction(p, t))
  }

  function Cruise(p: JointPlan, t: real): real {
    p.speed * (t - 0.5 * p.t1)
  }

  function SlowDown(p: JointPlan, t: real): real
    requires p.tf != p.t2
  {
    Abs(p.delta) - p.speed * (p.tf - p.t2) * Ramp.Distance(SlowDownFraction(p, t))
  }

  /** Distance covered toward the goal by time t. */
  function Progress(p: JointPlan, t: real): real
    requires 0.0 < p.t1 <= p.t2 < p.tf
  {
    if t < p.t1 then SpeedUp(p, t)
    else if t < p.t2 then Cruise(p, t)
    else if t < p.tf then SlowDown(p, t)
    else Abs(p.delta)
  }

  lemma SpeedUpFormula(p: JointPlan, t: real)
    requires p.t1 > 0.0
    ensures FirstPhase(p, t) == Sign(p.delta) * SpeedUp(p, t)
  {
    hide Ramp.Distance, Cube, Sign;
    CubePositive(p.t1);
    var x, r, T := t / p.t1, 1.0 / Cube(p.t1), p.t1;
    assert x * T == t;
    assert r * Cube(T) == 1.0;
    assert -1.0 / Cube(T) == -r;
    SpeedUpPolynomial(x, T, t, r);
    FirstPhaseFactors(r, p.speed, Sign(p.delta), 0.5 * t - T, Cube(t), T * Ramp.Distance(x));
  }

  lemma SpeedUpPolynomial(x: real, T: real, t: real, r: real)
    requires x * T == t && r * Cube(T) == 1.0
    ensures r * (0.5 * t - T) * Cube(t) == -(T * Ramp.Distance(x))
  {
  }

  lemma FirstPhaseFactors(r: real, speed: real, sign: real, u: real, cube: real, d: real)
    requires r * u * cube == -d
    ensures -r * speed * sign * u * cube == sign * (speed * d)
  {
    assert -r * speed * sign * u * cube == -(speed * sign) * (r * u * cube);
  }

  lemma CubePositive(x: real)
    requires x > 0.0
    ensures Cube(x) > 0.0
  {
  }

  lemma SlowDownFormula(p: JointPlan, t: real)
    requires p.tf > p.t2
    ensures ThirdPhase(p, t) == Sign(p.delta) * SlowDown(p, t)
  {
    var d2, td, u := p.tf - p.t2, p.t2 - p.t1, t - p.t2;
    var y, x, r := u / d2, (p.tf - t) / d2, 1.0 / Cube(d2);
    CubePositive(d2);
    assert y * d2 == u;
    assert r * Cube(d2) == 1.0;
    assert x == 1.0 - y by { assert x * d2 == p.tf - t; SameRatio(x, y, d2); }
    Ramp.Mirror(y);
    SlowDownPolynomial(y, d2, u, r);
  }

  lemma SameRatio(x: real, y: real, d: real)
    requires d > 0.0 && x * d == (1.0 - y) * d
    ensures x == 1.0 - y
  {
  }

  lemma SlowDownPolynomial(y: real, d: real, u: real, r: real)
    requires y * d == u && r * Cube(d) == 1.0
    ensures 0.5 * (r * (u - 2.0 * d) * Cube(u) + (2.0 * u - d)) == -(d * Ramp.Distance(1.0 - y))
  {
  }

  /** The offsets the generator computes are the progress toward the goal, with the sign of the distance;
      the joint reports that it has finished exactly from tf on, and there the offset is the whole distance. */
  lemma DesiredValueIsProgress(p: JointPlan, startAcceleration: real, goalAcceleration: real, t: real)
    requires Consistent(p, startAcceleration, goalAcceleration) && t >= 0.0
    ensures DesiredValue(p, t).0 == Sign(p.delta) * Progress(p, t)
    ensures DesiredValue(p, t).1 <==> p.tf <= t
    ensures p.tf <= t ==> DesiredValue(p, t).0 == p.delta
  {
    assert Sign(p.delta) * Abs(p.delta) == p.delta;
    hide SpeedUp, SlowDown, Cruise, FirstPhase, SecondPhase, ThirdPhase, Sign;
    SpeedUpFormula(p, t);
    SlowDownFormula(p, t);
    CruiseFormula(p, Sign(p.delta), t);
  }

  lemma CruiseFormula(p: JointPlan, sign: real, t: real)
    requires p.q1 == p.speed * sign * (0.5 * p.t1)
    ensures sign == Sign(p.delta) ==> SecondPhase(p, t) == sign * Cruise(p, t)
  {
  }

  /** The speed toward the goal. */
  ghost function Velocity(p: JointPlan, t: real): real
    requires 0.0 < p.t1 <= p.t2 < p.tf
  {
    if t < p.t1 then p.speed * Ramp.Speed(SpeedUpFraction(p, t))
    else if t < p.t2 then p.speed
    else if t < p.tf then p.speed * Ramp.Speed(SlowDownFraction(p, t))
    else 0.0
  }

  /** Over a time dt the joint moves toward the goal by `distance`, between a lower speed and a higher one;
      the two differ by no more than an acceleration limit allows. */
  ghost predicate Moves(distance: real, low: real, high: real, speed: real, acceleration: real, dt: real) {
    && low * dt <= distance <= high * dt
    && 0.0 <= low <= high <= speed
    && high - low <= acceleration * dt
  }

  /** One ramp of duration T, between two of its fractions x <= y that are w apart, which takes dt. */
  lemma RampStep(speed: real, T: real, a: real, x: real, y: real, w: real, dt: real,
                 from: real, to: real, low: real, high: real)
    requires speed > 0.0 && T > 0.0 && a * T == 1.5 * speed
    requires Ramp.Unit(x) && Ramp.Unit(y) && 0.0 <= w == y - x && w * T == dt
    requires from == speed * T * Ramp.Distance(x) && to == speed * T * Ramp.Distance(y)
    requires low == speed * Ramp.Speed(x) && high == speed * Ramp.Speed(y)
    ensures Moves(to - from, low, high, speed, a, dt)
  {
    hide Ramp.Speed, Ramp.Distance, Moves;
    Ramp.MeanSpeed(x, y, w);
    Ramp.SpeedRises(x, y);
    Ramp.SpeedIsUnit(x);
    Ramp.SpeedIsUnit(y);
    ScaleUp(speed, T, Ramp.Speed(x), Ramp.Speed(y), Ramp.Distance(x), Ramp.Distance(y), w, dt, a,
            from, to, low, high);
  }

  lemma ScaleUp(speed: real, T: real, s: real, s': real, d: real, d': real, w: real, dt: real, a: real,
                from: real, to: real, low: real, high: real)
    requires speed > 0.0 && T > 0.0 && w >= 0.0 && w * T == dt && a * T == 1.5 * speed
    requires s * w <= d' - d <= s' * w && 0.0 <= s <= s' <= 1.0 && s' - s <= 1.5 * w
    requires from == speed * T * d && to == speed * T * d' && low == speed * s && high == speed * s'
    ensures Moves(to - from, low, high, speed, a, dt)
  {
    ProductPositive(speed, T);
    ScaleDistance(speed, T, s, s', d, d', w, dt, from, to, low, high);
    ScaleSpeed(speed, T, s, s', w, dt, a);
  }

  lemma ScaleDistance(speed: real, T: real, s: real, s': real, d: real, d': real, w: real, dt: real,
                      from: real, to: real, low: real, high: real)
    requires speed * T > 0.0 && w * T == dt && s * w <= d' - d <= s' * w
    requires from == speed * T * d && to == speed * T * d' && low == speed * s && high == speed * s'
    ensures low * dt <= to - from <= high * dt
  {
    ProductMonotone(s * w, d' - d, speed * T);
    ProductMonotone(d' - d, s' * w, speed * T);
    Regroup(speed, T, s, w, dt, low);
    Regroup(speed, T, s', w, dt, high);
  }

  lemma Regroup(speed: real, T: real, s: real, w: real, dt: real, low: real)
    requires w * T == dt && low == speed * s
    ensures low * dt == s * w * (speed * T)
  {
  }

  lemma ScaleSpeed(speed: real, T: real, s: real, s': real, w: real, dt: real, a: real)
    requires speed > 0.0 && w * T == dt && a * T == 1.5 * speed
    requires 0.0 <= s <= s' <= 1.0 && s' - s <= 1.5 * w
    ensures 0.0 <= speed * s <= speed * s' <= speed
    ensures speed * s' - speed * s <= a * dt
  {
    ProductNonnegative(s, speed);
    ProductMonotone(s, s', speed);
    ProductMonotone(s', 1.0, speed);
    ProductMonotone(s' - s, 1.5 * w, speed);
    assert a * dt == a * T * w;
  }

  // ----- The motion in time -----

  lemma ConsistentOrder(p: JointPlan, start: real, goal: real)
    requires Consistent(p, start, goal)
    ensures 0.0 < p.t1 <= p.t2 < p.tf && p.speed > 0.0 && start > 0.0 && goal > 0.0 && Abs(p.delta) > 0.0
    ensures start * p.t1 == 1.5 * p.speed && goal * (p.tf - p.t2) == 1.5 * p.speed
  {
  }

  lemma SpeedUpFractions(p: JointPlan, t: real)
    requires 0.0 <= t <= p.t1 && 0.0 < p.t1
    ensures Ramp.Unit(SpeedUpFraction(p, t)) && SpeedUpFraction(p, t) * p.t1 == t
    ensures SpeedUpFraction(p, p.t1) == 1.0
  {
    RatioIsUnit(t, p.t1);
  }

  lemma SlowDownFractions(p: JointPlan, t: real)
    requires p.t2 <= t <= p.tf && p.t2 < p.tf
    ensures Ramp.Unit(SlowDownFraction(p, t)) && SlowDownFraction(p, t) * (p.tf - p.t2) == p.tf - t
    ensures SlowDownFraction(p, p.t2) == 1.0 && SlowDownFraction(p, p.tf) == 0.0
  {
    RatioIsUnit(p.tf - t, p.tf - p.t2);
    RatioOfEnds(p.tf - p.t2);
  }

  lemma RatioIsUnit(t: real, T: real)
    requires 0.0 <= t <= T && T > 0.0
    ensures Ramp.Unit(t / T) && t / T * T == t
  {
    var x := t / T;
    assert x * T == t;
    if x < 0.0 { ProductPositive(-x, T); }
    if x > 1.0 { ProductPositive(x - 1.0, T); }
  }

  lemma RatioOfEnds(T: real)
    requires T > 0.0
    ensures T / T == 1.0 && 0.0 / T == 0.0
  {
  }

  /** The phases agree where they meet. */
  lemma PhasesMeet(p: JointPlan, startAcceleration: real, goalAcceleration: real)
    requires Consistent(p, startAcceleration, goalAcceleration)
    ensures SpeedUp(p, p.t1) == Cruise(p, p.t1)
    ensures Cruise(p, p.t2) == SlowDown(p, p.t2)
    ensures SlowDown(p, p.tf) == Abs(p.delta)
    ensures p.speed * Ramp.Speed(SpeedUpFraction(p, p.t1)) == p.speed
    ensures p.speed * Ramp.Speed(SlowDownFraction(p, p.t2)) == p.speed
    ensures p.speed * Ramp.Speed(SlowDownFraction(p, p.tf)) == 0.0
  {
    hide Ramp.Distance, Ramp.Speed, SpeedUpFraction, SlowDownFraction, Ramp.Unit, Abs;
    SpeedUpFractions(p, p.t1);
    SlowDownFractions(p, p.t2);
    Ramp.EndPoints();
  }

  /** On each closed phase, progress and velocity are those of the phase. */
  lemma PhaseValues(p: JointPlan, startAcceleration: real, goalAcceleration: real, t: real)
    requires Consistent(p, startAcceleration, goalAcceleration) && 0.0 <= t
    ensures t <= p.t1 ==> Progress(p, t) == SpeedUp(p, t)
                          && Velocity(p, t) == p.speed * Ramp.Speed(SpeedUpFraction(p, t))
    ensures p.t1 <= t <= p.t2 ==> Progress(p, t) == Cruise(p, t) && Velocity(p, t) == p.speed
    ensures p.t2 <= t <= p.tf ==> Progress(p, t) == SlowDown(p, t)
                                  && Velocity(p, t) == p.speed * Ramp.Speed(SlowDownFraction(p, t))
    ensures p.tf <= t ==> Progress(p, t) == Abs(p.delta) && Velocity(p, t) == 0.0
  {
    hide Consistent, SpeedUp, Cruise, SlowDown, Ramp.Speed, SpeedUpFraction, SlowDownFraction, Abs;
    ConsistentOrder(p, startAcceleration, goalAcceleration);
    PhasesMeet(p, startAcceleration, goalAcceleration);
  }

  /** Over a time dt the joint moves toward the goal, never backwards and never faster than `speed`; the velocity
      changes by at most the acceleration limit, and `v` is the derivative of the motion up to a quadratic error. */
  ghost predicate Smooth(distance: real, v: real, v': real, speed: real, acceleration: real, dt: real) {
    && 0.0 <= distance <= speed * dt
    && Abs(v' - v) <= acceleration * dt
    && Abs(distance - v * dt) <= acceleration * dt * dt
  }

  lemma RisingIsSmooth(distance: real, v: real, v': real, speed: real, a: real, acceleration: real, dt: real)
    requires Moves(distance, v, v', speed, a, dt) && 0.0 <= a <= acceleration && dt >= 0.0
    ensures Smooth(distance, v, v', speed, acceleration, dt)
  {
  }

  lemma FallingIsSmooth(distance: real, v: real, v': real, speed: real, a: real, acceleration: real, dt: real)
    requires Moves(distance, v', v, speed, a, dt) && 0.0 <= a <= acceleration && dt >= 0.0
    ensures Smooth(distance, v, v', speed, acceleration, dt)
  {
  }

  lemma SmoothChain(d: real, d': real, u: real, v: real, w: real, speed: real, a: real, dt: real, dt': real)
    requires Smooth(d, u, v, speed, a, dt) && Smooth(d', v, w, speed, a, dt') && dt >= 0.0 && dt' >= 0.0 && a >= 0.0
    ensures Smooth(d + d', u, w, speed, a, dt + dt')
  {
    SmoothChainSpeed(d, d', u, v, w, speed, a, dt, dt');
    SmoothChainDistance(d, d', u, v, a, dt, dt');
  }

  lemma SmoothChainSpeed(d: real, d': real, u: real, v: real, w: real, speed: real, a: real, dt: real, dt': real)
    requires 0.0 <= d <= speed * dt && 0.0 <= d' <= speed * dt' && Abs(v - u) <= a * dt && Abs(w - v) <= a * dt'
    ensures 0.0 <= d + d' <= speed * (dt + dt') && Abs(w - u) <= a * (dt + dt')
  {
  }

  lemma SmoothChainDistance(d: real, d': real, u: real, v: real, a: real, dt: real, dt': real)
    requires Abs(d - u * dt) <= a * dt * dt && Abs(d' - v * dt') <= a * dt' * dt'
    requires Abs(v - u) <= a * dt && dt >= 0.0 && dt' >= 0.0 && a >= 0.0
    ensures Abs(d + d' - u * (dt + dt')) <= a * (dt + dt') * (dt + dt')
  {
    hide Abs;
    VelocityTimes(u, v, a, dt, dt');
    SquareOfSum(a, dt, dt');
    ChainLinear(d, d', u * dt, u * dt', v * dt', a * dt * dt, a * dt' * dt', a * (dt * dt'));
    Distribute(u, dt, dt');
  }

  lemma Distribute(u: real, x: real, y: real)
    ensures u * (x + y) == u * x + u * y
  {
  }

  lemma VelocityTimes(u: real, v: real, a: real, dt: real, dt': real)
    requires Abs(v - u) <= a * dt && dt >= 0.0 && dt' >= 0.0 && a >= 0.0
    ensures Abs(v * dt' - u * dt') <= a * (dt * dt') && 0.0 <= a * (dt * dt')
  {
    ProductMonotone(Abs(v - u), a * dt, dt');
    AbsTimes(v, u, dt');
    ProductNonnegative(dt, dt');
    ProductNonnegative(a, dt * dt');
    hide Abs;
  }

  lemma AbsTimes(v: real, u: real, k: real)
    requires k >= 0.0
    ensures Abs(v - u) * k == Abs(v * k - u * k)
  {
    if v < u { ProductNonnegative(u - v, k); } else { ProductNonnegative(v - u, k); }
  }

  lemma SquareOfSum(a: real, x: real, y: real)
    ensures a * (x + y) * (x + y) == a * x * x + 2.0 * (a * (x * y)) + a * y * y
    ensures a * x * y == a * (x * y)
  {
  }

  lemma ChainLinear(d: real, d': real, ud: real, ud': real, vd': real, e: real, e': real, c: real)
    requires Abs(d - ud) <= e && Abs(d' - vd') <= e' && Abs(vd' - ud') <= c && 0.0 <= c
    ensures Abs(d + d' - (ud + ud')) <= e + 2.0 * c + e'
  {
  }

  /** A ramp of duration T, at fraction x of it and time t. */
  ghost predicate RampAt(speed: real, T: real, x: real, t: real, distance: real, v: real) {
    && Ramp.Unit(x) && x * T == t
    && distance == speed * T * Ramp.Distance(x) && v == speed * Ramp.Speed(x)
  }

  /** The peak acceleration of a ramp of duration T is a. */
  ghost predicate Peak(speed: real, T: real, a: real) {
    speed > 0.0 && T > 0.0 && a * T == 1.5 * speed
  }

  lemma RampBetween(speed: real, T: real, a: real, x: real, y: real, t: real, t': real, dt: real,
                    from: real, to: real, distance: real, low: real, high: real)
    requires Peak(speed, T, a) && 0.0 <= dt == t' - t && distance == to - from
    requires RampAt(speed, T, x, t, from, low) && RampAt(speed, T, y, t', to, high)
    ensures Moves(distance, low, high, speed, a, dt)
  {
    hide Ramp.Speed, Ramp.Distance, Moves, Ramp.Unit;
    var w := y - x;
    FractionsOrdered(x, y, w, T, t, t');
    RampStep(speed, T, a, x, y, w, dt, from, to, low, high);
  }

  lemma FractionsOrdered(x: real, y: real, w: real, T: real, t: real, t': real)
    requires T > 0.0 && x * T == t && y * T == t' && t <= t' && w == y - x
    ensures 0.0 <= w && w * T == t' - t
  {
    if w < 0.0 { ProductPositive(-w, T); }
  }

  lemma SpeedUpAt(p: JointPlan, start: real, goal: real, t: real)
    requires Consistent(p, start, goal) && 0.0 <= t <= p.t1
    ensures RampAt(p.speed, p.t1, SpeedUpFraction(p, t), t, Progress(p, t), Velocity(p, t))
    ensures Peak(p.speed, p.t1, start)
  {
    hide Consistent, Progress, Velocity, SpeedUpFraction, SpeedUp, RampAt, Ramp.Speed;
    ConsistentOrder(p, start, goal);
    PhaseValues(p, start, goal, t);
    SpeedUpIsRamp(p, t, p.speed * Ramp.Speed(SpeedUpFraction(p, t)));
  }

  lemma SpeedUpIsRamp(p: JointPlan, t: real, v: real)
    requires 0.0 <= t <= p.t1 && 0.0 < p.t1 && v == p.speed * Ramp.Speed(SpeedUpFraction(p, t))
    ensures RampAt(p.speed, p.t1, SpeedUpFraction(p, t), t, SpeedUp(p, t), v)
  {
    hide SpeedUpFraction, Ramp.Distance, Ramp.Speed, Ramp.Unit;
    SpeedUpFractions(p, t);
  }

  lemma SlowDownAt(p: JointPlan, start: real, goal: real, t: real)
    requires Consistent(p, start, goal) && p.t2 <= t <= p.tf
    ensures RampAt(p.speed, p.tf - p.t2, SlowDownFraction(p, t), p.tf - t, Abs(p.delta) - Progress(p, t), Velocity(p, t))
    ensures Peak(p.speed, p.tf - p.t2, goal)
  {
    hide Consistent, Progress, Velocity, SlowDownFraction, SlowDown, RampAt, Ramp.Speed, Abs;
    ConsistentOrder(p, start, goal);
    PhaseValues(p, start, goal, t);
    SlowDownIsRamp(p, t, p.speed * Ramp.Speed(SlowDownFraction(p, t)));
  }

  lemma SlowDownIsRamp(p: JointPlan, t: real, v: real)
    requires p.t2 <= t <= p.tf && p.t2 < p.tf && v == p.speed * Ramp.Speed(SlowDownFraction(p, t))
    ensures RampAt(p.speed, p.tf - p.t2, SlowDownFraction(p, t), p.tf - t, Abs(p.delta) - SlowDown(p, t), v)
  {
    hide SlowDownFraction, Ramp.Distance, Ramp.Speed, Ramp.Unit, Abs;
    SlowDownFractions(p, t);
  }

  /** While speeding up the velocity rises, at most at the start acceleration limit. */
  lemma SpeedUpStep(p: JointPlan, start: real, goal: real, t: real, t': real)
    requires Consistent(p, start, goal) && 0.0 <= t <= t' <= p.t1
    ensures Moves(Progress(p, t') - Progress(p, t), Velocity(p, t), Velocity(p, t'), p.speed, start, t' - t)
  {
    SpeedUpAt(p, start, goal, t);
    SpeedUpAt(p, start, goal, t');
    hide Consistent, Progress, Velocity, SpeedUpFraction, Moves, RampAt, Peak;
    RampBetween(p.speed, p.t1, start, SpeedUpFraction(p, t), SpeedUpFraction(p, t'), t, t', t' - t,
                Progress(p, t), Progress(p, t'), Progress(p, t') - Progress(p, t), Velocity(p, t), Velocity(p, t'));
  }

  /** While slowing down the velocity falls, at most at the goal acceleration limit. */
  lemma SlowDownStep(p: JointPlan, start: real, goal: real, t: real, t': real)
    requires Consistent(p, start, goal) && p.t2 <= t <= t' <= p.tf
    ensures Moves(Progress(p, t') - Progress(p, t), Velocity(p, t'), Velocity(p, t), p.speed, goal, t' - t)
  {
    SlowDownAt(p, start, goal, t);
    SlowDownAt(p, start, goal, t');
    hide Consistent, Progress, Velocity, SlowDownFraction, Moves, RampAt, Peak, Abs;
    RampBetween(p.speed, p.tf - p.t2, goal, SlowDownFraction(p, t'), SlowDownFraction(p, t),
                p.tf - t', p.tf - t, t' - t, Abs(p.delta) - Progress(p, t'), Abs(p.delta) - Progress(p, t),
                Progress(p, t') - Progress(p, t), Velocity(p, t'), Velocity(p, t));
  }

  /** Between the ramps the velocity is constant, and after the end nothing moves. */
  lemma ConstantStep(p: JointPlan, startAcceleration: real, goalAcceleration: real, t: real, t': real)
    requires Consistent(p, startAcceleration, goalAcceleration) && t <= t' && (p.t1 <= t <= t' <= p.t2 || p.tf <= t)
    ensures Moves(Progress(p, t') - Progress(p, t), Velocity(p, t), Velocity(p, t'), p.speed, 0.0, t' - t)
  {
    hide Consistent, Progress, Velocity, SpeedUp, SlowDown, Abs;
    ConsistentOrder(p, startAcceleration, goalAcceleration);
    PhaseValues(p, startAcceleration, goalAcceleration, t);
    PhaseValues(p, startAcceleration, goalAcceleration, t');
    CruiseStep(p, t, t');
  }

  lemma CruiseStep(p: JointPlan, t: real, t': real)
    ensures Cruise(p, t') - Cruise(p, t) == p.speed * (t' - t)
  {
  }

  ghost predicate SmoothBetween(p: JointPlan, acceleration: real, t: real, t': real)
    requires 0.0 < p.t1 <= p.t2 < p.tf
  {
    Smooth(Progress(p, t') - Progress(p, t), Velocity(p, t), Velocity(p, t'), p.speed, acceleration, t' - t)
  }

  lemma SmoothVia(p: JointPlan, acceleration: real, t: real, m: real, t': real)
    requires 0.0 < p.t1 <= p.t2 < p.tf && t <= m <= t' && acceleration >= 0.0
    requires SmoothBetween(p, acceleration, t, m) && SmoothBetween(p, acceleration, m, t')
    ensures SmoothBetween(p, acceleration, t, t')
  {
    hide Smooth, Progress, Velocity;
    SmoothChain(Progress(p, m) - Progress(p, t), Progress(p, t') - Progress(p, m),
                Velocity(p, t), Velocity(p, m), Velocity(p, t'), p.speed, acceleration, m - t, t' - m);
  }

  lemma SmoothInPhase(p: JointPlan, start: real, goal: real, t: real, t': real)
    requires Consistent(p, start, goal) && 0.0 <= t <= t'
    requires t' <= p.t1 || (p.t1 <= t && t' <= p.t2) || (p.t2 <= t && t' <= p.tf) || p.tf <= t
    ensures SmoothBetween(p, Max(start, goal), t, t')
  {
    hide Progress, Velocity, Smooth, Moves;
    var d, v, v', dt := Progress(p, t') - Progress(p, t), Velocity(p, t), Velocity(p, t'), t' - t;
    if t' <= p.t1 {
      SpeedUpStep(p, start, goal, t, t');
      RisingIsSmooth(d, v, v', p.speed, start, Max(start, goal), dt);
    } else if (p.t1 <= t && t' <= p.t2) || p.tf <= t {
      ConstantStep(p, start, goal, t, t');
      RisingIsSmooth(d, v, v', p.speed, 0.0, Max(start, goal), dt);
    } else {
      SlowDownStep(p, start, goal, t, t');
      FallingIsSmooth(d, v, v', p.speed, goal, Max(start, goal), dt);
    }
  }

  lemma SmoothFromSlowDown(p: JointPlan, start: real, goal: real, t: real, t': real)
    requires Consistent(p, start, goal) && p.t2 <= t <= t'
    ensures SmoothBetween(p, Max(start, goal), t, t')
  {
    hide SmoothBetween;
    if t < p.tf < t' {
      SmoothInPhase(p, start, goal, t, p.tf);
      SmoothInPhase(p, start, goal, p.tf, t');
      SmoothVia(p, Max(start, goal), t, p.tf, t');
    } else {
      SmoothInPhase(p, start, goal, t, t');
    }
  }

  lemma SmoothFromCruise(p: JointPlan, start: real, goal: real, t: real, t': real)
    requires Consistent(p, start, goal) && p.t1 <= t <= t'
    ensures SmoothBetween(p, Max(start, goal), t, t')
  {
    hide SmoothBetween;
    if p.t2 <= t {
      SmoothFromSlowDown(p, start, goal, t, t');
    } else if p.t2 < t' {
      SmoothInPhase(p, start, goal, t, p.t2);
      SmoothFromSlowDown(p, start, goal, p.t2, t');
      SmoothVia(p, Max(start, goal), t, p.t2, t');
    } else {
      SmoothInPhase(p, start, goal, t, t');
    }
  }

  /** Between any two times the joint moves toward its goal without reversing, no faster than the synchronised speed;
      its velocity changes no faster than the larger acceleration limit. */
  lemma MotionIsSmooth(p: JointPlan, start: real, goal: real, t: real, t': real)
    requires Consistent(p, start, goal) && 0.0 <= t <= t'
    ensures SmoothBetween(p, Max(start, goal), t, t')
  {
    hide SmoothBetween;
    if p.t1 <= t {
      SmoothFromCruise(p, start, goal, t, t');
    } else if p.t1 < t' {
      SmoothInPhase(p, start, goal, t, p.t1);
      SmoothFromCruise(p, start, goal, p.t1, t');
      SmoothVia(p, Max(start, goal), t, p.t1, t');
    } else {
      SmoothInPhase(p, start, goal, t, t');
    }
  }

  /** The motion starts at rest at the start position, ends at rest at the goal, and never leaves the segment between. */
  lemma MotionEndsAtGoal(p: JointPlan, start: real, goal: real, t: real)
    requires Consistent(p, start, goal) && 0.0 <= t
    ensures Progress(p, 0.0) == 0.0 && Velocity(p, 0.0) == 0.0
    ensures Progress(p, p.tf) == Abs(p.delta) && Velocity(p, p.tf) == 0.0
    ensures 0.0 <= Progress(p, t) <= Abs(p.delta)
    ensures 0.0 <= Velocity(p, t) <= p.speed
  {
    hide Progress, Velocity, Consistent, Abs;
    ConsistentOrder(p, start, goal);
    AtRestAtStart(p, start, goal);
    PhaseValues(p, start, goal, p.tf);
    MotionIsSmooth(p, start, goal, 0.0, t);
    if t <= p.tf {
      MotionIsSmooth(p, start, goal, t, p.tf);
    } else {
      PhaseValues(p, start, goal, t);
      AbsNonnegative(p.delta);
    }
    VelocityIsBounded(p, start, goal, t);
    hide Ramp.Distance, Ramp.Speed, SpeedUpFraction, SlowDownFraction, SpeedUp, SlowDown, Cruise;
  }

  lemma AbsNonnegative(x: real)
    ensures Abs(x) >= 0.0
  {
  }

  lemma AtRestAtStart(p: JointPlan, start: real, goal: real)
    requires Consistent(p, start, goal)
    ensures Progress(p, 0.0) == 0.0 && Velocity(p, 0.0) == 0.0
  {
    assert SpeedUpFraction(p, 0.0) == 0.0;
    hide Ramp.Distance, Ramp.Speed, SpeedUpFraction, Consistent;
    Ramp.EndPoints();
    ConsistentOrder(p, start, goal);
  }

  lemma VelocityIsBounded(p: JointPlan, start: real, goal: real, t: real)
    requires Consistent(p, start, goal) && 0.0 <= t
    ensures 0.0 <= Velocity(p, t) <= p.speed
  {
    hide Progress, Velocity;
    if t <= p.t1 {
      SpeedUpStep(p, start, goal, t, t);
    } else if t <= p.t2 || p.tf <= t {
      ConstantStep(p, start, goal, t, t);
    } else {
      SlowDownStep(p, start, goal, t, t);
    }
  }
}
