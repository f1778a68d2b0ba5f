/** The arithmetic by which MotionGenerator makes all joints finish together (examples/examples_common.cpp). */
module Synchronisation {
  import opened RealMath
  import opened Trajectory

  /** The limits of one joint, already scaled by the speed factor. */
  datatype Motor = Motor(speed: real, start: real, goal: real) {
    predicate Valid() {
      speed > 0.0 && start > 0.0 && goal > 0.0
    }
  }

  /** Distance needed to reach the full speed and stop again. */
  function FullSpeedDistance(m: Motor): real
    requires m.Valid()
  {
    3.0 / 4.0 * (m.speed * m.speed / m.start) + 3.0 / 4.0 * (m.speed * m.speed / m.goal)
  }

  /** dq_max_reach: the full speed, or the speed that can be reached on a short distance. */
  function ReachableSpeed(lib: MathLib, m: Motor, delta: real): real
    requires m.Valid()
  {
    if Abs(delta) < FullSpeedDistance(m) then lib.sqrt(ShortDistanceSquare(m, delta)) else m.speed
  }

  function ShortDistanceSquare(m: Motor, delta: real): real
    requires m.Valid()
  {
    4.0 / 3.0 * delta * Sign(delta) * (m.start * m.goal) / (m.start + m.goal)
  }

  /** t_f: the time the joint needs on its own. */
  function OwnTime(m: Motor, delta: real, reach: real): real
    requires m.Valid() && reach != 0.0
  {
    1.5 * reach / m.start / 2.0 + 1.5 * reach / m.goal / 2.0 + Abs(delta) / reach
  }

  function QuadraticA(m: Motor): real {
    1.5 / 2.0 * (m.goal + m.start)
  }

  function QuadraticB(m: Motor, time: real): real {
    -1.0 * time * m.goal * m.start
  }

  function QuadraticC(m: Motor, delta: real): real {
    Abs(delta) * m.goal * m.start
  }

  function Discriminant(m: Motor, delta: real, time: real): real {
    var a, b, c := QuadraticA(m), QuadraticB(m, time), QuadraticC(m, delta);
    b * b - 4.0 * a * c
  }

  /** dq_max_sync: the smaller root of the quadratic, its discriminant raised to zero if negative. */
  function SynchronisedSpeed(lib: MathLib, m: Motor, delta: real, time: real): real
    requires m.Valid()
  {
    var discriminant := Discriminant(m, delta, time);
    (-1.0 * QuadraticB(m, time) - lib.sqrt(if discriminant < 0.0 then 0.0 else discriminant)) / (2.0 * QuadraticA(m))
  }

  /** The values stored for a joint that moves at a given synchronised speed. */
  function PlanAt(m: Motor, delta: real, speed: real): JointPlan
    requires m.Valid() && speed != 0.0
  {
    var t1, d2 := 1.5 * speed / m.start, 1.5 * speed / m.goal;
    var tf := t1 / 2.0 + d2 / 2.0 + Abs(delta / speed);
    JointPlan(delta, speed, t1, tf - d2, tf, speed * Sign(delta) * (0.5 * t1))
  }

  // ----- The speed a joint can reach -----

  /** The speed leaves room for both ramps within the distance. */
  ghost predicate RoomForRamps(m: Motor, delta: real, speed: real) {
    QuadraticA(m) * (speed * speed) <= QuadraticC(m, delta)
  }

  lemma ReachableSpeedFits(lib: MathLib, m: Motor, delta: real)
    requires lib.LawfulSqrt() && m.Valid() && delta != 0.0
    ensures var reach := ReachableSpeed(lib, m, delta);
            0.0 < reach <= m.speed && RoomForRamps(m, delta, reach)
  {
    hide FullSpeedDistance, ShortDistanceSquare, MathLib.LawfulSqrt, Abs;
    AbsPositive(delta);
    FullSpeedDistanceFact(m);
    if Abs(delta) < FullSpeedDistance(m) {
      var square := ShortDistanceSquare(m, delta);
      ShortDistanceFact(m, delta);
      RootFact(lib, square);
      ShortReach(m.start, m.goal, Abs(delta), m.speed, lib.sqrt(square), square, FullSpeedDistance(m));
    } else {
      FullReach(m.start, m.goal, Abs(delta), m.speed, FullSpeedDistance(m));
    }
  }

  lemma AbsPositive(x: real)
    requires x != 0.0
    ensures Abs(x) > 0.0 && x * Sign(x) == Abs(x)
  {
  }

  lemma RootFact(lib: MathLib, x: real)
    requires lib.LawfulSqrt() && x >= 0.0
    ensures lib.sqrt(x) >= 0.0 && lib.sqrt(x) * lib.sqrt(x) == x
  {
  }

  lemma FullSpeedDistanceFact(m: Motor)
    requires m.Valid()
    ensures FullSpeedDistance(m) * (m.start * m.goal) == 0.75 * (m.speed * m.speed) * (m.start + m.goal)
  {
    FullDistance(m.start, m.goal, m.speed, m.speed * m.speed / m.start, m.speed * m.speed / m.goal);
  }

  lemma ShortDistanceFact(m: Motor, delta: real)
    requires m.Valid() && delta != 0.0
    ensures 0.75 * ShortDistanceSquare(m, delta) * (m.start + m.goal) == Abs(delta) * (m.start * m.goal)
    ensures ShortDistanceSquare(m, delta) > 0.0
  {
    AbsPositive(delta);
    hide Sign, Abs;
    ShortDistance(m.start, m.goal, Abs(delta), ShortDistanceSquare(m, delta), delta, Sign(delta));
  }

  lemma ShortDistance(s: real, g: real, d: real, square: real, delta: real, sign: real)
    requires s > 0.0 && g > 0.0 && d > 0.0 && delta * sign == d
    requires square == 4.0 / 3.0 * delta * sign * (s * g) / (s + g)
    ensures 0.75 * square * (s + g) == d * (s * g) && square > 0.0
  {
    ProductPositive(s, g);
    ProductPositive(d, s * g);
    assert square * (s + g) == 4.0 / 3.0 * delta * sign * (s * g);
    assert 4.0 / 3.0 * delta * sign * (s * g) == 4.0 / 3.0 * (d * (s * g));
    if square <= 0.0 { ProductNonnegative(-square, s + g); }
  }

  lemma FullDistance(s: real, g: real, v: real, vs: real, vg: real)
    requires s > 0.0 && g > 0.0 && vs == v * v / s && vg == v * v / g
    ensures (0.75 * vs + 0.75 * vg) * (s * g) == 0.75 * (v * v) * (s + g)
  {
    assert vs * s == v * v && vg * g == v * v;
    assert vs * (s * g) == v * v * g && vg * (s * g) == v * v * s;
  }

  lemma ShortReach(s: real, g: real, d: real, v: real, reach: real, square: real, full: real)
    requires s > 0.0 && g > 0.0 && v > 0.0 && reach >= 0.0 && reach * reach == square && square > 0.0
    requires 0.75 * square * (s + g) == d * (s * g) && full * (s * g) == 0.75 * (v * v) * (s + g) && d < full
    ensures 0.0 < reach <= v && 0.75 * (g + s) * (reach * reach) <= d * g * s
  {
    ProductPositive(s, g);
    ProductPositive(full - d, s * g);
    if v * v < square { ProductPositive(square - v * v, s + g); }
    SquareOrder(reach, v);
  }

  lemma FullReach(s: real, g: real, d: real, v: real, full: real)
    requires s > 0.0 && g > 0.0 && full * (s * g) == 0.75 * (v * v) * (s + g) && full <= d
    ensures 0.75 * (g + s) * (v * v) <= d * g * s
  {
    ProductPositive(s, g);
    ProductNonnegative(d - full, s * g);
  }

  // ----- The quadratic -----

  /** A quadratic that is not positive at some positive point has a discriminant that is not negative, and its
      smaller root is positive and at most that point. */
  lemma SmallerRoot(a: real, b: real, c: real, discriminant: real, point: real, root: real, x: real)
    requires a > 0.0 && b < 0.0 && c > 0.0 && point > 0.0
    requires discriminant == b * b - 4.0 * a * c && a * (point * point) + b * point + c <= 0.0
    requires root >= 0.0 && root * root == discriminant && 2.0 * a * x == -b - root
    ensures 0.0 < x <= point && a * (x * x) + b * x + c == 0.0
  {
    RootIsSmaller(a, b, c, discriminant, root);
    RootIsReached(a, b, c, discriminant, point, root);
    RootSolves(a, b, c, discriminant, root, x);
    if x <= 0.0 { ProductNonnegative(a, -x); }
    if x > point { ProductPositive(a, x - point); }
  }

  lemma CompletedSquare(a: real, b: real, c: real, x: real)
    ensures 4.0 * a * (a * (x * x) + b * x + c) == (2.0 * a * x + b) * (2.0 * a * x + b) - (b * b - 4.0 * a * c)
  {
  }

  lemma DiscriminantNonnegative(a: real, b: real, c: real, point: real)
    requires a > 0.0 && a * (point * point) + b * point + c <= 0.0
    ensures b * b - 4.0 * a * c >= 0.0
  {
    CompletedSquare(a, b, c, point);
    ProductNonnegative(4.0 * a, -(a * (point * point) + b * point + c));
    SquareNonnegative(2.0 * a * point + b);
  }

  lemma RootIsSmaller(a: real, b: real, c: real, discriminant: real, root: real)
    requires a > 0.0 && b < 0.0 && c > 0.0 && discriminant == b * b - 4.0 * a * c && root >= 0.0
      && root * root == discriminant
    ensures root < -b
  {
    ProductPositive(a, c);
    if -b <= root { SquareOrder(-b, root); }
  }

  lemma RootIsReached(a: real, b: real, c: real, discriminant: real, point: real, root: real)
    requires a > 0.0 && a * (point * point) + b * point + c <= 0.0
    requires discriminant == b * b - 4.0 * a * c && root >= 0.0 && root * root == discriminant
    ensures -root <= 2.0 * a * point + b
  {
    var s := 2.0 * a * point + b;
    CompletedSquare(a, b, c, point);
    ProductNonnegative(4.0 * a, -(a * (point * point) + b * point + c));
    if s < -root { SquareOrder(-s, root); }
  }

  lemma RootSolves(a: real, b: real, c: real, discriminant: real, root: real, x: real)
    requires a > 0.0 && discriminant == b * b - 4.0 * a * c && root * root == discriminant && 2.0 * a * x == -b - root
    ensures a * (x * x) + b * x + c == 0.0
  {
    CompletedSquare(a, b, c, x);
    var value := a * (x * x) + b * x + c;
    assert (2.0 * a * x + b) * (2.0 * a * x + b) == root * root;
    assert 4.0 * a * value == 0.0;
  }

  // ----- The common time -----

  ghost function Quadratic(m: Motor, delta: real, time: real, x: real): real {
    QuadraticA(m) * (x * x) + QuadraticB(m, time) * x + QuadraticC(m, delta)
  }

  /** A joint that moves at speed x takes exactly the time for which x is a root of the quadratic. */
  lemma TimeAndQuadratic(m: Motor, delta: real, x: real, time: real)
    requires m.Valid() && x > 0.0
    ensures Quadratic(m, delta, time, x) == m.start * m.goal * x * (OwnTime(m, delta, x) - time)
    ensures OwnTime(m, delta, x) > 0.0
  {
    AbsNonnegative(delta);
    hide Abs;
    TimeTimesSpeed(m.start, m.goal, Abs(delta), x, 1.5 * x / m.start, 1.5 * x / m.goal, Abs(delta) / x, time);
  }

  lemma TimeTimesSpeed(s: real, g: real, d: real, x: real, t1: real, d2: real, rest: real, time: real)
    requires s > 0.0 && g > 0.0 && x > 0.0 && d >= 0.0
    requires t1 == 1.5 * x / s && d2 == 1.5 * x / g && rest == d / x
    ensures 1.5 / 2.0 * (g + s) * (x * x) + -1.0 * time * g * s * x + d * g * s
         == s * g * x * (t1 / 2.0 + d2 / 2.0 + rest - time)
    ensures t1 > 0.0 && d2 > 0.0 && rest >= 0.0
  {
    assert t1 * s == 1.5 * x && d2 * g == 1.5 * x && rest * x == d;
    if t1 <= 0.0 { ProductNonnegative(-t1, s); }
    if d2 <= 0.0 { ProductNonnegative(-d2, g); }
    if rest < 0.0 { ProductPositive(-rest, x); }
    assert s * g * x * (t1 / 2.0) == 0.75 * (x * x) * g;
    assert s * g * x * (d2 / 2.0) == 0.75 * (x * x) * s;
    assert s * g * x * rest == d * g * s;
  }

  /** Given at least the time it needs on its own, the discriminant of a joint is not negative, and the synchronised speed
      is positive, at most the reachable speed, leaves room for both ramps, and takes exactly the given time. */
  lemma SynchronisedSpeedFits(lib: MathLib, m: Motor, delta: real, time: real)
    requires lib.LawfulSqrt() && m.Valid() && delta != 0.0
    requires ReachableSpeed(lib, m, delta) != 0.0 ==> OwnTime(m, delta, ReachableSpeed(lib, m, delta)) <= time
    ensures Discriminant(m, delta, time) >= 0.0
    ensures var speed := SynchronisedSpeed(lib, m, delta, time);
            && 0.0 < speed <= ReachableSpeed(lib, m, delta) <= m.speed
            && RoomForRamps(m, delta, speed)
            && OwnTime(m, delta, speed) == time
  {
    var reach := ReachableSpeed(lib, m, delta);
    ReachableSpeedFits(lib, m, delta);
    CoefficientSigns(m, delta, time, reach);
    hide ReachableSpeed, OwnTime, MathLib.LawfulSqrt;
    RootFact(lib, Discriminant(m, delta, time));
    hide QuadraticA, QuadraticB, QuadraticC, Discriminant;
    SynchronisedSpeedIsRoot(lib, m, delta, time);
    var speed := SynchronisedSpeed(lib, m, delta, time);
    hide SynchronisedSpeed;
    SmallerRootOf(m, delta, time, reach, lib.sqrt(Discriminant(m, delta, time)), speed);
    RoomShrinks(QuadraticA(m), speed, reach);
    RootTakesTime(m, delta, speed, time);
  }

  /** A root of the quadratic for a given time is a speed at which the joint takes that time. */
  lemma RootTakesTime(m: Motor, delta: real, x: real, time: real)
    requires m.Valid() && x > 0.0 && Quadratic(m, delta, time, x) == 0.0
    ensures OwnTime(m, delta, x) == time
  {
    hide OwnTime, Quadratic;
    TimeAndQuadratic(m, delta, x, time);
    TimeIsRoot(m.start, m.goal, x, OwnTime(m, delta, x), time, m.start * m.goal * x * (OwnTime(m, delta, x) - time));
  }

  lemma CoefficientSigns(m: Motor, delta: real, time: real, reach: real)
    requires m.Valid() && delta != 0.0 && reach > 0.0 && OwnTime(m, delta, reach) <= time
    ensures QuadraticA(m) > 0.0 && QuadraticB(m, time) < 0.0 && QuadraticC(m, delta) > 0.0
    ensures Quadratic(m, delta, time, reach) <= 0.0
    ensures Discriminant(m, delta, time) >= 0.0
  {
    TimeAndQuadratic(m, delta, reach, time);
    AbsPositive(delta);
    hide OwnTime, Abs;
    var own := OwnTime(m, delta, reach);
    Signs(m.start, m.goal, Abs(delta), time, reach, own);
    DiscriminantNonnegative(QuadraticA(m), QuadraticB(m, time), QuadraticC(m, delta), reach);
  }

  lemma Signs(s: real, g: real, d: real, time: real, reach: real, own: real)
    requires s > 0.0 && g > 0.0 && d > 0.0 && time > 0.0 && reach > 0.0 && own <= time
    ensures -1.0 * time * g * s < 0.0 && d * g * s > 0.0 && s * g * reach * (own - time) <= 0.0
  {
    ProductPositive(g, s);
    ProductPositive(time, g * s);
    ProductPositive(d, g * s);
    ProductPositive(s * g, reach);
    ProductNonnegative(s * g * reach, time - own);
  }

  lemma SynchronisedSpeedIsRoot(lib: MathLib, m: Motor, delta: real, time: real)
    requires m.Valid() && Discriminant(m, delta, time) >= 0.0 && QuadraticA(m) > 0.0
    ensures 2.0 * QuadraticA(m) * SynchronisedSpeed(lib, m, delta, time)
         == -QuadraticB(m, time) - lib.sqrt(Discriminant(m, delta, time))
  {
    hide QuadraticA, QuadraticB, Discriminant;
  }

  lemma SmallerRootOf(m: Motor, delta: real, time: real, reach: real, root: real, x: real)
    requires QuadraticA(m) > 0.0 && QuadraticB(m, time) < 0.0 && QuadraticC(m, delta) > 0.0 && reach > 0.0
    requires Quadratic(m, delta, time, reach) <= 0.0
    requires root >= 0.0 && root * root == Discriminant(m, delta, time)
    requires 2.0 * QuadraticA(m) * x == -QuadraticB(m, time) - root
    ensures 0.0 < x <= reach && Quadratic(m, delta, time, x) == 0.0
  {
    hide QuadraticA, QuadraticB, QuadraticC;
    SmallerRoot(QuadraticA(m), QuadraticB(m, time), QuadraticC(m, delta), Discriminant(m, delta, time), reach, root, x);
  }

  lemma RoomShrinks(a: real, x: real, reach: real)
    requires a > 0.0 && 0.0 < x <= reach
    ensures a * (x * x) <= a * (reach * reach)
  {
    SquareOrder(x, reach);
    ProductMonotone(x * x, reach * reach, a);
  }

  lemma TimeIsRoot(s: real, g: real, x: real, own: real, time: real, product: real)
    requires s > 0.0 && g > 0.0 && x > 0.0 && product == s * g * x * (own - time) && product == 0.0
    ensures own == time
  {
    ProductPositive(s, g);
    ProductPositive(s * g, x);
    if own < time { ProductPositive(s * g * x, time - own); }
    if time < own { ProductPositive(s * g * x, own - time); }
  }

  /** The joint that needs the common time on its own keeps its reachable speed: nothing is slowed down needlessly. */
  lemma SlowestKeepsSpeed(lib: MathLib, m: Motor, delta: real)
    requires lib.LawfulSqrt() && m.Valid() && delta != 0.0
    ensures var reach := ReachableSpeed(lib, m, delta);
            reach != 0.0 && SynchronisedSpeed(lib, m, delta, OwnTime(m, delta, reach)) == reach
  {
    var reach := ReachableSpeed(lib, m, delta);
    ReachableSpeedFits(lib, m, delta);
    hide ReachableSpeed, OwnTime, QuadraticA, QuadraticB, QuadraticC, Discriminant, Quadratic, RoomForRamps,
         SynchronisedSpeed;
    var time := OwnTime(m, delta, reach);
    CoefficientSigns(m, delta, time, reach);
    QuadraticAndTime(m, delta, reach, time);
    RootFact(lib, Discriminant(m, delta, time));
    SynchronisedSpeedIsRoot(lib, m, delta, time);
    var x := SynchronisedSpeed(lib, m, delta, time);
    SmallerRootOf(m, delta, time, reach, lib.sqrt(Discriminant(m, delta, time)), x);
    OneRootBelow(m, delta, time, x, reach);
  }

  lemma OneRootBelow(m: Motor, delta: real, time: real, x: real, reach: real)
    requires QuadraticA(m) > 0.0 && RoomForRamps(m, delta, reach) && 0.0 < x <= reach
    requires Quadratic(m, delta, time, x) == 0.0 && Quadratic(m, delta, time, reach) == 0.0
    ensures x == reach
  {
    hide QuadraticA, QuadraticB, QuadraticC;
    EqualRoots(QuadraticA(m), QuadraticB(m, time), QuadraticC(m, delta), x, reach);
  }

  /** The sign of the quadratic at a speed says whether the joint takes at least the given time at it. */
  lemma QuadraticAndTime(m: Motor, delta: real, x: real, time: real)
    requires m.Valid() && x > 0.0
    ensures time == OwnTime(m, delta, x) ==> Quadratic(m, delta, time, x) == 0.0
    ensures Quadratic(m, delta, time, x) >= 0.0 ==> time <= OwnTime(m, delta, x)
  {
    TimeAndQuadratic(m, delta, x, time);
    hide OwnTime, Quadratic;
    if Quadratic(m, delta, time, x) >= 0.0 {
      TimeIsLarger(m.start, m.goal, x, OwnTime(m, delta, x), time, Quadratic(m, delta, time, x));
    }
  }

  lemma EqualRoots(a: real, b: real, c: real, x: real, r: real)
    requires a > 0.0 && 0.0 < x <= r && a * (r * r) <= c
    requires a * (x * x) + b * x + c == 0.0 && a * (r * r) + b * r + c == 0.0
    ensures x == r
  {
  }

  /** The values stored for a joint describe a consistent three-phase motion that takes the common time. */
  lemma PlanIsConsistent(m: Motor, delta: real, speed: real)
    requires m.Valid() && speed > 0.0 && Abs(delta) > K_DELTA_Q_MOTION_FINISHED && RoomForRamps(m, delta, speed)
    ensures Consistent(PlanAt(m, delta, speed), m.start, m.goal)
    ensures PlanAt(m, delta, speed).tf == OwnTime(m, delta, speed)
  {
    AbsOfQuotient(delta, speed);
    hide Abs;
    PlanTimes(m.start, m.goal, Abs(delta), speed, 1.5 * speed / m.start, 1.5 * speed / m.goal, Abs(delta) / speed);
  }

  lemma AbsOfQuotient(x: real, y: real)
    requires y > 0.0
    ensures Abs(x / y) == Abs(x) / y
  {
    var q := x / y;
    assert q * y == x;
    if q < 0.0 {
      ProductPositive(-q, y);
    } else {
      ProductNonnegative(q, y);
    }
  }

  lemma PlanTimes(s: real, g: real, d: real, x: real, t1: real, d2: real, rest: real)
    requires s > 0.0 && g > 0.0 && x > 0.0 && d > 0.0
    requires t1 == 1.5 * x / s && d2 == 1.5 * x / g && rest == d / x
    requires 1.5 / 2.0 * (g + s) * (x * x) <= d * g * s
    ensures s * t1 == 1.5 * x && g * d2 == 1.5 * x && x * rest == d
    ensures t1 > 0.0 && d2 > 0.0 && 0.5 * t1 + 0.5 * d2 <= rest
  {
    TimeTimesSpeed(s, g, d, x, t1, d2, rest, 0.0);
    var slack := rest - 0.5 * t1 - 0.5 * d2;
    if slack < 0.0 {
      ProductPositive(s, g);
      ProductPositive(s * g, x);
      ProductPositive(s * g * x, -slack);
    }
  }

  // ----- No plan is faster -----

  /** A plan of a joint within its limits, ramps gentler than the limits allowed. */
  ghost predicate WithinLimits(m: Motor, p: JointPlan) {
    p.speed <= m.speed && exists start, goal :: GentlerRamps(m, p, start, goal)
  }

  ghost predicate GentlerRamps(m: Motor, p: JointPlan, start: real, goal: real) {
    start <= m.start && goal <= m.goal && Consistent(p, start, goal)
  }

  /** No three-phase plan within the limits takes less time than the joint needs at its reachable speed. */
  lemma OwnTimeIsOptimal(lib: MathLib, m: Motor, p: JointPlan)
    requires lib.LawfulSqrt() && m.Valid() && WithinLimits(m, p)
    ensures var reach := ReachableSpeed(lib, m, p.delta);
            0.0 < p.speed <= reach && OwnTime(m, p.delta, reach) <= p.tf
  {
    var start, goal :| GentlerRamps(m, p, start, goal);
    SteepestRamps(m, p, start, goal);
    assert p.delta != 0.0;
    hide ReachableSpeed, OwnTime, MathLib.LawfulSqrt, RoomForRamps, Abs, Consistent;
    RoomMeansReachable(lib, m, p.delta, p.speed);
    FasterIsSooner(lib, m, p.delta, p.speed);
  }

  /** Ramps at the limits leave as much room and take no more time. */
  lemma SteepestRamps(m: Motor, p: JointPlan, start: real, goal: real)
    requires m.Valid() && GentlerRamps(m, p, start, goal)
    ensures p.speed > 0.0 && RoomForRamps(m, p.delta, p.speed) && OwnTime(m, p.delta, p.speed) <= p.tf
  {
    hide Abs, Sign, RoomForRamps, OwnTime;
    var v, d2, d := p.speed, p.tf - p.t2, Abs(p.delta);
    SteeperRamp(start, m.start, v, p.t1, 1.5 * v / m.start);
    SteeperRamp(goal, m.goal, v, d2, 1.5 * v / m.goal);
    RestOfTheWay(v, p.tf - 0.5 * p.t1 - 0.5 * d2, d, d / v);
    LimitTimes(m, p.delta, v, d, 1.5 * v / m.start, 1.5 * v / m.goal, d / v, p.tf);
  }

  lemma LimitTimes(m: Motor, delta: real, v: real, d: real, t1: real, d2: real, rest: real, time: real)
    requires m.Valid() && v > 0.0 && d == Abs(delta) && rest == d / v && t1 == 1.5 * v / m.start && d2 == 1.5 * v / m.goal
    requires m.start * t1 == 1.5 * v && m.goal * d2 == 1.5 * v
    requires 0.5 * t1 + 0.5 * d2 <= rest && 0.5 * t1 + 0.5 * d2 + rest <= time
    ensures RoomForRamps(m, delta, v) && OwnTime(m, delta, v) <= time
  {
    hide Abs;
    RoomOfTimes(m.start, m.goal, d, v, t1, d2, rest);
  }

  lemma SteeperRamp(gentle: real, steep: real, v: real, t: real, t': real)
    requires 0.0 < gentle <= steep && t > 0.0 && gentle * t == 1.5 * v && t' == 1.5 * v / steep
    ensures t' <= t && steep * t' == 1.5 * v
  {
    assert steep * t' == 1.5 * v;
    ProductMonotone(gentle, steep, t);
    if t' > t {
      ProductPositive(steep, t' - t);
    }
  }

  lemma RestOfTheWay(v: real, rest: real, d: real, quotient: real)
    requires v > 0.0 && v * rest == d && quotient == d / v
    ensures quotient == rest
  {
  }

  lemma RoomOfTimes(s: real, g: real, d: real, x: real, t1: real, d2: real, rest: real)
    requires s > 0.0 && g > 0.0 && x > 0.0 && s * t1 == 1.5 * x && g * d2 == 1.5 * x && rest == d / x
    requires 0.5 * t1 + 0.5 * d2 <= rest
    ensures 1.5 / 2.0 * (g + s) * (x * x) <= d * g * s
  {
    assert rest * x == d;
    ProductPositive(s, g);
    ProductPositive(s * g, x);
    ProductNonnegative(s * g * x, rest - 0.5 * t1 - 0.5 * d2);
    assert s * g * x * (0.5 * t1) == 0.75 * (x * x) * g;
    assert s * g * x * (0.5 * d2) == 0.75 * (x * x) * s;
    assert s * g * x * rest == d * g * s;
  }

  /** The reachable speed is the largest one within the limit that leaves room for both ramps. */
  lemma RoomMeansReachable(lib: MathLib, m: Motor, delta: real, x: real)
    requires lib.LawfulSqrt() && m.Valid() && delta != 0.0
    requires 0.0 < x <= m.speed && RoomForRamps(m, delta, x)
    ensures x <= ReachableSpeed(lib, m, delta)
  {
    hide FullSpeedDistance, ShortDistanceSquare, MathLib.LawfulSqrt, Abs;
    if Abs(delta) < FullSpeedDistance(m) {
      var square := ShortDistanceSquare(m, delta);
      ShortDistanceFact(m, delta);
      RootFact(lib, square);
      RoomBelowRoot(m.start, m.goal, Abs(delta), x, lib.sqrt(square), square);
    }
  }

  lemma RoomBelowRoot(s: real, g: real, d: real, x: real, reach: real, square: real)
    requires s > 0.0 && g > 0.0 && x > 0.0 && reach >= 0.0 && reach * reach == square
    requires 0.75 * square * (s + g) == d * (s * g) && 1.5 / 2.0 * (g + s) * (x * x) <= d * g * s
    ensures x <= reach
  {
    if reach < x {
      SquareOrder(x, reach);
      ProductPositive(x * x - square, s + g);
    }
  }

  /** Up to the reachable speed, faster is sooner. */
  lemma FasterIsSooner(lib: MathLib, m: Motor, delta: real, x: real)
    requires lib.LawfulSqrt() && m.Valid() && delta != 0.0 && 0.0 < x <= ReachableSpeed(lib, m, delta)
    ensures OwnTime(m, delta, ReachableSpeed(lib, m, delta)) <= OwnTime(m, delta, x)
  {
    var reach := ReachableSpeed(lib, m, delta);
    ReachableSpeedFits(lib, m, delta);
    hide ReachableSpeed, OwnTime, QuadraticA, QuadraticB, QuadraticC, Quadratic, RoomForRamps, Discriminant;
    var time := OwnTime(m, delta, reach);
    QuadraticAndTime(m, delta, reach, time);
    QuadraticAndTime(m, delta, x, time);
    CoefficientSigns(m, delta, time, reach);
    NonnegativeBelow(m, delta, time, x, reach);
  }

  lemma NonnegativeBelow(m: Motor, delta: real, time: real, x: real, reach: real)
    requires QuadraticA(m) > 0.0 && RoomForRamps(m, delta, reach) && 0.0 < x <= reach
    requires Quadratic(m, delta, time, reach) == 0.0
    ensures Quadratic(m, delta, time, x) >= 0.0
  {
    hide QuadraticA, QuadraticB, QuadraticC;
    BelowTheRoot(QuadraticA(m), QuadraticB(m, time), QuadraticC(m, delta), x, reach);
  }

  lemma BelowTheRoot(a: real, b: real, c: real, x: real, r: real)
    requires a > 0.0 && 0.0 < x <= r && a * (r * r) <= c && a * (r * r) + b * r + c == 0.0
    ensures a * (x * x) + b * x + c >= 0.0
  {
    var value := a * (x * x) + b * x + c;
    ProductNonnegative(a * r, r - x);
    assert c - a * r * x >= 0.0;
    ProductNonnegative(r - x, c - a * r * x);
    assert value * r == (r - x) * (c - a * r * x) + x * (a * (r * r) + b * r + c);
    if value < 0.0 {
      ProductPositive(-value, r);
    }
  }

  lemma TimeIsLarger(s: real, g: real, x: real, own: real, time: real, product: real)
    requires s > 0.0 && g > 0.0 && x > 0.0 && product == s * g * x * (own - time) && product >= 0.0
    ensures time <= own
  {
    ProductPositive(s, g);
    ProductPositive(s * g, x);
    if own < time { ProductPositive(s * g * x, time - own); }
  }
}
