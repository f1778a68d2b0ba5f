/** The three-dimensional limiter of src/rate_limiting.cpp and what it keeps over every run. */
module VectorRateLimiting {
  import opened RealMath
  import opened RateLimiting
  import opened Linear3

  /** kNormEps: the machine epsilon of a double, 2^-52. */
  const K_NORM_EPS := 1.0 / 4503599627370496.0

  datatype VectorLimits = VectorLimits(maxVelocity: real, maxAcceleration: real, maxJerk: real, slope: real) {
    ghost predicate Valid() {
      && maxVelocity >= 0.0 && maxAcceleration > 0.0 && maxJerk > 0.0
      && slope > 0.0 && slope * maxAcceleration == maxJerk && slope * 0.001 <= 1.0
    }
  }

  function MakeVectorLimits(maxVelocity: real, maxAcceleration: real, maxJerk: real): VectorLimits
    requires maxAcceleration != 0.0
  {
    VectorLimits(maxVelocity, maxAcceleration, maxJerk, maxJerk / maxAcceleration)
  }

  lemma MakeVectorLimitsValid(maxVelocity: real, maxAcceleration: real, maxJerk: real)
    requires maxAcceleration > 0.0
    ensures MakeVectorLimits(maxVelocity, maxAcceleration, maxJerk).Valid()
       <==> 0.0 <= maxVelocity && 0.0 < maxJerk && maxJerk * 0.001 <= maxAcceleration
  {
    MakeLimitsValid(maxVelocity, -maxVelocity, maxAcceleration, maxJerk);
    MakeLimitsValid(0.0, 0.0, maxAcceleration, maxJerk);
  }

  datatype VectorState = VectorState(velocity: Vec3, acceleration: Vec3)

  /** Division by kDeltaT. */
  function PerSample(v: Vec3): Vec3 {
    Vec3(v.x / 0.001, v.y / 0.001, v.z / 0.001)
  }

  function CommandedVectorJerk(commanded: Vec3, s: VectorState): Vec3 {
    PerSample(PerSample(commanded.Sub(s.velocity)).Sub(s.acceleration))
  }

  function CommandedVectorAcceleration(lib: MathLib, l: VectorLimits, commanded: Vec3, s: VectorState): Vec3 {
    var jerk := CommandedVectorJerk(commanded, s);
    var norm := Norm(lib, jerk);
    if norm > K_NORM_EPS then
      s.acceleration.Add(jerk.Over(norm).Scale(Clamp(norm, l.maxJerk)).Scale(0.001))
    else
      s.acceleration
  }

  function Discriminant(maxVelocity: real, unit: Vec3, v: Vec3): real {
    unit.Dot(v) * unit.Dot(v) - v.NormSquared() + maxVelocity * maxVelocity
  }

  /** Distance along `unit` from the last velocity to the sphere of maximal speed. None stands for the NaN that
      the square root of a negative number gives: the last velocity is outside and the line misses the sphere. */
  function DistanceToMaxVelocity(lib: MathLib, maxVelocity: real, unit: Vec3, v: Vec3): Option<real> {
    var discriminant := Discriminant(maxVelocity, unit, v);
    if discriminant < 0.0 then None else Some(-unit.Dot(v) + lib.sqrt(discriminant))
  }

  /** The braking bound at a given distance from the maximal speed. */
  function BrakingNorm(l: VectorLimits, d: real): real {
    l.slope * d
  }

  /** std::min(norm, safe_max_acceleration). Each comparison with a NaN is false, so std::min returns its first
      argument: first the NaN distance itself, then the norm, which leaves the acceleration unlimited. */
  function LimitedNorm(l: VectorLimits, norm: real, distance: Option<real>): real {
    match distance
    case None => norm
    case Some(d) => Min(norm, Min(BrakingNorm(l, d), l.maxAcceleration))
  }

  /** The signed length of the acceleration applied, along the unit vector of the commanded acceleration. */
  function AppliedNorm(lib: MathLib, l: VectorLimits, acceleration: Vec3, v: Vec3): real
    requires Norm(lib, acceleration) > K_NORM_EPS
  {
    var norm := Norm(lib, acceleration);
    LimitedNorm(l, norm, DistanceToMaxVelocity(lib, l.maxVelocity, acceleration.Over(norm), v))
  }

  function LimitVector(lib: MathLib, l: VectorLimits, commanded: Vec3, s: VectorState): Vec3 {
    var acceleration := CommandedVectorAcceleration(lib, l, commanded, s);
    var norm := Norm(lib, acceleration);
    if norm > K_NORM_EPS then
      s.velocity.Add(acceleration.Over(norm).Scale(AppliedNorm(lib, l, acceleration, s.velocity)).Scale(0.001))
    else
      s.velocity
  }

  function VectorStep(lib: MathLib, l: VectorLimits, commanded: Vec3, s: VectorState): VectorState {
    var v := LimitVector(lib, l, commanded, s);
    VectorState(v, PerSample(v.Sub(s.velocity)))
  }

  // ----- One step -----

  /** The step adds to the velocity the applied norm, for one sample, along a unit vector. */
  lemma StepAlongUnit(lib: MathLib, l: VectorLimits, commanded: Vec3, s: VectorState) returns (unit: Vec3,
                      applied: real)
    requires lib.LawfulSqrt()
    ensures var next := VectorStep(lib, l, commanded, s);
            var acceleration := CommandedVectorAcceleration(lib, l, commanded, s);
            && next.velocity == s.velocity.Add(unit.Scale(applied * 0.001))
            && next.acceleration == unit.Scale(applied)
            && if Norm(lib, acceleration) > K_NORM_EPS then
                 && unit == acceleration.Over(Norm(lib, acceleration)) && unit.NormSquared() == 1.0
                 && unit.Scale(Norm(lib, acceleration)) == acceleration
                 && applied == AppliedNorm(lib, l, acceleration, s.velocity)
               else
                 applied == 0.0 && unit == ZERO3
  {
    var acceleration := CommandedVectorAcceleration(lib, l, commanded, s);
    var norm := Norm(lib, acceleration);
    hide CommandedVectorAcceleration, AppliedNorm, Vec3.NormSquared, PerSample;
    if norm > K_NORM_EPS {
      unit, applied := acceleration.Over(norm), AppliedNorm(lib, l, acceleration, s.velocity);
      UnitVector(lib, acceleration);
      hide Vec3.Over;
      ScaleTwice(unit, applied);
      AddThenSubtract(s.velocity, unit, applied);
    } else {
      unit, applied := ZERO3, 0.0;
      AddThenSubtract(s.velocity, unit, applied);
    }
  }

  lemma ScaleTwice(u: Vec3, k: real)
    ensures u.Scale(k).Scale(0.001) == u.Scale(k * 0.001)
  {
  }

  lemma AddThenSubtract(v: Vec3, u: Vec3, k: real)
    ensures PerSample(v.Add(u.Scale(k * 0.001)).Sub(v)) == u.Scale(k)
    ensures u == ZERO3 ==> v.Add(u.Scale(k * 0.001)) == v
  {
  }

  /** From inside the sphere of maximal speed the distance is defined and non-negative,
      and going that far along the unit vector ends exactly on the sphere. */
  lemma DistanceFromInside(lib: MathLib, maxVelocity: real, unit: Vec3, v: Vec3)
    requires lib.LawfulSqrt() && v.NormSquared() <= maxVelocity * maxVelocity && unit.NormSquared() == 1.0
    ensures var distance := DistanceToMaxVelocity(lib, maxVelocity, unit, v);
            && distance.Some? && distance.value >= 0.0
            && unit.Dot(v) + distance.value >= 0.0
            && v.Add(unit.Scale(distance.value)).NormSquared() == maxVelocity * maxVelocity
  {
    var discriminant := Discriminant(maxVelocity, unit, v);
    SquareNonnegative(unit.Dot(v));
    hide Vec3.Dot, Vec3.NormSquared, Vec3.Add, Vec3.Scale;
    assert discriminant >= 0.0;
    var root := lib.sqrt(discriminant);
    ReachSphere(v.NormSquared(), unit.Dot(v), maxVelocity * maxVelocity, discriminant, root);
    NormSquaredAlong(v, unit, -unit.Dot(v) + root);
  }

  lemma ReachSphere(n: real, along: real, bound: real, discriminant: real, root: real)
    requires discriminant == along * along - n + bound && n <= bound && root >= 0.0 && root * root == discriminant
    ensures var d := -along + root;
            d >= 0.0 && along + d >= 0.0 && n + 2.0 * d * along + d * d == bound
  {
    if along > 0.0 { SquareOrder(along, root); }
  }

  /** Short of the sphere the speed stays below its maximum: a chord of a ball lies in the ball. */
  lemma ChordStaysInside(v: Vec3, unit: Vec3, t: real, d: real, maxVelocity: real)
    requires unit.NormSquared() == 1.0 && 0.0 <= t <= d && unit.Dot(v) + d >= 0.0
    requires v.NormSquared() <= maxVelocity * maxVelocity
    requires v.Add(unit.Scale(d)).NormSquared() == maxVelocity * maxVelocity
    ensures v.Add(unit.Scale(t)).NormSquared() <= maxVelocity * maxVelocity
  {
    NormSquaredAlong(v, unit, t);
    NormSquaredAlong(v, unit, d);
    Chord(v.NormSquared(), unit.Dot(v), t, d, maxVelocity * maxVelocity);
  }

  lemma Chord(n: real, along: real, t: real, d: real, bound: real)
    requires 0.0 <= t <= d && along + d >= 0.0 && n <= bound && n + 2.0 * d * along + d * d == bound
    ensures n + 2.0 * t * along + t * t <= bound
  {
    if along >= 0.0 {
      ProductNonnegative(d - t, 2.0 * along + d + t);
    } else if t + 2.0 * along <= 0.0 {
      ProductNonnegative(t, -(t + 2.0 * along));
    } else {
      ProductNonnegative(d - t, 2.0 * along + d + t);
    }
  }

  /** The limited norm is between zero and both bounds when the distance is defined and non-negative. */
  lemma LimitedNormBounds(l: VectorLimits, norm: real, d: real)
    requires l.Valid() && norm >= 0.0 && d >= 0.0
    ensures var m := LimitedNorm(l, norm, Some(d));
            && 0.0 <= m <= l.maxAcceleration && m <= norm && m * 0.001 <= d
  {
    BrakingNormBounds(l, d);
    hide BrakingNorm, VectorLimits.Valid;
  }

  lemma BrakingNormBounds(l: VectorLimits, d: real)
    requires l.Valid() && d >= 0.0
    ensures 0.0 <= BrakingNorm(l, d) && BrakingNorm(l, d) * 0.001 <= d
    ensures l.maxAcceleration > 0.0
  {
    ProductNonnegative(l.slope, d);
    ProductNonnegative(1.0 - l.slope * 0.001, d);
  }

  /** From inside the maximal speed, for every command, the next speed and the acceleration are within their limits. */
  lemma VectorStepIsBounded(lib: MathLib, l: VectorLimits, commanded: Vec3, s: VectorState)
    requires lib.LawfulSqrt() && l.Valid() && Norm(lib, s.velocity) <= l.maxVelocity
    ensures var next := VectorStep(lib, l, commanded, s);
            && Norm(lib, next.velocity) <= l.maxVelocity
            && Norm(lib, next.acceleration) <= l.maxAcceleration
  {
    var acceleration, next := CommandedVectorAcceleration(lib, l, commanded, s), VectorStep(lib, l, commanded, s);
    hide CommandedVectorAcceleration, VectorStep, Vec3.NormSquared, Vec3.Dot, DistanceToMaxVelocity, LimitedNorm;
    var unit, applied := StepAlongUnit(lib, l, commanded, s);
    NormAtMost(lib, s.velocity, l.maxVelocity);
    if Norm(lib, acceleration) > K_NORM_EPS {
      DistanceFromInside(lib, l.maxVelocity, unit, s.velocity);
      var d := DistanceToMaxVelocity(lib, l.maxVelocity, unit, s.velocity).value;
      LimitedNormBounds(l, Norm(lib, acceleration), d);
      ChordStaysInside(s.velocity, unit, applied * 0.001, d, l.maxVelocity);
      UnitScaledAtMost(lib, unit, applied, l.maxAcceleration);
    } else {
      AddThenSubtract(s.velocity, unit, 0.0);
      ZeroAtMost(lib, l.maxAcceleration);
    }
    NormAtMost(lib, next.velocity, l.maxVelocity);
  }

  lemma UnitScaledAtMost(lib: MathLib, unit: Vec3, k: real, bound: real)
    requires lib.LawfulSqrt() && unit.NormSquared() == 1.0 && bound >= 0.0
    ensures Norm(lib, unit.Scale(k)) <= bound <==> Abs(k) <= bound
  {
    NormSquaredOfScaled(unit, k);
    NormAtMost(lib, unit.Scale(k), bound);
    assert k * k == Abs(k) * Abs(k);
    SquareOrder(Abs(k), bound);
  }

  lemma ZeroAtMost(lib: MathLib, bound: real)
    requires lib.LawfulSqrt() && bound >= 0.0
    ensures Norm(lib, ZERO3.Scale(0.0)) <= bound
  {
    NormAtMost(lib, ZERO3.Scale(0.0), bound);
    ProductNonnegative(bound, bound);
  }

  /** The jerk of the command is zero or within the limit, and its acceleration is zero or not cut. */
  ghost predicate NeedsNoLimiting(lib: MathLib, l: VectorLimits, commanded: Vec3, s: VectorState) {
    var jerk, wanted := CommandedVectorJerk(commanded, s), PerSample(commanded.Sub(s.velocity));
    && (jerk == ZERO3 || K_NORM_EPS < Norm(lib, jerk) <= l.maxJerk)
    && (wanted == ZERO3
        || (Norm(lib, wanted) > K_NORM_EPS && AppliedNorm(lib, l, wanted, s.velocity) == Norm(lib, wanted)))
  }

  /** A command that needs no limiting is returned unchanged. */
  lemma VectorCommandUnchanged(lib: MathLib, l: VectorLimits, commanded: Vec3, s: VectorState)
    requires lib.LawfulSqrt() && NeedsNoLimiting(lib, l, commanded, s)
    ensures LimitVector(lib, l, commanded, s) == commanded
  {
    hide Norm, Vec3.NormSquared, AppliedNorm, CommandedVectorJerk, Vec3.Over, Vec3.Scale, PerSample, Vec3.Add, Vec3.Sub,
         CommandedVectorAcceleration, MathLib.LawfulSqrt;
    var wanted := PerSample(commanded.Sub(s.velocity));
    AxisNorm(lib, 0.0);
    ZeroCommand(commanded, s.velocity);
    WantedAcceleration(lib, l, commanded, s);
    UndoPerSample(commanded, s.velocity);
    if wanted != ZERO3 {
      UnitVector(lib, wanted);
    }
  }

  lemma ZeroCommand(commanded: Vec3, v: Vec3)
    ensures PerSample(commanded.Sub(v)) == ZERO3 ==> commanded == v
  {
  }

  lemma WantedAcceleration(lib: MathLib, l: VectorLimits, commanded: Vec3, s: VectorState)
    requires lib.LawfulSqrt()
    requires var jerk := CommandedVectorJerk(commanded, s);
             jerk == ZERO3 || K_NORM_EPS < Norm(lib, jerk) <= l.maxJerk
    ensures CommandedVectorAcceleration(lib, l, commanded, s) == PerSample(commanded.Sub(s.velocity))
  {
    var jerk := CommandedVectorJerk(commanded, s);
    hide Norm, Vec3.NormSquared, CommandedVectorJerk, Vec3.Over, Vec3.Scale, Vec3.Add, PerSample, Vec3.Sub;
    UndoJerk(commanded, s);
    if jerk == ZERO3 {
      AxisNorm(lib, 0.0);
      ZeroChangesNothing(s.acceleration, jerk);
      hide CommandedVectorAcceleration;
      SmallJerkKeepsAcceleration(lib, l, commanded, s);
    } else {
      UnitVector(lib, jerk);
    }
  }

  lemma ZeroChangesNothing(v: Vec3, zero: Vec3)
    requires zero == ZERO3
    ensures v.Add(zero.Scale(0.001)) == v
  {
  }

  lemma UndoPerSample(u: Vec3, v: Vec3)
    ensures v.Add(PerSample(u.Sub(v)).Scale(0.001)) == u
  {
  }

  lemma UndoJerk(commanded: Vec3, s: VectorState)
    ensures s.acceleration.Add(CommandedVectorJerk(commanded, s).Scale(0.001)) == PerSample(commanded.Sub(s.velocity))
  {
    hide Vec3.Add, Vec3.Sub, Vec3.Scale, PerSample;
    UndoPerSample(PerSample(commanded.Sub(s.velocity)), s.acceleration);
  }

  ghost function VectorStateAt(lib: MathLib, l: VectorLimits, commands: nat -> Vec3, start: VectorState,
                               n: nat): VectorState {
    if n == 0 then start else VectorStep(lib, l, commands(n - 1), VectorStateAt(lib, l, commands, start, n - 1))
  }

  /** For every infinite sequence of commands, speed and acceleration stay within their limits. */
  lemma {:induction false} VectorRunIsBounded(lib: MathLib, l: VectorLimits, commands: nat -> Vec3,
                                              start: VectorState, n: nat)
    requires lib.LawfulSqrt() && l.Valid() && Norm(lib, start.velocity) <= l.maxVelocity
    ensures var s := VectorStateAt(lib, l, commands, start, n);
            && Norm(lib, s.velocity) <= l.maxVelocity
            && (n > 0 ==> Norm(lib, s.acceleration) <= l.maxAcceleration)
  {
    hide VectorStep, Norm;
    if n > 0 {
      VectorRunIsBounded(lib, l, commands, start, n - 1);
      VectorStepIsBounded(lib, l, commands(n - 1), VectorStateAt(lib, l, commands, start, n - 1));
    }
  }

  /** The line meets the sphere no further than maxAcceleration/slope behind, or, when it misses the sphere
      (the NaN case), the jerk-limited acceleration was within the limit already. */
  ghost predicate AccelerationGuard(lib: MathLib, l: VectorLimits, acceleration: Vec3, v: Vec3) {
    var norm := Norm(lib, acceleration);
    norm > K_NORM_EPS ==>
      match DistanceToMaxVelocity(lib, l.maxVelocity, acceleration.Over(norm), v)
      case Some(d) => BrakingNorm(l, d) >= -l.maxAcceleration
      case None => norm <= l.maxAcceleration
  }

  /** Outside the sphere of maximal speed the acceleration limit can fail; it holds exactly under the guard. */
  lemma VectorAccelerationBoundIff(lib: MathLib, l: VectorLimits, commanded: Vec3, s: VectorState)
    requires lib.LawfulSqrt() && l.Valid()
    ensures var acceleration := CommandedVectorAcceleration(lib, l, commanded, s);
            (Norm(lib, VectorStep(lib, l, commanded, s).acceleration) <= l.maxAcceleration
             <==> AccelerationGuard(lib, l, acceleration, s.velocity))
  {
    var acceleration := CommandedVectorAcceleration(lib, l, commanded, s);
    hide CommandedVectorAcceleration, VectorStep, Vec3.NormSquared, Vec3.Dot, DistanceToMaxVelocity, BrakingNorm;
    var unit, applied := StepAlongUnit(lib, l, commanded, s);
    if Norm(lib, acceleration) > K_NORM_EPS {
      UnitScaledAtMost(lib, unit, applied, l.maxAcceleration);
    } else {
      ZeroAtMost(lib, l.maxAcceleration);
    }
  }

  /** Outside the sphere, with the line of the acceleration missing it, the distance is NaN and the acceleration is not
      limited at all: the velocity is sideways to an acceleration above the limit, and a command keeps that acceleration. */
  lemma AccelerationIsUnlimitedBesideTheSphere(lib: MathLib, l: VectorLimits, w: real, a: real)
    requires lib.LawfulSqrt() && l.Valid() && w > l.maxVelocity && a > l.maxAcceleration && a > K_NORM_EPS
    ensures var s := VectorState(Vec3(w, 0.0, 0.0), Vec3(0.0, a, 0.0));
            var next := VectorStep(lib, l, s.velocity.Add(s.acceleration.Scale(0.001)), s);
            Norm(lib, next.acceleration) == a
  {
    var x, y := Vec3(1.0, 0.0, 0.0), Vec3(0.0, 1.0, 0.0);
    BasisVectors(x, y, w, a);
    hide CommandedVectorAcceleration, VectorStep, Norm, MathLib.LawfulSqrt, Vec3.NormSquared, Vec3.Add, Vec3.Dot,
         Vec3.Scale;
    UnlimitedSideways(lib, l, x, y, w, a);
  }

  lemma BasisVectors(x: Vec3, y: Vec3, w: real, a: real)
    requires x == Vec3(1.0, 0.0, 0.0) && y == Vec3(0.0, 1.0, 0.0)
    ensures x.Scale(w) == Vec3(w, 0.0, 0.0) && y.Scale(a) == Vec3(0.0, a, 0.0)
    ensures x.NormSquared() == 1.0 && y.NormSquared() == 1.0 && y.Dot(x) == 0.0
  {
  }

  lemma UnlimitedSideways(lib: MathLib, l: VectorLimits, u: Vec3, p: Vec3, w: real, a: real)
    requires lib.LawfulSqrt() && l.Valid() && w > l.maxVelocity && a > K_NORM_EPS
    requires u.NormSquared() == 1.0 && p.NormSquared() == 1.0 && p.Dot(u) == 0.0
    ensures var s := VectorState(u.Scale(w), p.Scale(a));
            var next := VectorStep(lib, l, s.velocity.Add(s.acceleration.Scale(0.001)), s);
            Norm(lib, next.acceleration) == a
  {
    hide CommandedVectorAcceleration, VectorStep, Norm, MathLib.LawfulSqrt, Vec3.NormSquared, Vec3.Add, Vec3.Dot,
         Vec3.Scale, Vec3.Over, DistanceToMaxVelocity, BrakingNorm;
    var s := VectorState(u.Scale(w), p.Scale(a));
    KeepingAcceleration(lib, l, s);
    NormOfScaledUnit(lib, p, a);
    ScaledThenDivided(p, a);
    DistanceSideways(lib, l.maxVelocity, u, p, w);
    var unit, applied := StepAlongUnit(lib, l, s.velocity.Add(s.acceleration.Scale(0.001)), s);
  }

  lemma DistanceSideways(lib: MathLib, maxVelocity: real, u: Vec3, p: Vec3, w: real)
    requires w > maxVelocity >= 0.0 && u.NormSquared() == 1.0 && p.Dot(u) == 0.0
    ensures DistanceToMaxVelocity(lib, maxVelocity, p, u.Scale(w)) == None
  {
    DotScales(p, u, w);
    NormSquaredOfScaled(u, w);
    hide Vec3.NormSquared, Vec3.Scale, Vec3.Dot;
    SquareOrder(w, maxVelocity);
  }

  /** Far outside the sphere, moving outward, the braking bound itself is beyond the acceleration limit. */
  lemma AccelerationFailsFarOutside(lib: MathLib, l: VectorLimits, u: Vec3, w: real, a: real)
    requires lib.LawfulSqrt() && l.Valid() && u.NormSquared() == 1.0 && a > K_NORM_EPS
    requires BrakingNorm(l, w - l.maxVelocity) > l.maxAcceleration
    ensures var s := VectorState(u.Scale(w), u.Scale(a));
            var next := VectorStep(lib, l, s.velocity.Add(s.acceleration.Scale(0.001)), s);
            Norm(lib, next.acceleration) == BrakingNorm(l, w - l.maxVelocity) > l.maxAcceleration
  {
    hide CommandedVectorAcceleration, VectorStep, Norm, MathLib.LawfulSqrt, Vec3.NormSquared, Vec3.Add, Vec3.Dot,
         Vec3.Scale, Vec3.Over, DistanceToMaxVelocity, BrakingNorm;
    var s := VectorState(u.Scale(w), u.Scale(a));
    KeepingAcceleration(lib, l, s);
    NormOfScaledUnit(lib, u, a);
    ScaledThenDivided(u, a);
    DistanceAlong(lib, l.maxVelocity, u, w);
    BrakingBackwards(l, w);
    var unit, applied := StepAlongUnit(lib, l, s.velocity.Add(s.acceleration.Scale(0.001)), s);
    NormOfScaledUnit(lib, u, applied);
  }

  lemma BrakingBackwards(l: VectorLimits, w: real)
    ensures BrakingNorm(l, l.maxVelocity - w) == -BrakingNorm(l, w - l.maxVelocity)
  {
  }

  /** The distance when moving along the acceleration. */
  lemma DistanceAlong(lib: MathLib, maxVelocity: real, u: Vec3, w: real)
    requires lib.LawfulSqrt() && maxVelocity >= 0.0 && u.NormSquared() == 1.0
    ensures DistanceToMaxVelocity(lib, maxVelocity, u, u.Scale(w)) == Some(maxVelocity - w)
  {
    DotScales(u, u, w);
    NormSquaredOfScaled(u, w);
    assert u.Dot(u) == 1.0;
    hide Vec3.NormSquared, Vec3.Scale, Vec3.Dot;
    assert Discriminant(maxVelocity, u, u.Scale(w)) == maxVelocity * maxVelocity;
    hide Discriminant;
    KnownRoot(lib, maxVelocity * maxVelocity, maxVelocity);
  }

  /** The distance leads to the last point of the sphere on the line, and it is missing exactly if there is none. */
  lemma DistanceIsLastCrossing(lib: MathLib, maxVelocity: real, unit: Vec3, v: Vec3, t: real)
    requires lib.LawfulSqrt() && unit.NormSquared() == 1.0
    ensures var distance := DistanceToMaxVelocity(lib, maxVelocity, unit, v);
            && (distance.Some? ==> v.Add(unit.Scale(distance.value)).NormSquared() == maxVelocity * maxVelocity)
            && (v.Add(unit.Scale(t)).NormSquared() == maxVelocity * maxVelocity ==>
                  distance.Some? && t <= distance.value)
  {
    var discriminant, b := Discriminant(maxVelocity, unit, v), unit.Dot(v);
    var bound, root := maxVelocity * maxVelocity, lib.sqrt(discriminant);
    NormSquaredAlong(v, unit, t);
    NormSquaredAlong(v, unit, -b + root);
    hide Vec3.NormSquared, Vec3.Dot, Vec3.Add, Vec3.Scale;
    assert discriminant == b * b - v.NormSquared() + bound;
    hide Discriminant;
    if discriminant >= 0.0 {
      OnTheSphere(v.NormSquared(), b, -b + root, bound, discriminant, root);
    }
    OnTheSphere(v.NormSquared(), b, t, bound, discriminant, root);
  }

  /** The points of the sphere on a line, by completing the square. */
  lemma OnTheSphere(n: real, b: real, t: real, bound: real, discriminant: real, root: real)
    requires discriminant == b * b - n + bound
    requires discriminant >= 0.0 ==> root >= 0.0 && root * root == discriminant
    ensures discriminant >= 0.0 && t == -b + root ==> n + 2.0 * t * b + t * t * 1.0 == bound
    ensures n + 2.0 * t * b + t * t * 1.0 == bound ==> discriminant >= 0.0 && t <= -b + root
  {
    var c := t + b;
    assert c * c == t * t + 2.0 * t * b + b * b;
    SquareNonnegative(c);
    if c >= 0.0 && root >= 0.0 {
      SquareOrder(c, root);
    }
  }

  /** The step goes along the jerk-limited acceleration, as far as that itself, the acceleration limit and the braking bound
      allow, and no less. Without a distance (the NaN case) it goes all the way. */
  lemma VectorStepGoesAlong(lib: MathLib, l: VectorLimits, commanded: Vec3, s: VectorState) returns (k: real)
    requires lib.LawfulSqrt() && Norm(lib, CommandedVectorAcceleration(lib, l, commanded, s)) > K_NORM_EPS
    ensures var a, next := CommandedVectorAcceleration(lib, l, commanded, s), VectorStep(lib, l, commanded, s);
            var norm := Norm(lib, a);
            var distance := DistanceToMaxVelocity(lib, l.maxVelocity, a.Over(norm), s.velocity);
            && next.acceleration == a.Over(norm).Scale(k)
            && next.velocity == s.velocity.Add(next.acceleration.Scale(0.001))
            && k <= norm
            && match distance
               case None => k == norm
               case Some(d) =>
                 && k <= l.maxAcceleration && k <= l.slope * d
                 && (k == norm || k == l.maxAcceleration || k == l.slope * d)
  {
    var a := CommandedVectorAcceleration(lib, l, commanded, s);
    hide CommandedVectorAcceleration, VectorStep, DistanceToMaxVelocity, Norm, Vec3.NormSquared, Vec3.Add;
    var unit, applied := StepAlongUnit(lib, l, commanded, s);
    ScaleTwice(unit, applied);
    hide Vec3.Scale, Vec3.Over;
    k := applied;
  }

  /** An acceleration too small to have a direction changes nothing. */
  lemma TinyAccelerationIsDropped(lib: MathLib, l: VectorLimits, commanded: Vec3, s: VectorState)
    requires Norm(lib, CommandedVectorAcceleration(lib, l, commanded, s)) <= K_NORM_EPS
    ensures VectorStep(lib, l, commanded, s) == VectorState(s.velocity, ZERO3)
  {
    hide CommandedVectorAcceleration, Norm, AppliedNorm;
  }

  // ----- Jerk -----

  /** The jerk-limited acceleration is within one jerk step of the last acceleration. */
  lemma CommandedVectorAccelerationIsNear(lib: MathLib, l: VectorLimits, commanded: Vec3, s: VectorState)
    requires lib.LawfulSqrt() && l.maxJerk >= 0.0
    ensures Norm(lib, CommandedVectorAcceleration(lib, l, commanded, s).Sub(s.acceleration)) <= l.maxJerk * 0.001
  {
    var jerk := CommandedVectorJerk(commanded, s);
    var norm := Norm(lib, jerk);
    hide CommandedVectorJerk, Vec3.NormSquared;
    if norm > K_NORM_EPS {
      var unit, k := jerk.Over(norm), Clamp(norm, l.maxJerk);
      UnitVector(lib, jerk);
      hide Vec3.Over;
      ScaleTwice(unit, k);
      AddThenSubtractOnce(s.acceleration, unit, k * 0.001);
      UnitScaledAtMost(lib, unit, k * 0.001, l.maxJerk * 0.001);
    } else {
      AddThenSubtractOnce(s.acceleration, ZERO3, 0.0);
      ZeroAtMost(lib, l.maxJerk * 0.001);
    }
  }

  /** The acceleration that the command asks for. */
  function WantedVectorAcceleration(commanded: Vec3, s: VectorState): Vec3 {
    PerSample(commanded.Sub(s.velocity))
  }

  /** The jerk-limited acceleration is the one nearest to what the command asks for, of all that are within one jerk step
      of the last, and the only one: any other is further away by at least its distance from it. */
  lemma CommandedVectorAccelerationIsNearest(lib: MathLib, l: VectorLimits, commanded: Vec3, s: VectorState, other: Vec3)
    requires lib.LawfulSqrt() && l.maxJerk >= 0.0 && Norm(lib, CommandedVectorJerk(commanded, s)) > K_NORM_EPS
    requires Norm(lib, other.Sub(s.acceleration)) <= l.maxJerk * 0.001
    ensures var wanted, a := WantedVectorAcceleration(commanded, s), CommandedVectorAcceleration(lib, l, commanded, s);
            && wanted.Sub(other).NormSquared() >= wanted.Sub(a).NormSquared() + a.Sub(other).NormSquared()
            && Norm(lib, wanted.Sub(a)) <= Norm(lib, wanted.Sub(other))
            && (Norm(lib, wanted.Sub(a)) == Norm(lib, wanted.Sub(other)) ==> other == a)
  {
    var jerk, last := CommandedVectorJerk(commanded, s), s.acceleration;
    var norm := Norm(lib, jerk);
    var unit, n, k := jerk.Over(norm), norm * 0.001, Clamp(norm, l.maxJerk) * 0.001;
    var o := other.Sub(last);
    UnitVector(lib, jerk);
    UndoJerk(commanded, s);
    ScaleTwice(unit, norm);
    ScaleTwice(unit, Clamp(norm, l.maxJerk));
    NormAtMost(lib, o, l.maxJerk * 0.001);
    hide Vec3.Over, CommandedVectorJerk, Norm;
    assert last.Add(o) == other;
    hide Vec3.Scale, PerSample;
    DifferenceFrom(last, unit.Scale(n), unit.Scale(k));
    DifferenceFrom(last, unit.Scale(n), o);
    DifferenceFrom(last, unit.Scale(k), o);
    hide Vec3.Add, Vec3.Sub, Vec3.NormSquared;
    StepTowards(unit, n, k, l.maxJerk * 0.001, o);
    var wanted, a := WantedVectorAcceleration(commanded, s), CommandedVectorAcceleration(lib, l, commanded, s);
    assert wanted == last.Add(unit.Scale(n)) && a == last.Add(unit.Scale(k));
    FurtherAway(lib, wanted, a, other);
  }

  lemma DifferenceFrom(v: Vec3, x: Vec3, y: Vec3)
    ensures v.Add(x).Sub(v.Add(y)) == x.Sub(y)
  {
  }

  /** Going from the centre of a ball toward a point, as far as the ball allows, comes nearest to it. */
  lemma StepTowards(unit: Vec3, n: real, k: real, bound: real, o: Vec3)
    requires unit.NormSquared() == 1.0 && 0.0 <= k <= n && (k == n || k == bound) && k <= bound
    requires o.NormSquared() <= bound * bound
    ensures unit.Scale(n).Sub(o).NormSquared()
         >= unit.Scale(n).Sub(unit.Scale(k)).NormSquared() + unit.Scale(k).Sub(o).NormSquared()
  {
    hide Vec3.NormSquared, Vec3.Scale, Vec3.Sub, Vec3.Dot;
    CauchySchwarz(unit, o, 1.0, bound);
    DistanceAlongUnit(unit, o, n);
    DistanceAlongUnit(unit, o, k);
    DistanceAlongUnit(unit, unit.Scale(k), n);
    NormSquaredOfScaled(unit, k);
    DotScales(unit, unit, k);
    DotIsNormSquared(unit);
    Towards(n, k, bound, unit.Dot(o));
  }

  lemma DotIsNormSquared(v: Vec3)
    ensures v.Dot(v) == v.NormSquared()
  {
  }

  lemma Towards(n: real, k: real, bound: real, along: real)
    requires 0.0 <= k <= n && (k == n || k == bound) && along <= bound
    ensures n * n - 2.0 * (n * along) >= (n - k) * (n - k) + k * k - 2.0 * (k * along)
  {
    if k != n {
      ProductNonnegative(n - k, k - along);
    }
  }

  /** If the squares leave a gap as large as the distance of two points, the nearer one is strictly nearer. */
  lemma FurtherAway(lib: MathLib, from: Vec3, near: Vec3, far: Vec3)
    requires lib.LawfulSqrt()
    requires from.Sub(far).NormSquared() >= from.Sub(near).NormSquared() + near.Sub(far).NormSquared()
    ensures Norm(lib, from.Sub(near)) <= Norm(lib, from.Sub(far))
    ensures Norm(lib, from.Sub(near)) == Norm(lib, from.Sub(far)) ==> far == near
  {
    NormIsRoot(lib, from.Sub(near));
    NormIsRoot(lib, from.Sub(far));
    NormSquaredNonnegative(near.Sub(far));
    hide Norm, Vec3.NormSquared, Vec3.Sub, MathLib.LawfulSqrt;
    SquareOrder(Norm(lib, from.Sub(near)), Norm(lib, from.Sub(far)));
    if Norm(lib, from.Sub(near)) == Norm(lib, from.Sub(far)) {
      ZeroDistance(near, far);
    }
  }

  lemma ZeroDistance(u: Vec3, v: Vec3)
    requires u.Sub(v).NormSquared() <= 0.0
    ensures u == v
  {
    SquareNonnegative(u.x - v.x);
    SquareNonnegative(u.y - v.y);
    SquareNonnegative(u.z - v.z);
    assert u.Sub(v).NormSquared()
        == (u.x - v.x) * (u.x - v.x) + (u.y - v.y) * (u.y - v.y) + (u.z - v.z) * (u.z - v.z);
    ZeroSquare(u.x - v.x);
    ZeroSquare(u.y - v.y);
    ZeroSquare(u.z - v.z);
  }

  lemma ZeroSquare(x: real)
    requires x * x <= 0.0
    ensures x == 0.0
  {
    SquareOrder(Abs(x), 0.0);
  }

  lemma AddThenSubtractOnce(v: Vec3, u: Vec3, k: real)
    ensures v.Add(u.Scale(k)).Sub(v) == u.Scale(k)
    ensures u == ZERO3 ==> v.Sub(v) == u.Scale(k)
  {
  }

  /** Shortening a vector to a ball does not take it further from any point of the ball. */
  lemma ShorteningIsNonexpansive(unit: Vec3, norm: real, bound: real, a: Vec3)
    requires unit.NormSquared() == 1.0 && 0.0 <= bound <= norm && a.NormSquared() <= bound * bound
    ensures unit.Scale(bound).Sub(a).NormSquared() <= unit.Scale(norm).Sub(a).NormSquared()
  {
    CauchySchwarz(unit, a, 1.0, bound);
    var along := unit.Dot(a);
    hide Vec3.Dot, Vec3.NormSquared, Vec3.Scale, Vec3.Sub;
    NormSquaredOfDifference(unit.Scale(bound), a);
    NormSquaredOfDifference(unit.Scale(norm), a);
    NormSquaredOfScaled(unit, bound);
    NormSquaredOfScaled(unit, norm);
    DotOfScaled(unit, a, bound);
    DotOfScaled(unit, a, norm);
    Shortening(norm, bound, along);
  }

  lemma Shortening(norm: real, bound: real, along: real)
    requires 0.0 <= bound <= norm && along <= bound
    ensures bound * bound - 2.0 * (bound * along) <= norm * norm - 2.0 * (norm * along)
  {
    ProductNonnegative(norm - bound, norm + bound - 2.0 * along);
  }

  /** The shortest acceleration along a unit vector that is within a jerk step of the last acceleration. */
  function ShortestNearby(lib: MathLib, unit: Vec3, last: Vec3, step: real): real {
    unit.Dot(last) - lib.sqrt(Discriminant(step, unit, last))
  }

  /** The bounds on the acceleration do not cut it below a given norm. Without a distance (the NaN case) nothing is cut. */
  predicate Uncut(l: VectorLimits, shortest: real, distance: Option<real>) {
    distance.Some? ==> shortest <= Min(BrakingNorm(l, distance.value), l.maxAcceleration)
  }

  /** The bounds do not cut the acceleration below what the jerk limit asks for. An acceleration too small to have a
      direction is dropped as a whole. */
  ghost predicate JerkGuard(lib: MathLib, l: VectorLimits, acceleration: Vec3, s: VectorState) {
    var norm, step := Norm(lib, acceleration), l.maxJerk * 0.001;
    if norm > K_NORM_EPS then
      var unit := acceleration.Over(norm);
      Uncut(l, ShortestNearby(lib, unit, s.acceleration, step), DistanceToMaxVelocity(lib, l.maxVelocity, unit, s.velocity))
    else
      Norm(lib, s.acceleration) <= step
  }

  /** The limiter does not always keep the jerk limit; from any state and for any command, it does exactly under the guard. */
  lemma VectorJerkBoundIff(lib: MathLib, l: VectorLimits, commanded: Vec3, s: VectorState)
    requires lib.LawfulSqrt() && l.Valid()
    ensures var acceleration := CommandedVectorAcceleration(lib, l, commanded, s);
            (Norm(lib, VectorStep(lib, l, commanded, s).acceleration.Sub(s.acceleration)) <= l.maxJerk * 0.001
             <==> JerkGuard(lib, l, acceleration, s))
  {
    var acceleration := CommandedVectorAcceleration(lib, l, commanded, s);
    hide CommandedVectorAcceleration, VectorStep, Vec3.NormSquared, Vec3.Dot, Vec3.Scale, Vec3.Sub, Norm,
         DistanceToMaxVelocity, BrakingNorm, ShortestNearby, Vec3.Over, LimitedNorm, Min, Uncut;
    CommandedVectorAccelerationIsNear(lib, l, commanded, s);
    var unit, applied := StepAlongUnit(lib, l, commanded, s);
    var norm, step, last := Norm(lib, acceleration), l.maxJerk * 0.001, s.acceleration;
    if norm > K_NORM_EPS {
      NearbyAlong(lib, unit, last, step, norm, norm);
      LimitedNormIsLess(l, norm, DistanceToMaxVelocity(lib, l.maxVelocity, unit, s.velocity),
                        ShortestNearby(lib, unit, last, step));
      NearbyAlong(lib, unit, last, step, applied, norm);
    } else {
      NothingLess(lib, last);
    }
  }

  lemma LimitedNormIsLess(l: VectorLimits, norm: real, distance: Option<real>, shortest: real)
    requires shortest <= norm
    ensures LimitedNorm(l, norm, distance) <= norm
    ensures shortest <= LimitedNorm(l, norm, distance) <==> Uncut(l, shortest, distance)
  {
  }

  lemma NothingLess(lib: MathLib, a: Vec3)
    requires lib.LawfulSqrt()
    ensures Norm(lib, ZERO3.Scale(0.0).Sub(a)) == Norm(lib, a)
  {
    assert ZERO3.Scale(0.0).Sub(a).NormSquared() == a.NormSquared();
  }

  /** Of the vectors along a unit vector up to one that is near a, exactly those from the shortest on are near a. */
  lemma NearbyAlong(lib: MathLib, unit: Vec3, a: Vec3, step: real, k: real, n: real)
    requires lib.LawfulSqrt() && unit.NormSquared() == 1.0 && step >= 0.0
    requires k <= n && Norm(lib, unit.Scale(n).Sub(a)) <= step
    ensures Norm(lib, unit.Scale(k).Sub(a)) <= step <==> ShortestNearby(lib, unit, a, step) <= k
  {
    hide Vec3.NormSquared, Vec3.Dot, Vec3.Scale, Vec3.Sub, Norm, Gap, Discriminant, ShortestNearby, MathLib.LawfulSqrt;
    DistanceAlongUnit(unit, a, k);
    DistanceAlongUnit(unit, a, n);
    NormAtMost(lib, unit.Scale(k).Sub(a), step);
    NormAtMost(lib, unit.Scale(n).Sub(a), step);
    RootsOfGap(lib, unit, a, step, k, n);
  }

  /** The square of the distance from k times a unit vector to a vector, of which the product and the square are given. */
  function Gap(k: real, along: real, square: real): real {
    k * k - 2.0 * (k * along) + square
  }

  lemma DistanceAlongUnit(unit: Vec3, a: Vec3, k: real)
    requires unit.NormSquared() == 1.0
    ensures unit.Scale(k).Sub(a).NormSquared() == Gap(k, unit.Dot(a), a.NormSquared())
  {
    hide Vec3.NormSquared, Vec3.Dot, Vec3.Scale, Vec3.Sub;
    NormSquaredOfDifference(unit.Scale(k), a);
    NormSquaredOfScaled(unit, k);
    DotOfScaled(unit, a, k);
  }

  /** The discriminant of the gap being at most the square of the step. */
  lemma RootsOfGap(lib: MathLib, unit: Vec3, a: Vec3, step: real, k: real, n: real)
    requires lib.LawfulSqrt() && k <= n && Gap(n, unit.Dot(a), a.NormSquared()) <= step * step
    ensures Discriminant(step, unit, a) >= 0.0 && lib.sqrt(Discriminant(step, unit, a)) >= 0.0
    ensures Gap(k, unit.Dot(a), a.NormSquared()) <= step * step <==> ShortestNearby(lib, unit, a, step) <= k
  {
    hide Vec3.NormSquared, Vec3.Dot;
    var along, square, discriminant := unit.Dot(a), a.NormSquared(), Discriminant(step, unit, a);
    HasRoots(n, along, square, step * step, discriminant);
    hide Discriminant, Gap;
    BetweenRoots(k, n, along, square, step * step, discriminant, lib.sqrt(discriminant));
  }

  lemma HasRoots(n: real, along: real, square: real, bound: real, discriminant: real)
    requires discriminant == along * along - square + bound && Gap(n, along, square) <= bound
    ensures discriminant >= 0.0 && Spread(along, square, bound, discriminant)
  {
    SquareNonnegative(n - along);
  }

  ghost predicate Spread(along: real, square: real, bound: real, discriminant: real) {
    discriminant == along * along - square + bound
  }

  lemma BetweenRoots(k: real, n: real, along: real, square: real, bound: real, discriminant: real, root: real)
    requires Spread(along, square, bound, discriminant) && root >= 0.0 && root * root == discriminant
    requires k <= n && Gap(n, along, square) <= bound
    ensures Gap(k, along, square) <= bound <==> along - root <= k
  {
    GapIsShifted(k, along, square, bound, discriminant);
    GapIsShifted(n, along, square, bound, discriminant);
    hide Gap, Spread;
    SquareWithin(n - along, root, discriminant);
    SquareWithin(k - along, root, discriminant);
  }

  lemma GapIsShifted(k: real, along: real, square: real, bound: real, discriminant: real)
    requires Spread(along, square, bound, discriminant)
    ensures Gap(k, along, square) <= bound <==> (k - along) * (k - along) <= discriminant
  {
  }

  lemma SquareWithin(x: real, root: real, square: real)
    requires root >= 0.0 && root * root == square
    ensures x * x <= square <==> -root <= x <= root
  {
    assert x * x == Abs(x) * Abs(x);
    SquareOrder(Abs(x), root);
  }

  /** In particular it is kept whenever the last acceleration was within its limit and the distance to the maximal speed
      does not cut the commanded one: the limit on the acceleration alone never breaks it. */
  lemma VectorJerkIsBounded(lib: MathLib, l: VectorLimits, commanded: Vec3, s: VectorState)
    requires lib.LawfulSqrt() && l.Valid()
    requires Norm(lib, s.acceleration) <= l.maxAcceleration
    requires var acceleration := CommandedVectorAcceleration(lib, l, commanded, s);
             && Norm(lib, acceleration) > K_NORM_EPS
             && AppliedNorm(lib, l, acceleration, s.velocity) == Min(Norm(lib, acceleration), l.maxAcceleration)
    ensures Norm(lib, VectorStep(lib, l, commanded, s).acceleration.Sub(s.acceleration)) <= l.maxJerk * 0.001
  {
    CommandedVectorAccelerationIsNear(lib, l, commanded, s);
    var acceleration := CommandedVectorAcceleration(lib, l, commanded, s);
    hide CommandedVectorAcceleration, VectorStep, Norm, Vec3.Sub, Vec3.Scale, AppliedNorm;
    var unit, applied := StepAlongUnit(lib, l, commanded, s);
    ShorteningKeepsDistance(lib, unit, Norm(lib, acceleration), l.maxAcceleration, s.acceleration, l.maxJerk * 0.001);
  }

  lemma ShorteningKeepsDistance(lib: MathLib, unit: Vec3, norm: real, bound: real, a: Vec3, distance: real)
    requires lib.LawfulSqrt() && bound >= 0.0 && distance >= 0.0 && norm >= 0.0
    requires unit.NormSquared() == 1.0 && Norm(lib, a) <= bound && Norm(lib, unit.Scale(norm).Sub(a)) <= distance
    ensures Norm(lib, unit.Scale(Min(norm, bound)).Sub(a)) <= distance
  {
    hide Vec3.NormSquared, Vec3.Sub, Vec3.Scale, Norm;
    NormAtMost(lib, a, bound);
    NormAtMost(lib, unit.Scale(norm).Sub(a), distance);
    if bound < norm {
      ShorteningIsNonexpansive(unit, norm, bound, a);
      NormAtMost(lib, unit.Scale(bound).Sub(a), distance);
    }
  }

  /** From a state within both limits the guard is about the distance to the maximal speed alone. */
  lemma VectorJerkBoundInside(lib: MathLib, l: VectorLimits, commanded: Vec3, s: VectorState)
    requires lib.LawfulSqrt() && l.Valid()
    requires Norm(lib, s.velocity) <= l.maxVelocity && Norm(lib, s.acceleration) <= l.maxAcceleration
    requires Norm(lib, CommandedVectorAcceleration(lib, l, commanded, s)) > K_NORM_EPS
    ensures var acceleration := CommandedVectorAcceleration(lib, l, commanded, s);
            var unit := acceleration.Over(Norm(lib, acceleration));
            var distance := DistanceToMaxVelocity(lib, l.maxVelocity, unit, s.velocity);
            && distance.Some?
            && (Norm(lib, VectorStep(lib, l, commanded, s).acceleration.Sub(s.acceleration)) <= l.maxJerk * 0.001
                <==> ShortestNearby(lib, unit, s.acceleration, l.maxJerk * 0.001) <= BrakingNorm(l, distance.value))
  {
    VectorJerkBoundIff(lib, l, commanded, s);
    var acceleration := CommandedVectorAcceleration(lib, l, commanded, s);
    CommandedVectorAccelerationIsNear(lib, l, commanded, s);
    UnitVector(lib, acceleration);
    var unit := acceleration.Over(Norm(lib, acceleration));
    hide CommandedVectorAcceleration, VectorStep, Vec3.NormSquared, Vec3.Dot, Vec3.Scale, Vec3.Sub, Norm,
         DistanceToMaxVelocity, BrakingNorm, ShortestNearby, Vec3.Over;
    NormAtMost(lib, s.velocity, l.maxVelocity);
    DistanceFromInside(lib, l.maxVelocity, unit, s.velocity);
    ShortestIsNoLonger(lib, unit, s.acceleration, l.maxJerk * 0.001, Norm(lib, acceleration), l.maxAcceleration);
  }

  lemma ShortestIsNoLonger(lib: MathLib, unit: Vec3, a: Vec3, step: real, n: real, bound: real)
    requires lib.LawfulSqrt() && unit.NormSquared() == 1.0 && step >= 0.0 && bound >= 0.0
    requires Norm(lib, unit.Scale(n).Sub(a)) <= step && Norm(lib, a) <= bound
    ensures ShortestNearby(lib, unit, a, step) <= bound
  {
    hide Vec3.NormSquared, Vec3.Dot, Vec3.Scale, Vec3.Sub, Norm, Gap, Discriminant, MathLib.LawfulSqrt;
    NormAtMost(lib, a, bound);
    CauchySchwarz(unit, a, 1.0, bound);
    DistanceAlongUnit(unit, a, n);
    NormAtMost(lib, unit.Scale(n).Sub(a), step);
    RootsOfGap(lib, unit, a, step, n, n);
  }

  /** When the distance to the maximal speed does cut the acceleration, no jerk limit holds: at maximal speed and
      accelerating outward at any rate a, a command that keeps the acceleration makes the limiter drop it to zero. */
  lemma VectorJerkIsUnboundedAtMaximalSpeed(lib: MathLib, l: VectorLimits, u: Vec3, a: real)
    requires lib.LawfulSqrt() && l.Valid() && u.NormSquared() == 1.0 && a > K_NORM_EPS
    ensures var s := VectorState(u.Scale(l.maxVelocity), u.Scale(a));
            var next := VectorStep(lib, l, s.velocity.Add(s.acceleration.Scale(0.001)), s);
            Norm(lib, next.acceleration.Sub(s.acceleration)) == a
  {
    hide CommandedVectorAcceleration, AppliedNorm, VectorStep, Norm, MathLib.LawfulSqrt, Vec3.NormSquared, Vec3.Add;
    var s := VectorState(u.Scale(l.maxVelocity), u.Scale(a));
    KeepingAcceleration(lib, l, s);
    AppliedAtMaximalSpeed(lib, l, u, a);
    NormOfScaledUnit(lib, u, a);
    var unit, applied := StepAlongUnit(lib, l, s.velocity.Add(s.acceleration.Scale(0.001)), s);
    DroppedAcceleration(unit, u, a);
    NormOfScaledUnit(lib, u, -a);
  }

  lemma DroppedAcceleration(unit: Vec3, u: Vec3, a: real)
    ensures unit.Scale(0.0).Sub(u.Scale(a)) == u.Scale(-a)
  {
  }

  lemma NormOfScaledUnit(lib: MathLib, u: Vec3, k: real)
    requires lib.LawfulSqrt() && u.NormSquared() == 1.0
    ensures Norm(lib, u.Scale(k)) == Abs(k)
  {
    NormSquaredOfScaled(u, k);
    hide Vec3.NormSquared, Vec3.Scale;
    KnownNorm(lib, u.Scale(k), Abs(k));
  }

  lemma AppliedAtMaximalSpeed(lib: MathLib, l: VectorLimits, u: Vec3, a: real)
    requires lib.LawfulSqrt() && l.Valid() && u.NormSquared() == 1.0 && a > K_NORM_EPS
    ensures Norm(lib, u.Scale(a)) == a && AppliedNorm(lib, l, u.Scale(a), u.Scale(l.maxVelocity)) == 0.0
  {
    hide MathLib.LawfulSqrt, Norm, DistanceToMaxVelocity, Vec3.NormSquared;
    NormOfScaledUnit(lib, u, a);
    ScaledThenDivided(u, a);
    DistanceAlong(lib, l.maxVelocity, u, l.maxVelocity);
  }

  lemma ScaledThenDivided(u: Vec3, a: real)
    requires a != 0.0
    ensures u.Scale(a).Over(a) == u
  {
  }

  lemma KnownRoot(lib: MathLib, x: real, root: real)
    requires lib.LawfulSqrt() && root >= 0.0 && root * root == x
    ensures lib.sqrt(x) == root
  {
    SquareNonnegative(root);
    RootUnique(lib.sqrt(x), root);
  }

  lemma KeepingAcceleration(lib: MathLib, l: VectorLimits, s: VectorState)
    requires lib.LawfulSqrt()
    ensures CommandedVectorAcceleration(lib, l, s.velocity.Add(s.acceleration.Scale(0.001)), s) == s.acceleration
  {
    hide MathLib.LawfulSqrt, Norm, CommandedVectorAcceleration, PerSample, Vec3.Add, Vec3.Scale;
    var commanded := s.velocity.Add(s.acceleration.Scale(0.001));
    DifferenceOfIncrement(s.velocity, s.acceleration);
    assert s.acceleration.Sub(s.acceleration) == ZERO3;
    AxisNorm(lib, 0.0);
    SmallJerkKeepsAcceleration(lib, l, commanded, s);
  }

  lemma DifferenceOfIncrement(v: Vec3, a: Vec3)
    ensures PerSample(v.Add(a.Scale(0.001)).Sub(v)) == a
    ensures PerSample(ZERO3) == ZERO3
  {
  }

  lemma SmallJerkKeepsAcceleration(lib: MathLib, l: VectorLimits, commanded: Vec3, s: VectorState)
    requires Norm(lib, CommandedVectorJerk(commanded, s)) <= K_NORM_EPS
    ensures CommandedVectorAcceleration(lib, l, commanded, s) == s.acceleration
  {
  }

  lemma AxisNorm(lib: MathLib, k: real)
    requires lib.LawfulSqrt() && k >= 0.0
    ensures Norm(lib, Vec3(k, 0.0, 0.0)) == k
  {
    KnownNorm(lib, Vec3(k, 0.0, 0.0), k);
  }
}
