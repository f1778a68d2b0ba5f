/** The combination of end effector and load in src/load_calculations.cpp. */
module LoadCalculations {
  import opened RealMath
  import opened Linear3

  datatype Body = Body(mass: real, center: Vec3, inertia: Mat3)

  const EMPTY := Body(0.0, ZERO3, ZERO33)

  type Triple = v: seq<real> | |v| == 3 witness [0.0, 0.0, 0.0]

  function ToVec3(v: Triple): Vec3 {
    Vec3(v[0], v[1], v[2])
  }

  function WeightedMean(m: real, x: real, m': real, x': real): real
    requires m + m' != 0.0
  {
    (m * x + m' * x') / (m + m')
  }

  function CombinedCenter(m: real, c: Vec3, m': real, c': Vec3): Vec3 {
    if m + m' > 0.0 then
      Vec3(WeightedMean(m, c.x, m', c'.x), WeightedMean(m, c.y, m', c'.y), WeightedMean(m, c.z, m', c'.z))
    else ZERO3
  }

  method CombineCenterOfMass(massEe: real, centerEe: Triple, massLoad: real, centerLoad: Triple) returns (total: Triple)
    ensures ToVec3(total) == CombinedCenter(massEe, ToVec3(centerEe), massLoad, ToVec3(centerLoad))
    ensures massEe + massLoad > 0.0 ==> forall i :: 0 <= i < 3 ==>
      (massEe + massLoad) * total[i] == massEe * centerEe[i] + massLoad * centerLoad[i]
    ensures massEe + massLoad <= 0.0 ==> total == [0.0, 0.0, 0.0]
  {
    total := [0.0, 0.0, 0.0];
    if massEe + massLoad > 0.0 {
      for i := 0 to 3
        invariant forall j :: 0 <= j < i ==> total[j] == WeightedMean(massEe, centerEe[j], massLoad, centerLoad[j])
      {
        total := total[i := WeightedMean(massEe, centerEe[i], massLoad, centerLoad[i])];
      }
    }
  }

  function Product(p: real, q: real): real {
    p * q
  }

  function SkewSquared(v: Vec3): (m: Mat3)
    ensures m == Mat3(-Product(v.y, v.y) - Product(v.z, v.z), Product(v.x, v.y), Product(v.x, v.z),
                      Product(v.x, v.y), -Product(v.x, v.x) - Product(v.z, v.z), Product(v.y, v.z),
                      Product(v.x, v.z), Product(v.y, v.z), -Product(v.x, v.x) - Product(v.y, v.y))
  {
    Skew(v).Mul(Skew(v))
  }

  /** The inertia of a body about the flange: the parallel-axis theorem. */
  function FlangeInertia(mass: real, center: Vec3, inertia: Mat3): Mat3 {
    inertia.Sub(SkewSquared(center).Scale(mass))
  }

  /** The inertia of a body without mass is ignored. */
  function MassiveInertia(mass: real, inertia: Mat3): Mat3 {
    if mass == 0.0 then ZERO33 else inertia
  }

  function CombinedInertia(a: Body, b: Body, mass: real, center: Vec3): Mat3 {
    if mass == 0.0 then ZERO33
    else
      FlangeInertia(a.mass, a.center, MassiveInertia(a.mass, a.inertia))
      .Add(FlangeInertia(b.mass, b.center, MassiveInertia(b.mass, b.inertia)))
      .Add(SkewSquared(center).Scale(mass))
  }

  method CombineInertiaTensor(ee: Body, load: Body, massTotal: real, centerTotal: Vec3) returns (inertiaTotal: Mat3)
    ensures inertiaTotal == CombinedInertia(ee, load, massTotal, centerTotal)
    ensures massTotal != 0.0 ==>
      FlangeInertia(massTotal, centerTotal, inertiaTotal)
      == FlangeInertia(ee.mass, ee.center, MassiveInertia(ee.mass, ee.inertia))
         .Add(FlangeInertia(load.mass, load.center, MassiveInertia(load.mass, load.inertia)))
  {
    if massTotal == 0.0 {
      return ZERO33;
    }
    var inertiaEe, inertiaLoad := ee.inertia, load.inertia;
    if ee.mass == 0.0 {
      inertiaEe := ZERO33;
    }
    if load.mass == 0.0 {
      inertiaLoad := ZERO33;
    }
    var inertiaEeFlange := inertiaEe.Sub(Skew(ee.center).Mul(Skew(ee.center)).Scale(ee.mass));
    var inertiaLoadFlange := inertiaLoad.Sub(Skew(load.center).Mul(Skew(load.center)).Scale(load.mass));
    var inertiaTotalFlange := inertiaEeFlange.Add(inertiaLoadFlange);
    inertiaTotal := inertiaTotalFlange.Add(Skew(centerTotal).Mul(Skew(centerTotal)).Scale(massTotal));
    hide SkewSquared, Mat3.Scale, Mat3.Sub, Mat3.Add;
    AddThenSub(inertiaTotalFlange, SkewSquared(centerTotal).Scale(massTotal));
  }

  lemma AddThenSub(a: Mat3, b: Mat3)
    ensures a.Add(b).Sub(b) == a
  {
  }

  /** End effector and load as one body, as convertRobotState computes it (src/robot_impl.cpp:430-435). */
  function Combine(a: Body, b: Body): Body {
    var mass, center := a.mass + b.mass, CombinedCenter(a.mass, a.center, b.mass, b.center);
    Body(mass, center, CombinedInertia(a, b, mass, center))
  }

  // ----- Combining adds moments -----

  /** Mass, first moment and second moment about the flange. */
  datatype Moments = Moments(mass: real, first: Vec3, second: Mat3) {
    function Add(m: Moments): Moments {
      Moments(mass + m.mass, first.Add(m.first), second.Add(m.second))
    }
  }

  function MomentsOf(b: Body): Moments {
    if b.mass == 0.0 then Moments(0.0, ZERO3, ZERO33)
    else Moments(b.mass, b.center.Scale(b.mass), FlangeInertia(b.mass, b.center, b.inertia))
  }

  lemma CombinedCenterMoment(m: real, c: Vec3, m': real, c': Vec3)
    requires m + m' > 0.0
    ensures CombinedCenter(m, c, m', c').Scale(m + m') == c.Scale(m).Add(c'.Scale(m'))
  {
    MeanTimesMass(m, c.x, m', c'.x);
    MeanTimesMass(m, c.y, m', c'.y);
    MeanTimesMass(m, c.z, m', c'.z);
    hide WeightedMean;
  }

  lemma MeanTimesMass(m: real, x: real, m': real, x': real)
    requires m + m' > 0.0
    ensures WeightedMean(m, x, m', x') * (m + m') == x * m + x' * m'
  {
    assert (m * x + m' * x') / (m + m') * (m + m') == m * x + m' * x';
  }

  lemma FirstMoment(b: Body)
    ensures b.center.Scale(b.mass) == MomentsOf(b).first
  {
    hide FlangeInertia;
  }

  lemma SecondMoment(b: Body)
    ensures FlangeInertia(b.mass, b.center, MassiveInertia(b.mass, b.inertia)) == MomentsOf(b).second
  {
    hide SkewSquared, Vec3.Scale;
    if b.mass == 0.0 {
      NothingSubtracted(SkewSquared(b.center));
    }
  }

  lemma NothingSubtracted(m: Mat3)
    ensures ZERO33.Sub(m.Scale(0.0)) == ZERO33
  {
  }

  /** What the combined centre and inertia are for: about the flange, combining bodies of positive total mass adds up. */
  lemma CombinedFlange(a: Body, b: Body, c: Body)
    requires a.mass + b.mass > 0.0 && c == Combine(a, b)
    ensures c.center.Scale(c.mass) == MomentsOf(a).first.Add(MomentsOf(b).first)
    ensures FlangeInertia(c.mass, c.center, c.inertia) == MomentsOf(a).second.Add(MomentsOf(b).second)
  {
    CombinedCenterMoment(a.mass, a.center, b.mass, b.center);
    FirstMoment(a);
    FirstMoment(b);
    SecondMoment(a);
    SecondMoment(b);
    hide CombinedCenter, SkewSquared, MomentsOf, MassiveInertia, Vec3.Scale, Vec3.Add, Mat3.Scale, Mat3.Add, Mat3.Sub;
    AddThenSub(MomentsOf(a).second.Add(MomentsOf(b).second), SkewSquared(c.center).Scale(c.mass));
  }

  lemma ZeroAddsNothing(v: Vec3, m: Mat3)
    ensures v.Add(ZERO3) == v && m.Add(ZERO33) == m
  {
  }

  /** For bodies of non-negative mass, combining adds moments. */
  lemma CombineAddsMoments(a: Body, b: Body)
    requires a.mass >= 0.0 && b.mass >= 0.0
    ensures MomentsOf(Combine(a, b)) == MomentsOf(a).Add(MomentsOf(b))
  {
    hide FlangeInertia, CombinedCenter, CombinedInertia, Vec3.Scale, Vec3.Add, Mat3.Add;
    if a.mass + b.mass > 0.0 {
      CombinedFlange(a, b, Combine(a, b));
    } else {
      ZeroAddsNothing(ZERO3, ZERO33);
    }
  }

  // ----- Combining is a commutative monoid on bodies with mass -----

  /** A body without mass has no centre and no inertia of its own. */
  predicate Canonical(b: Body) {
    b.mass > 0.0 || b == EMPTY
  }

  lemma CombinedIsCanonical(a: Body, b: Body)
    requires a.mass >= 0.0 && b.mass >= 0.0
    ensures Canonical(Combine(a, b)) && Combine(a, b).mass >= 0.0
  {
    hide FlangeInertia, MassiveInertia, Mat3.Add, Mat3.Scale, SkewSquared, WeightedMean;
  }

  lemma CancelFactor(x: real, y: real, k: real)
    requires k != 0.0 && x * k == y * k
    ensures x == y
  {
  }

  lemma CancelScale(u: Vec3, v: Vec3, k: real)
    requires k != 0.0 && u.Scale(k) == v.Scale(k)
    ensures u == v
  {
    CancelFactor(u.x, v.x, k);
    CancelFactor(u.y, v.y, k);
    CancelFactor(u.z, v.z, k);
  }

  lemma CancelSub(a: Mat3, b: Mat3, c: Mat3)
    requires a.Sub(c) == b.Sub(c)
    ensures a == b
  {
    assert a.Sub(c).Add(c) == a && b.Sub(c).Add(c) == b;
  }

  /** A body is determined by its moments. */
  lemma MomentsDetermineBody(a: Body, b: Body)
    requires Canonical(a) && Canonical(b) && MomentsOf(a) == MomentsOf(b)
    ensures a == b
  {
    if a.mass > 0.0 {
      hide Vec3.Scale, SkewSquared, Mat3.Scale, Mat3.Sub;
      CancelScale(a.center, b.center, a.mass);
      CancelSub(a.inertia, b.inertia, SkewSquared(a.center).Scale(a.mass));
    }
  }

  lemma MomentsCommute(a: Moments, b: Moments)
    ensures a.Add(b) == b.Add(a)
  {
  }

  lemma MomentsAssociate(a: Moments, b: Moments, c: Moments)
    ensures a.Add(b).Add(c) == a.Add(b.Add(c))
  {
  }

  lemma CombineCommutes(a: Body, b: Body)
    requires a.mass >= 0.0 && b.mass >= 0.0
    ensures Combine(a, b) == Combine(b, a)
  {
    hide MomentsOf, Combine, Canonical, Moments.Add;
    CombineAddsMoments(a, b);
    CombineAddsMoments(b, a);
    MomentsCommute(MomentsOf(a), MomentsOf(b));
    CombinedIsCanonical(a, b);
    CombinedIsCanonical(b, a);
    MomentsDetermineBody(Combine(a, b), Combine(b, a));
  }

  lemma CombineAssociates(a: Body, b: Body, c: Body)
    requires a.mass >= 0.0 && b.mass >= 0.0 && c.mass >= 0.0
    ensures Combine(Combine(a, b), c) == Combine(a, Combine(b, c))
  {
    hide MomentsOf, Combine, Canonical, Moments.Add;
    CombinedIsCanonical(a, b);
    CombinedIsCanonical(b, c);
    CombineAddsMoments(a, b);
    CombineAddsMoments(b, c);
    CombineAddsMoments(Combine(a, b), c);
    CombineAddsMoments(a, Combine(b, c));
    MomentsAssociate(MomentsOf(a), MomentsOf(b), MomentsOf(c));
    CombinedIsCanonical(Combine(a, b), c);
    CombinedIsCanonical(a, Combine(b, c));
    MomentsDetermineBody(Combine(Combine(a, b), c), Combine(a, Combine(b, c)));
  }

  /** A tool without mass changes nothing, whatever its centre and inertia. */
  lemma MasslessIsNeutral(a: Body, b: Body)
    requires a.mass == 0.0 && Canonical(b)
    ensures Combine(a, b) == b
  {
    CombineAddsMoments(a, b);
    CombinedIsCanonical(a, b);
    hide Combine, FlangeInertia, Vec3.Scale, Vec3.Add, Mat3.Add;
    ZeroAddsNothing(MomentsOf(b).first, MomentsOf(b).second);
    MomentsCommute(MomentsOf(a), MomentsOf(b));
    MomentsDetermineBody(Combine(a, b), b);
  }

  function CombineAll(bodies: seq<Body>): Body {
    if bodies == [] then EMPTY else Combine(bodies[0], CombineAll(bodies[1..]))
  }

  predicate NonnegativeMasses(bodies: seq<Body>) {
    forall b :: b in bodies ==> b.mass >= 0.0
  }

  lemma {:induction false} CombineAllIsCanonical(bodies: seq<Body>)
    requires NonnegativeMasses(bodies)
    ensures Canonical(CombineAll(bodies)) && CombineAll(bodies).mass >= 0.0
  {
    hide Combine;
    if bodies != [] {
      CombineAllIsCanonical(bodies[1..]);
      CombinedIsCanonical(bodies[0], CombineAll(bodies[1..]));
    }
  }

  /** Any body can be combined first. */
  lemma {:induction false} CombineAllFrom(bodies: seq<Body>, i: nat)
    requires i < |bodies| && NonnegativeMasses(bodies)
    ensures CombineAll(bodies) == Combine(bodies[i], CombineAll(bodies[..i] + bodies[i + 1..]))
  {
    hide Combine, Canonical;
    var first, rest := bodies[0], bodies[1..];
    if i == 0 {
      assert bodies[..i] + bodies[i + 1..] == rest;
    } else {
      var others := rest[..i - 1] + rest[i..];
      assert bodies[..i] + bodies[i + 1..] == [first] + others;
      CombineAllFrom(rest, i - 1);
      CombineAllIsCanonical(others);
      CombineAssociates(first, bodies[i], CombineAll(others));
      CombineAssociates(bodies[i], first, CombineAll(others));
      CombineCommutes(first, bodies[i]);
    }
  }

  lemma WithoutOne(s: seq<Body>, i: nat)
    requires i < |s|
    ensures multiset(s[..i] + s[i + 1..]) == multiset(s) - multiset{s[i]}
  {
    assert s == s[..i] + [s[i]] + s[i + 1..];
  }

  /** A permutation of s holds the first body of s; without it, it is a permutation of the rest. */
  lemma FindFirst(s: seq<Body>, t: seq<Body>) returns (i: nat)
    requires multiset(s) == multiset(t) && s != []
    ensures i < |t| && t[i] == s[0]
    ensures multiset(s[1..]) == multiset(t[..i] + t[i + 1..])
  {
    i := IndexOf(s[0], t) by {
      assert s[0] in multiset(t);
    }
    WithoutOne(t, i);
    WithoutOne(s, 0);
    assert s[..0] + s[1..] == s[1..];
  }

  lemma IndexOf(b: Body, t: seq<Body>) returns (i: nat)
    requires b in t
    ensures i < |t| && t[i] == b
  {
    i :| i < |t| && t[i] == b;
  }

  lemma PermutedMasses(s: seq<Body>, t: seq<Body>)
    requires multiset(s) == multiset(t) && NonnegativeMasses(s)
    ensures NonnegativeMasses(t)
  {
    forall b | b in t
      ensures b.mass >= 0.0
    {
      assert b in multiset(t);
    }
  }

  /** The order in which several tools are combined does not matter. */
  lemma {:induction false} CombineAllIsOrderFree(s: seq<Body>, t: seq<Body>)
    requires multiset(s) == multiset(t) && NonnegativeMasses(s)
    ensures CombineAll(s) == CombineAll(t)
  {
    hide Combine;
    if s == [] {
      assert |multiset(t)| == 0;
    } else {
      var i := FindFirst(s, t);
      PermutedMasses(s, t);
      CombineAllIsOrderFree(s[1..], t[..i] + t[i + 1..]);
      CombineAllFrom(t, i);
    }
  }

  // ----- The combined inertia in terms of the distance of the two centres -----

  /** The mass that resists moving two bodies apart. */
  function ReducedMass(m: real, m': real): real
    requires m + m' > 0.0
  {
    m * m' / (m + m')
  }

  function ReducedInertia(a: Body, b: Body): Mat3
    requires a.mass + b.mass > 0.0
  {
    MassiveInertia(a.mass, a.inertia)
    .Add(MassiveInertia(b.mass, b.inertia))
    .Sub(SkewSquared(a.center.Sub(b.center)).Scale(ReducedMass(a.mass, b.mass)))
  }

  /** A product of inertia. */
  function Deviation(m: real, p: real, q: real): real {
    m * Product(p, q)
  }

  /** Parallel axes for one product of coordinates: only the differences remain. */
  lemma ReducedProduct(m: real, p: real, q: real, m': real, p': real, q': real,
                       total: real, pc: real, qc: real, reduced: real)
    requires total > 0.0 && total == m + m' && reduced * total == m * m'
    requires pc * total == p * m + p' * m' && qc * total == q * m + q' * m'
    ensures Deviation(m, p, q) + Deviation(m', p', q') - Deviation(total, pc, qc) == Deviation(reduced, p - p', q - q')
  {
    var left, right := m * (p * q) + m' * (p' * q') - total * (pc * qc), reduced * ((p - p') * (q - q'));
    assert total * (pc * qc) * total == (pc * total) * (qc * total);
    assert right * total == (reduced * total) * ((p - p') * (q - q'));
    assert left * total == (m * (p * q) + m' * (p' * q')) * (m + m') - (p * m + p' * m') * (q * m + q' * m');
    CancelFactor(left, right, total);
  }

  lemma ReducedEntry(a: Body, b: Body, c: Body, p: real, q: real, p': real, q': real, pc: real, qc: real, dp: real,
                     dq: real)
    requires a.mass + b.mass > 0.0 && c.mass == a.mass + b.mass && dp == p - p' && dq == q - q'
    requires pc == WeightedMean(a.mass, p, b.mass, p') && qc == WeightedMean(a.mass, q, b.mass, q')
    ensures Deviation(a.mass, p, q) + Deviation(b.mass, p', q') - Deviation(c.mass, pc, qc)
         == Deviation(ReducedMass(a.mass, b.mass), dp, dq)
  {
    MeanTimesMass(a.mass, p, b.mass, p');
    MeanTimesMass(a.mass, q, b.mass, q');
    ReducedMassTimesTotal(a.mass, b.mass);
    hide WeightedMean, ReducedMass, Deviation;
    ReducedProduct(a.mass, p, q, b.mass, p', q', c.mass, pc, qc, ReducedMass(a.mass, b.mass));
  }

  lemma ReducedMassTimesTotal(m: real, m': real)
    requires m + m' > 0.0
    ensures ReducedMass(m, m') * (m + m') == m * m'
    ensures m >= 0.0 && m' >= 0.0 ==> ReducedMass(m, m') >= 0.0
  {
    assert m * m' / (m + m') * (m + m') == m * m';
    if m >= 0.0 && m' >= 0.0 {
      ProductNonnegative(m, m');
    }
  }

  lemma ScaledParts(k: real, xx: real, yy: real, zz: real, xy: real, xz: real, yz: real)
    ensures Mat3(-yy - zz, xy, xz, xy, -xx - zz, yz, xz, yz, -xx - yy).Scale(k)
         == Mat3(-(k * yy) - k * zz, k * xy, k * xz, k * xy, -(k * xx) - k * zz, k * yz, k * xz, k * yz, -(k * xx) - k * yy)
  {
  }

  lemma ScaledSquare(v: Vec3, k: real)
    ensures SkewSquared(v).Scale(k)
         == Mat3(-Deviation(k, v.y, v.y) - Deviation(k, v.z, v.z), Deviation(k, v.x, v.y), Deviation(k, v.x, v.z),
                 Deviation(k, v.x, v.y), -Deviation(k, v.x, v.x) - Deviation(k, v.z, v.z), Deviation(k, v.y, v.z),
                 Deviation(k, v.x, v.z), Deviation(k, v.y, v.z), -Deviation(k, v.x, v.x) - Deviation(k, v.y, v.y))
  {
    hide Skew, Mat3.Mul, Mat3.Scale, Product;
    ScaledParts(k, Product(v.x, v.x), Product(v.y, v.y), Product(v.z, v.z),
                Product(v.x, v.y), Product(v.x, v.z), Product(v.y, v.z));
  }

  lemma ReducedSquares(a: Body, b: Body, c: Body)
    requires a.mass + b.mass > 0.0 && c.mass == a.mass + b.mass
    requires c.center == CombinedCenter(a.mass, a.center, b.mass, b.center)
    ensures SkewSquared(a.center).Scale(a.mass).Add(SkewSquared(b.center).Scale(b.mass))
            .Sub(SkewSquared(c.center).Scale(c.mass))
         == SkewSquared(a.center.Sub(b.center)).Scale(ReducedMass(a.mass, b.mass))
  {
    var u, v, w := a.center, b.center, c.center;
    var d := u.Sub(v);
    ReducedEntry(a, b, c, u.x, u.x, v.x, v.x, w.x, w.x, d.x, d.x);
    ReducedEntry(a, b, c, u.y, u.y, v.y, v.y, w.y, w.y, d.y, d.y);
    ReducedEntry(a, b, c, u.z, u.z, v.z, v.z, w.z, w.z, d.z, d.z);
    ReducedEntry(a, b, c, u.x, u.y, v.x, v.y, w.x, w.y, d.x, d.y);
    ReducedEntry(a, b, c, u.x, u.z, v.x, v.z, w.x, w.z, d.x, d.z);
    ReducedEntry(a, b, c, u.y, u.z, v.y, v.z, w.y, w.z, d.y, d.z);
    ScaledSquare(u, a.mass);
    ScaledSquare(v, b.mass);
    ScaledSquare(w, c.mass);
    ScaledSquare(d, ReducedMass(a.mass, b.mass));
    hide WeightedMean, ReducedMass, SkewSquared, Mat3.Scale, Deviation;
  }

  lemma Regroup(a: Mat3, b: Mat3, x: Mat3, y: Mat3, z: Mat3)
    ensures a.Sub(x).Add(b.Sub(y)).Add(z) == a.Add(b).Sub(x.Add(y).Sub(z))
  {
  }

  /** The inertia about the combined centre does not depend on where the flange is, only on the distance of the centres. */
  lemma CombinedInertiaIsReduced(a: Body, b: Body)
    requires a.mass + b.mass > 0.0
    ensures Combine(a, b).inertia == ReducedInertia(a, b)
  {
    var c := Combine(a, b);
    ReducedSquares(a, b, c);
    hide CombinedCenter, ReducedMass, MassiveInertia, SkewSquared, Mat3.Scale, Mat3.Add, Mat3.Sub, Vec3.Sub;
    Regroup(MassiveInertia(a.mass, a.inertia), MassiveInertia(b.mass, b.inertia),
            SkewSquared(a.center).Scale(a.mass), SkewSquared(b.center).Scale(b.mass), SkewSquared(c.center).Scale(c.mass));
  }

  /** Moving both centres by the same offset leaves the combined inertia as it is. */
  lemma InertiaIsShiftInvariant(a: Body, b: Body, offset: Vec3)
    requires a.mass >= 0.0 && b.mass >= 0.0
    ensures Combine(a.(center := a.center.Add(offset)), b.(center := b.center.Add(offset))).inertia == Combine(a, b).inertia
  {
    hide Combine, CombinedCenter, CombinedInertia, ReducedMass, SkewSquared, FlangeInertia,
         Mat3.Scale, Mat3.Add, Mat3.Sub, Vec3.Add, Vec3.Sub;
    var a', b' := a.(center := a.center.Add(offset)), b.(center := b.center.Add(offset));
    DifferenceOfShifted(a.center, b.center, offset);
    if a.mass + b.mass > 0.0 {
      CombinedInertiaIsReduced(a, b);
      CombinedInertiaIsReduced(a', b');
    } else {
      NothingCombined(a, b);
      NothingCombined(a', b');
    }
  }

  lemma DifferenceOfShifted(u: Vec3, v: Vec3, offset: Vec3)
    ensures u.Add(offset).Sub(v.Add(offset)) == u.Sub(v)
  {
  }

  lemma NothingCombined(a: Body, b: Body)
    requires a.mass + b.mass == 0.0
    ensures Combine(a, b).inertia == ZERO33
  {
    hide CombinedCenter, FlangeInertia, MassiveInertia, SkewSquared, Mat3.Add, Mat3.Scale;
  }

  // ----- The combined inertia stays an inertia -----

  ghost predicate PositiveSemidefinite(m: Mat3) {
    forall x: Vec3 :: x.Dot(m.Apply(x)) >= 0.0
  }

  ghost predicate Physical(m: Mat3) {
    m.Symmetric() && PositiveSemidefinite(m)
  }

  lemma SquareTurnsTwice(d: Vec3, x: Vec3)
    ensures x.Dot(SkewSquared(d).Apply(x)) == -d.Cross(x).NormSquared()
  {
    hide Mat3.Mul, Mat3.Apply, Vec3.Dot, Vec3.Cross, Skew;
    ProductApplies(Skew(d), Skew(d), x);
    SkewIsCross(d, x);
    SkewIsCross(d, d.Cross(x));
    TripleProduct(d, x, d.Cross(x));
  }

  lemma FormOfReduced(i: Mat3, j: Mat3, s: Mat3, k: real, x: Vec3)
    ensures x.Dot(i.Add(j).Sub(s.Scale(k)).Apply(x))
         == x.Dot(i.Apply(x)) + x.Dot(j.Apply(x)) - x.Dot(s.Apply(x)) * k
  {
    hide Vec3.Dot, Mat3.Apply, Mat3.Add, Mat3.Sub, Mat3.Scale, Vec3.Add, Vec3.Scale;
    var sum, scaled := i.Add(j), s.Scale(k);
    var rest := sum.Sub(scaled);
    AddThenSubBack(sum, scaled);
    SumApplies(i, j, x);
    SumApplies(rest, scaled, x);
    ScaledApplies(s, k, x);
    DotDistributes(x, i.Apply(x), j.Apply(x));
    DotDistributes(x, rest.Apply(x), scaled.Apply(x));
    DotScales(x, s.Apply(x), k);
  }

  lemma AddThenSubBack(a: Mat3, b: Mat3)
    ensures a.Sub(b).Add(b) == a
  {
  }

  lemma ReducedInertiaIsPhysical(a: Body, b: Body)
    requires a.mass >= 0.0 && b.mass >= 0.0 && a.mass + b.mass > 0.0
    requires Physical(MassiveInertia(a.mass, a.inertia)) && Physical(MassiveInertia(b.mass, b.inertia))
    ensures Physical(ReducedInertia(a, b))
  {
    var d, k := a.center.Sub(b.center), ReducedMass(a.mass, b.mass);
    var i, j := MassiveInertia(a.mass, a.inertia), MassiveInertia(b.mass, b.inertia);
    ReducedMassTimesTotal(a.mass, b.mass);
    SymmetricCombination(i, j, SkewSquared(d), k);
    hide ReducedMass, MassiveInertia, Mat3.Add, Mat3.Sub, Mat3.Scale, Mat3.Apply, Mat3.Symmetric, Vec3.Sub, Vec3.Dot,
         Vec3.NormSquared, Vec3.Cross, SkewSquared;
    forall x: Vec3
      ensures x.Dot(ReducedInertia(a, b).Apply(x)) >= 0.0
    {
      FormOfReduced(i, j, SkewSquared(d), k, x);
      SquareTurnsTwice(d, x);
      NormSquaredNonnegative(d.Cross(x));
      ProductNonnegative(d.Cross(x).NormSquared(), k);
    }
  }

  lemma SymmetricCombination(i: Mat3, j: Mat3, s: Mat3, k: real)
    requires i.Symmetric() && j.Symmetric() && s.Symmetric()
    ensures i.Add(j).Sub(s.Scale(k)).Symmetric()
  {
  }

  /** Combining keeps the inertia symmetric and positive semidefinite. */
  lemma CombinedInertiaIsPhysical(a: Body, b: Body)
    requires a.mass >= 0.0 && b.mass >= 0.0
    requires Physical(MassiveInertia(a.mass, a.inertia)) && Physical(MassiveInertia(b.mass, b.inertia))
    ensures Physical(Combine(a, b).inertia)
  {
    hide CombinedCenter, FlangeInertia, MassiveInertia, Physical, ReducedInertia;
    if a.mass + b.mass > 0.0 {
      CombinedInertiaIsReduced(a, b);
      ReducedInertiaIsPhysical(a, b);
    } else {
      ZeroIsPhysical(ZERO33);
    }
  }

  lemma ZeroIsPhysical(m: Mat3)
    requires m == ZERO33
    ensures Physical(m)
  {
    forall x: Vec3
      ensures x.Dot(m.Apply(x)) >= 0.0
    {
      ZeroForm(m, x);
    }
  }

  lemma ZeroForm(m: Mat3, x: Vec3)
    requires m == ZERO33
    ensures x.Dot(m.Apply(x)) == 0.0
  {
  }
}
