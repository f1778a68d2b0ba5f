/** The twist and pose limiters of src/rate_limiting.cpp. */
module PoseRateLimiting {
  import opened RealMath
  import opened RateLimiting
  import opened Linear3
  import opened VectorRateLimiting
  import opened JointLimits

  /** Rodrigues' formula, as the pose limiter builds it from a unit axis. */
  function Rodrigues(axis: Vec3, sine: real, cosine: real): Mat3 {
    var skew := Skew(axis);
    IDENTITY3.Add(skew.Scale(sine)).Add(skew.Mul(skew).Scale(1.0 - cosine))
  }

  /** The same rotation, as it acts on a vector. */
  ghost function Rotated(w: Vec3, s: real, c: real, v: Vec3): Vec3 {
    v.Add(w.Cross(v).Scale(s)).Add(w.Cross(w.Cross(v)).Scale(1.0 - c))
  }

  lemma RodriguesRotates(w: Vec3, s: real, c: real, v: Vec3)
    ensures Rodrigues(w, s, c).Apply(v) == Rotated(w, s, c, v)
  {
    hide Mat3.Apply, Mat3.Mul, Mat3.Add, Mat3.Scale, Skew, Vec3.Cross, Vec3.Add, Vec3.Scale;
    var skew := Skew(w);
    SumApplies(IDENTITY3.Add(skew.Scale(s)), skew.Mul(skew).Scale(1.0 - c), v);
    SumApplies(IDENTITY3, skew.Scale(s), v);
    IdentityApplies(v);
    ScaledApplies(skew, s, v);
    ScaledApplies(skew.Mul(skew), 1.0 - c, v);
    ProductApplies(skew, skew, v);
    SkewIsCross(w, v);
    SkewIsCross(w, w.Cross(v));
  }

  /** Rotating two vectors about a unit axis keeps their scalar product. */
  lemma RotationKeepsDot(w: Vec3, s: real, c: real, u: Vec3, v: Vec3)
    requires w.NormSquared() == 1.0 && s * s + c * c == 1.0
    ensures Rotated(w, s, c, u).Dot(Rotated(w, s, c, v)) == u.Dot(v)
  {
    hide Vec3.Dot, Vec3.Cross, Vec3.Add, Vec3.Scale, Vec3.NormSquared;
    var a, a' := w.Cross(u), w.Cross(v);
    var b, b' := w.Cross(a), w.Cross(a');
    var d := 1.0 - c;
    DotOfSums(u, a, b, v, a', b', s, d);
    TripleProduct(w, u, v);
    TripleProduct(w, u, a');
    TripleProduct(w, a, a');
    TripleProduct(w, a, v);
    CrossIsPerpendicular(w, u);
    BinetCauchy(w, a, a');
    DotCommutes(w, a);
    TurningCancels(s, c, d, u.Dot(a'), a.Dot(a'), a.Dot(b'));
  }

  lemma DotOfSums(u: Vec3, a: Vec3, b: Vec3, v: Vec3, a': Vec3, b': Vec3, s: real, d: real)
    ensures u.Add(a.Scale(s)).Add(b.Scale(d)).Dot(v.Add(a'.Scale(s)).Add(b'.Scale(d)))
         == u.Dot(v) + s * (u.Dot(a') + a.Dot(v)) + d * (u.Dot(b') + b.Dot(v))
            + s * s * a.Dot(a') + s * d * (a.Dot(b') + b.Dot(a')) + d * d * b.Dot(b')
  {
    hide Vec3.Dot, Vec3.Add, Vec3.Scale;
    var right := v.Add(a'.Scale(s)).Add(b'.Scale(d));
    DotDistributes(right, u.Add(a.Scale(s)), b.Scale(d));
    DotDistributes(right, u, a.Scale(s));
    DotScales(a, right, s);
    DotScales(b, right, d);
    DotOfSum(u, v, a', b', s, d);
    DotOfSum(a, v, a', b', s, d);
    DotOfSum(b, v, a', b', s, d);
    Expand(s, d, a.Dot(v), a.Dot(a'), a.Dot(b'), b.Dot(v), b.Dot(a'), b.Dot(b'));
  }

  lemma DotOfSum(u: Vec3, v: Vec3, a: Vec3, b: Vec3, s: real, d: real)
    ensures u.Dot(v.Add(a.Scale(s)).Add(b.Scale(d))) == u.Dot(v) + s * u.Dot(a) + d * u.Dot(b)
  {
    hide Vec3.Dot, Vec3.Add, Vec3.Scale;
    DotDistributes(u, v.Add(a.Scale(s)), b.Scale(d));
    DotDistributes(u, v, a.Scale(s));
    DotScales(u, a, s);
    DotScales(u, b, d);
  }

  lemma Expand(s: real, d: real, a0: real, a1: real, a2: real, b0: real, b1: real, b2: real)
    ensures s * (a0 + s * a1 + d * a2) + d * (b0 + s * b1 + d * b2)
         == s * a0 + d * b0 + s * s * a1 + s * d * (a2 + b1) + d * d * b2
  {
  }

  lemma TurningCancels(s: real, c: real, d: real, p: real, q: real, r: real)
    requires s * s + c * c == 1.0 && d == 1.0 - c
    ensures s * (p + -p) + d * (-q + -q) + s * s * q + s * d * (r + -r) + d * d * q == 0.0
  {
  }

  lemma RodriguesTimesTranspose(w: Vec3, s: real, c: real)
    requires w.NormSquared() == 1.0 && s * s + c * c == 1.0
    ensures Rodrigues(w, s, c).Transpose().Mul(Rodrigues(w, s, c)) == IDENTITY3
  {
    hide Vec3.NormSquared, Rodrigues, Rotated, Vec3.Dot, Mat3.Apply;
    var m := Rodrigues(w, s, c);
    var ex, ey, ez := Vec3(1.0, 0.0, 0.0), Vec3(0.0, 1.0, 0.0), Vec3(0.0, 0.0, 1.0);
    BasisIsOrthonormal(ex, ey, ez);
    ColumnsAreImages(m);
    RodriguesRotates(w, s, c, ex);
    RodriguesRotates(w, s, c, ey);
    RodriguesRotates(w, s, c, ez);
    RotationKeepsDot(w, s, c, ex, ex);
    RotationKeepsDot(w, s, c, ey, ey);
    RotationKeepsDot(w, s, c, ez, ez);
    RotationKeepsDot(w, s, c, ex, ey);
    RotationKeepsDot(w, s, c, ey, ez);
    RotationKeepsDot(w, s, c, ex, ez);
    OrthonormalColumns(m);
  }

  lemma BasisIsOrthonormal(ex: Vec3, ey: Vec3, ez: Vec3)
    requires ex == Vec3(1.0, 0.0, 0.0) && ey == Vec3(0.0, 1.0, 0.0) && ez == Vec3(0.0, 0.0, 1.0)
    ensures ex.Dot(ex) == ey.Dot(ey) == ez.Dot(ez) == 1.0 && ex.Dot(ey) == ey.Dot(ez) == ex.Dot(ez) == 0.0
  {
    hide Vec3.Dot;
    DotWithBasis(ex);
    DotWithBasis(ey);
    DotWithBasis(ez);
  }

  lemma DotWithBasis(v: Vec3)
    ensures Vec3(1.0, 0.0, 0.0).Dot(v) == v.x
    ensures Vec3(0.0, 1.0, 0.0).Dot(v) == v.y
    ensures Vec3(0.0, 0.0, 1.0).Dot(v) == v.z
  {
  }

  lemma SkewSquare(v: Vec3)
    ensures Skew(v).Mul(Skew(v)).Symmetric()
    ensures Skew(v).Mul(Skew(v)).Trace() == -2.0 * v.NormSquared()
  {
  }

  lemma RodriguesTransposed(w: Vec3, s: real, c: real)
    ensures Rodrigues(w, s, c).Transpose() == Rodrigues(w, -s, c)
  {
    SkewSquare(w);
    var q, skew := Skew(w).Mul(Skew(w)), Skew(w);
    hide Mat3.Mul;
    SkewTransposed(w, s);
    hide Skew;
    TransposedSum(IDENTITY3.Add(skew.Scale(s)), q.Scale(1.0 - c));
    TransposedSum(IDENTITY3, skew.Scale(s));
    SymmetricScaled(q, 1.0 - c);
    hide Mat3.Scale, Mat3.Add;
  }

  lemma TransposedSum(a: Mat3, b: Mat3)
    ensures a.Add(b).Transpose() == a.Transpose().Add(b.Transpose())
  {
  }

  lemma SymmetricScaled(q: Mat3, k: real)
    requires q.Symmetric()
    ensures q.Scale(k).Transpose() == q.Scale(k)
  {
  }

  lemma SkewTransposed(w: Vec3, s: real)
    ensures Skew(w).Scale(s).Transpose() == Skew(w).Scale(-s)
  {
  }

  /** The entries of the matrix, with t for 1 - cos. */
  lemma RodriguesEntries(w: Vec3, s: real, c: real, t: real)
    requires w.NormSquared() == 1.0 && t == 1.0 - c
    ensures Rodrigues(w, s, c) == Mat3(Diagonal(w.x, c, t), Beside(w.x, w.y, -w.z, s, t), Beside(w.x, w.z, w.y, s, t),
                                       Beside(w.x, w.y, w.z, s, t), Diagonal(w.y, c, t), Beside(w.y, w.z, -w.x, s, t),
                                       Beside(w.x, w.z, -w.y, s, t), Beside(w.y, w.z, w.x, s, t), Diagonal(w.z, c, t))
  {
    var q := Skew(w).Mul(Skew(w));
    SkewSquareEntries(w);
    RodriguesSum(w, s, c, q, t);
    OnDiagonal(w.x, q.xx, s, c, t);
    OnDiagonal(w.y, q.yy, s, c, t);
    OnDiagonal(w.z, q.zz, s, c, t);
    OffDiagonal(w.x, w.y, w.z, q.xy, s, t);
    OffDiagonal(w.x, w.z, w.y, q.xz, s, t);
    OffDiagonal(w.y, w.z, w.x, q.yz, s, t);
    hide Vec3.NormSquared, Mat3.Mul, Skew, Rodrigues, Diagonal, Beside, Entry;
  }

  lemma RodriguesSum(w: Vec3, s: real, c: real, q: Mat3, t: real)
    requires q == Skew(w).Mul(Skew(w)) && t == 1.0 - c
    ensures Rodrigues(w, s, c)
         == Mat3(Entry(1.0, 0.0, s, q.xx, t), Entry(0.0, -w.z, s, q.xy, t), Entry(0.0, w.y, s, q.xz, t),
                 Entry(0.0, w.z, s, q.yx, t), Entry(1.0, 0.0, s, q.yy, t), Entry(0.0, -w.x, s, q.yz, t),
                 Entry(0.0, -w.y, s, q.zx, t), Entry(0.0, w.x, s, q.zy, t), Entry(1.0, 0.0, s, q.zz, t))
  {
    SumEntries(Skew(w), s, q, t);
    hide Mat3.Mul, Mat3.Add, Mat3.Scale, Entry;
  }

  function Entry(i: real, a: real, s: real, b: real, t: real): real {
    i + a * s + b * t
  }

  lemma SumEntries(a: Mat3, s: real, b: Mat3, t: real)
    ensures IDENTITY3.Add(a.Scale(s)).Add(b.Scale(t))
         == Mat3(Entry(1.0, a.xx, s, b.xx, t), Entry(0.0, a.xy, s, b.xy, t), Entry(0.0, a.xz, s, b.xz, t),
                 Entry(0.0, a.yx, s, b.yx, t), Entry(1.0, a.yy, s, b.yy, t), Entry(0.0, a.yz, s, b.yz, t),
                 Entry(0.0, a.zx, s, b.zx, t), Entry(0.0, a.zy, s, b.zy, t), Entry(1.0, a.zz, s, b.zz, t))
  {
    SumRow(IDENTITY3.RowX(), a.RowX(), s, b.RowX(), t);
    SumRow(IDENTITY3.RowY(), a.RowY(), s, b.RowY(), t);
    SumRow(IDENTITY3.RowZ(), a.RowZ(), s, b.RowZ(), t);
    hide Entry, Vec3.Add, Vec3.Scale;
  }

  lemma SumRow(i: Vec3, a: Vec3, s: real, b: Vec3, t: real)
    ensures i.Add(a.Scale(s)).Add(b.Scale(t))
         == Vec3(Entry(i.x, a.x, s, b.x, t), Entry(i.y, a.y, s, b.y, t), Entry(i.z, a.z, s, b.z, t))
  {
  }

  lemma OnDiagonal(x: real, d: real, s: real, c: real, t: real)
    requires t == 1.0 - c && d == x * x - 1.0
    ensures Entry(1.0, 0.0, s, d, t) == Diagonal(x, c, t)
  {
  }

  lemma OffDiagonal(x: real, y: real, z: real, d: real, s: real, t: real)
    requires d == x * y
    ensures Entry(0.0, z, s, d, t) == Beside(x, y, z, s, t)
    ensures Entry(0.0, -z, s, d, t) == Beside(x, y, -z, s, t)
  {
  }

  lemma SkewSquareEntries(w: Vec3)
    requires w.NormSquared() == 1.0
    ensures Skew(w).Mul(Skew(w)) == Mat3(w.x * w.x - 1.0, w.x * w.y, w.x * w.z,
                                         w.x * w.y, w.y * w.y - 1.0, w.y * w.z,
                                         w.x * w.z, w.y * w.z, w.z * w.z - 1.0)
  {
  }

  function Diagonal(x: real, c: real, t: real): real {
    c + t * (x * x)
  }

  function Beside(x: real, y: real, z: real, s: real, t: real): real {
    s * z + t * (x * y)
  }

  /** Rodrigues' matrix about a unit axis is its own matrix of cofactors. */
  lemma RodriguesOwnCofactor(w: Vec3, s: real, c: real)
    requires w.NormSquared() == 1.0 && s * s + c * c == 1.0
    ensures Rodrigues(w, s, c).Cofactor() == Rodrigues(w, s, c)
  {
    var t := 1.0 - c;
    RodriguesEntries(w, s, c, t);
    var m, x, y, z := Rodrigues(w, s, c), w.x, w.y, w.z;
    CrossIsMinors(m.RowY(), m.RowZ());
    CrossIsMinors(m.RowZ(), m.RowX());
    CrossIsMinors(m.RowX(), m.RowY());
    CofactorsAbout(x, y, z, s, c, t);
    CofactorsAbout(y, z, x, s, c, t);
    CofactorsAbout(z, x, y, s, c, t);
    forall x, y, z
      ensures Beside(x, y, z, s, t) == Beside(y, x, z, s, t)
    {
      BesideCommutes(x, y, z, s, t);
    }
    hide Rodrigues, Vec3.Cross, Minor, Diagonal, Beside;
  }

  lemma BesideCommutes(x: real, y: real, z: real, s: real, t: real)
    ensures Beside(x, y, z, s, t) == Beside(y, x, z, s, t)
  {
  }

  /** The first row of cofactors. The other two are the same for the axis read in cyclic order. */
  lemma CofactorsAbout(x: real, y: real, z: real, s: real, c: real, t: real)
    requires x * x + y * y + z * z == 1.0 && s * s + c * c == 1.0 && t == 1.0 - c
    ensures Minor(Diagonal(y, c, t), Beside(y, z, -x, s, t), Beside(y, z, x, s, t), Diagonal(z, c, t))
         == Diagonal(x, c, t)
    ensures Minor(Beside(y, z, -x, s, t), Beside(x, y, z, s, t), Diagonal(z, c, t), Beside(x, z, -y, s, t))
         == Beside(x, y, -z, s, t)
    ensures Minor(Beside(x, y, z, s, t), Diagonal(y, c, t), Beside(x, z, -y, s, t), Beside(y, z, x, s, t))
         == Beside(x, z, y, s, t)
  {
    CofactorOnDiagonal(x, y, z, s, c, t);
    CofactorBefore(x, y, z, s, c, t);
    CofactorAfter(x, y, z, s, c, t);
    hide Minor, Diagonal, Beside;
  }

  lemma CofactorOnDiagonal(x: real, y: real, z: real, s: real, c: real, t: real)
    requires x * x + y * y + z * z == 1.0 && s * s + c * c == 1.0 && t == 1.0 - c
    ensures Minor(Diagonal(y, c, t), Beside(y, z, -x, s, t), Beside(y, z, x, s, t), Diagonal(z, c, t))
         == Diagonal(x, c, t)
  {
    ExpandDiagonal(s, c, t, x, x * x, y * y, z * z);
    MinorOnDiagonal(x, y, z, s, c, t);
    hide Minor, Beside, Diagonal, DiagonalSum;
  }

  lemma CofactorBefore(x: real, y: real, z: real, s: real, c: real, t: real)
    requires x * x + y * y + z * z == 1.0 && s * s + c * c == 1.0 && t == 1.0 - c
    ensures Minor(Beside(y, z, -x, s, t), Beside(x, y, z, s, t), Diagonal(z, c, t), Beside(x, z, -y, s, t))
         == Beside(x, y, -z, s, t)
  {
    ExpandBeside(s, c, t, z, x * y, x * x, y * y, z * z);
    MinorBefore(x, y, z, s, c, t);
    hide Minor, Diagonal, BesideSum;
  }

  lemma CofactorAfter(x: real, y: real, z: real, s: real, c: real, t: real)
    requires x * x + y * y + z * z == 1.0 && s * s + c * c == 1.0 && t == 1.0 - c
    ensures Minor(Beside(x, y, z, s, t), Diagonal(y, c, t), Beside(x, z, -y, s, t), Beside(y, z, x, s, t))
         == Beside(x, z, y, s, t)
  {
    ExpandBeside(-s, c, t, y, x * z, x * x, z * z, y * y);
    MinorAfter(x, y, z, s, c, t);
    hide Minor, Diagonal, BesideSum;
  }

  function DiagonalSum(s: real, c: real, t: real, xx: real, yy: real, zz: real): real {
    c * c + c * t * (yy + zz) + s * s * xx
  }

  function BesideSum(s: real, c: real, t: real, z: real, xy: real, xx: real, yy: real, zz: real): real {
    s * s * xy - s * t * (z * (xx + yy + zz)) - s * c * z - t * c * xy
  }

  lemma ExpandDiagonal(s: real, c: real, t: real, x: real, xx: real, yy: real, zz: real)
    requires xx == x * x && xx + yy + zz == 1.0 && s * s + c * c == 1.0 && t == 1.0 - c
    ensures DiagonalSum(s, c, t, xx, yy, zz) == Diagonal(x, c, t)
  {
    assert s * s * xx == (1.0 - c * c) * xx;
    assert c * t * (yy + zz) == c * t * (1.0 - xx);
  }

  lemma ExpandBeside(s: real, c: real, t: real, z: real, xy: real, xx: real, yy: real, zz: real)
    requires xx + yy + zz == 1.0 && s * s + c * c == 1.0 && t == 1.0 - c
    ensures BesideSum(s, c, t, z, xy, xx, yy, zz) == s * -z + t * xy
  {
    assert s * s * xy == (1.0 - c * c) * xy;
    assert z * (xx + yy + zz) == z;
  }

  lemma MinorOnDiagonal(x: real, y: real, z: real, s: real, c: real, t: real)
    ensures Minor(Diagonal(y, c, t), Beside(y, z, -x, s, t), Beside(y, z, x, s, t), Diagonal(z, c, t))
         == DiagonalSum(s, c, t, x * x, y * y, z * z)
  {
  }

  lemma MinorBefore(x: real, y: real, z: real, s: real, c: real, t: real)
    ensures Minor(Beside(y, z, -x, s, t), Beside(x, y, z, s, t), Diagonal(z, c, t), Beside(x, z, -y, s, t))
         == BesideSum(s, c, t, z, x * y, x * x, y * y, z * z)
  {
  }

  lemma MinorAfter(x: real, y: real, z: real, s: real, c: real, t: real)
    ensures Minor(Beside(x, y, z, s, t), Diagonal(y, c, t), Beside(x, z, -y, s, t), Beside(y, z, x, s, t))
         == BesideSum(-s, c, t, y, x * z, x * x, z * z, y * y)
  {
  }

  /** Rodrigues' formula about a unit axis gives a proper rotation that fixes the axis; its trace is that of
      a rotation by the given angle. */
  lemma RodriguesIsRotation(w: Vec3, s: real, c: real)
    requires w.NormSquared() == 1.0 && s * s + c * c == 1.0
    ensures Proper(Rodrigues(w, s, c))
    ensures Rodrigues(w, s, c).Apply(w) == w
    ensures Rodrigues(w, s, c).Trace() == 1.0 + 2.0 * c
  {
    hide Rodrigues, Rotated, Mat3.Mul, Vec3.NormSquared, Mat3.Determinant, Mat3.Cofactor, Mat3.Apply, Mat3.Trace;
    RodriguesTimesTranspose(w, s, c);
    RodriguesTimesTranspose(w, -s, c);
    RodriguesTransposed(w, s, c);
    RodriguesTransposed(w, -s, c);
    RodriguesRotates(w, s, c, w);
    AxisIsFixed(w, s, c);
    RodriguesTrace(w, s, c);
    RodriguesOwnCofactor(w, s, c);
    assert Rodrigues(w, s, c) == Rodrigues(w, -s, c).Transpose();
    ProperIffOwnCofactor(Rodrigues(w, s, c));
  }

  lemma AxisIsFixed(w: Vec3, s: real, c: real)
    ensures Rotated(w, s, c, w) == w
  {
    assert w.Cross(w) == ZERO3;
  }

  lemma RodriguesTrace(w: Vec3, s: real, c: real)
    requires w.NormSquared() == 1.0
    ensures Rodrigues(w, s, c).Trace() == 1.0 + 2.0 * c
  {
    SkewSquare(w);
    hide Mat3.Mul, Vec3.NormSquared;
  }

  // ----- Twists -----

  datatype Twist = Twist(linear: Vec3, angular: Vec3)

  function ToTwist(v: seq<Double>): Twist
    requires |v| == 6 && forall i :: 0 <= i < 6 ==> v[i].Finite?
  {
    Twist(Vec3(v[0].value, v[1].value, v[2].value), Vec3(v[3].value, v[4].value, v[5].value))
  }

  /** The six entries of a twist, the linear half first. */
  function FromTwist(t: Twist): seq<real> {
    [t.linear.x, t.linear.y, t.linear.z, t.angular.x, t.angular.y, t.angular.z]
  }

  lemma TwistRoundTrip(v: seq<Double>, i: nat)
    requires |v| == 6 && (forall k :: 0 <= k < 6 ==> v[k].Finite?) && i < 6
    ensures FromTwist(ToTwist(v))[i] == v[i].value
  {
  }

  function LimitedTwist(lib: MathLib, translational: VectorLimits, rotational: VectorLimits,
                        commanded: Twist, last: Twist, lastAcceleration: Twist): Twist
  {
    Twist(LimitVector(lib, translational, commanded.linear, VectorState(last.linear, lastAcceleration.linear)),
          LimitVector(lib, rotational, commanded.angular, VectorState(last.angular, lastAcceleration.angular)))
  }

  /** The twist overload: the two halves of the commanded twist are overwritten in turn. */
  method LimitRateTwist(lib: MathLib, translational: VectorLimits, rotational: VectorLimits,
                        commanded: seq<Double>, last: Twist, lastAcceleration: Twist)
    returns (r: Result<Twist>)
    requires |commanded| == 6
    ensures r.Success? <==> AllFinite(commanded)
    ensures r.Success? ==>
      r.value == LimitedTwist(lib, translational, rotational, ToTwist(commanded), last, lastAcceleration)
  {
    var finite := CheckAllFinite(commanded);
    if !finite {
      return InvalidArgument;
    }
    var dx := ToTwist(commanded);
    dx := dx.(linear := LimitVector(lib, translational, dx.linear, VectorState(last.linear, lastAcceleration.linear)));
    dx := dx.(angular := LimitVector(lib, rotational, dx.angular, VectorState(last.angular, lastAcceleration.angular)));
    return Success(dx);
  }

  /** From a twist within the speed limits the limited twist is within the speed and acceleration limits. */
  lemma LimitedTwistIsBounded(lib: MathLib, translational: VectorLimits, rotational: VectorLimits,
                              commanded: Twist, last: Twist, lastAcceleration: Twist)
    requires lib.LawfulSqrt() && translational.Valid() && rotational.Valid()
    requires Norm(lib, last.linear) <= translational.maxVelocity && Norm(lib, last.angular) <= rotational.maxVelocity
    ensures var dx := LimitedTwist(lib, translational, rotational, commanded, last, lastAcceleration);
            && Norm(lib, dx.linear) <= translational.maxVelocity
            && Norm(lib, dx.angular) <= rotational.maxVelocity
            && Norm(lib, PerSample(dx.linear.Sub(last.linear))) <= translational.maxAcceleration
            && Norm(lib, PerSample(dx.angular.Sub(last.angular))) <= rotational.maxAcceleration
  {
    hide LimitVector, Norm, PerSample, VectorLimits.Valid;
    VectorStepIsBounded(lib, translational, commanded.linear, VectorState(last.linear, lastAcceleration.linear));
    VectorStepIsBounded(lib, rotational, commanded.angular, VectorState(last.angular, lastAcceleration.angular));
  }

  // ----- Poses -----

  datatype Affine = Affine(linear: Mat3, translation: Vec3)

  type Transform = t: seq<real> | |t| == 16
    witness [0.0, 0.0, 0.0, 0.0, 0.0, 0.0, 0.0, 0.0, 0.0, 0.0, 0.0, 0.0, 0.0, 0.0, 0.0, 0.0]

  /** The 4x4 matrix in column-major order. */
  function ToTransform(a: Affine): Transform {
    var m, t := a.linear, a.translation;
    [m.xx, m.yx, m.zx, 0.0, m.xy, m.yy, m.zy, 0.0, m.xz, m.yz, m.zz, 0.0, t.x, t.y, t.z, 1.0]
  }

  function ToAffine(t: Transform): Affine {
    Affine(Mat3(t[0], t[4], t[8], t[1], t[5], t[9], t[2], t[6], t[10]), Vec3(t[12], t[13], t[14]))
  }

  /** A pose that is sent as a transform and fed back is the same pose. */
  lemma TransformRoundTrip(a: Affine)
    ensures ToAffine(ToTransform(a)) == a
  {
  }

  function Values(v: seq<Double>): Transform
    requires |v| == 16 && AllFinite(v)
  {
    seq(16, i requires 0 <= i < 16 => v[i].value)
  }

  /** The root of the sum of three squares, as isHomogeneousTransformation computes it. */
  function Length(lib: MathLib, x: real, y: real, z: real): real {
    lib.sqrt(SumOfSquares(x, y, z))
  }

  function SumOfSquares(x: real, y: real, z: real): real {
    x * x + y * y + z * z
  }

  predicate NearOne(x: real) {
    Abs(x - 1.0) <= 0.00001
  }

  /** isHomogeneousTransformation of include/franka/control_tools.h. */
  predicate IsHomogeneousTransformation(lib: MathLib, t: Transform) {
    && t[3] == 0.0 && t[7] == 0.0 && t[11] == 0.0 && t[15] == 1.0
    && (forall j :: 0 <= j < 3 ==> NearOne(ColumnLength(lib, t, j)))
    && (forall i :: 0 <= i < 3 ==> NearOne(RowLength(lib, t, i)))
  }

  function ColumnLength(lib: MathLib, t: Transform, j: nat): real
    requires j < 3
  {
    Length(lib, t[j * 4], t[j * 4 + 1], t[j * 4 + 2])
  }

  function RowLength(lib: MathLib, t: Transform, i: nat): real
    requires i < 3
  {
    Length(lib, t[i], t[4 + i], t[8 + i])
  }

  predicate NearlyUnit(v: Vec3) {
    0.99999 * 0.99999 <= v.NormSquared() <= 1.00001 * 1.00001
  }

  predicate NearlyOrthonormal(m: Mat3) {
    && NearlyUnit(m.ColX()) && NearlyUnit(m.ColY()) && NearlyUnit(m.ColZ())
    && NearlyUnit(m.RowX()) && NearlyUnit(m.RowY()) && NearlyUnit(m.RowZ())
  }

  /** A transform is accepted exactly if its last row is that of the identity, and all columns and rows of its matrix are
      nearly unit vectors. */
  lemma HomogeneousIff(lib: MathLib, t: Transform)
    requires lib.LawfulSqrt()
    ensures IsHomogeneousTransformation(lib, t)
       <==> && t[3] == t[7] == t[11] == 0.0 && t[15] == 1.0 && NearlyOrthonormal(ToAffine(t).linear)
  {
    var m := ToAffine(t).linear;
    assert ColumnLength(lib, t, 0) == Length(lib, m.ColX().x, m.ColX().y, m.ColX().z);
    assert ColumnLength(lib, t, 1) == Length(lib, m.ColY().x, m.ColY().y, m.ColY().z);
    assert ColumnLength(lib, t, 2) == Length(lib, m.ColZ().x, m.ColZ().y, m.ColZ().z);
    assert RowLength(lib, t, 0) == Length(lib, m.RowX().x, m.RowX().y, m.RowX().z);
    assert RowLength(lib, t, 1) == Length(lib, m.RowY().x, m.RowY().y, m.RowY().z);
    assert RowLength(lib, t, 2) == Length(lib, m.RowZ().x, m.RowZ().y, m.RowZ().z);
    LengthNearOne(lib, m.ColX());
    LengthNearOne(lib, m.ColY());
    LengthNearOne(lib, m.ColZ());
    LengthNearOne(lib, m.RowX());
    LengthNearOne(lib, m.RowY());
    LengthNearOne(lib, m.RowZ());
    hide NearOne, Length, ColumnLength, RowLength, NearlyUnit, MathLib.LawfulSqrt, ToAffine;
  }

  lemma LengthNearOne(lib: MathLib, v: Vec3)
    requires lib.LawfulSqrt()
    ensures NearOne(Length(lib, v.x, v.y, v.z)) <==> NearlyUnit(v)
  {
    var n := Length(lib, v.x, v.y, v.z);
    NormSquaredNonnegative(v);
    assert SumOfSquares(v.x, v.y, v.z) == v.NormSquared();
    hide SumOfSquares, Vec3.NormSquared;
    assert n >= 0.0 && n * n == v.NormSquared();
    hide MathLib.LawfulSqrt, Length;
    SquareOrder(n, 1.00001);
    SquareOrder(0.99999, n);
  }

  /** Every transform of an orthogonal matrix is accepted. */
  lemma OrthogonalIsHomogeneous(lib: MathLib, a: Affine)
    requires lib.LawfulSqrt() && Orthogonal(a.linear)
    ensures IsHomogeneousTransformation(lib, ToTransform(a))
  {
    var m, t := a.linear, ToTransform(a);
    UnitLength(lib, m.RowX());
    UnitLength(lib, m.RowY());
    UnitLength(lib, m.RowZ());
    UnitLength(lib, m.ColX());
    UnitLength(lib, m.ColY());
    UnitLength(lib, m.ColZ());
    OrthogonalHasUnitRows(m);
    hide Length, Orthogonal, Vec3.Dot, MathLib.LawfulSqrt;
  }

  lemma OrthogonalHasUnitRows(m: Mat3)
    requires Orthogonal(m)
    ensures m.RowX().Dot(m.RowX()) == m.RowY().Dot(m.RowY()) == m.RowZ().Dot(m.RowZ()) == 1.0
    ensures m.ColX().Dot(m.ColX()) == m.ColY().Dot(m.ColY()) == m.ColZ().Dot(m.ColZ()) == 1.0
  {
    hide Vec3.Dot;
    assert m.Mul(m.Transpose()) == IDENTITY3;
    assert m.Transpose().Mul(m) == IDENTITY3;
  }

  lemma UnitLength(lib: MathLib, v: Vec3)
    requires lib.LawfulSqrt()
    ensures v.Dot(v) == 1.0 ==> NearOne(Length(lib, v.x, v.y, v.z))
  {
    if v.Dot(v) == 1.0 {
      assert SumOfSquares(v.x, v.y, v.z) == 1.0;
      hide SumOfSquares, MathLib.LawfulSqrt;
      KnownRoot(lib, SumOfSquares(v.x, v.y, v.z), 1.0);
    }
  }

  /** Eigen's parts of the pose limiter: `rotation()` of an affine transform, and the rotation vector
      (axis times angle) of `AngleAxisd`. */
  datatype EigenLib = EigenLib(rotation: Mat3 -> Mat3, rotationVector: Mat3 -> Vec3) {
    ghost predicate Lawful() {
      forall m :: Proper(rotation(m)) && (Proper(m) ==> rotation(m) == m)
    }

    ghost predicate LawfulVectors(lib: MathLib) {
      forall m :: Proper(m) ==> IsRotationVector(lib, rotationVector(m), m)
    }
  }

  /** The matrix turns about the direction of the vector by the length of the vector. */
  ghost predicate IsRotationVector(lib: MathLib, r: Vec3, m: Mat3) {
    if r == ZERO3 then m == IDENTITY3
    else
      var angle := Norm(lib, r);
      angle > 0.0 && m == Rodrigues(r.Over(angle), lib.sin(angle), lib.cos(angle))
  }

  function CommandedTwist(eigen: EigenLib, commanded: Affine, last: Affine): Twist {
    Twist(PerSample(commanded.translation.Sub(last.translation)),
          PerSample(eigen.rotationVector(eigen.rotation(commanded.linear).Mul(eigen.rotation(last.linear).Transpose()))))
  }

  /** The pose reached from `last` by following a twist for one sample. */
  function Integrated(lib: MathLib, eigen: EigenLib, last: Affine, dx: Twist): Affine {
    var translation := last.translation.Add(dx.linear.Scale(0.001));
    var norm := Norm(lib, dx.angular);
    if norm > K_NORM_EPS then
      var theta := 0.001 * norm;
      Affine(Rodrigues(dx.angular.Over(norm), lib.sin(theta), lib.cos(theta)).Mul(eigen.rotation(last.linear)), translation)
    else
      Affine(eigen.rotation(last.linear), translation)
  }

  ghost predicate LawfulParts(lib: MathLib, eigen: EigenLib) {
    lib.LawfulSqrt() && eigen.Lawful() && eigen.LawfulVectors(lib)
  }

  /** The rotation vector from one pose to another. */
  function RotationBetween(eigen: EigenLib, from: Affine, to: Affine): Vec3 {
    eigen.rotationVector(eigen.rotation(to.linear).Mul(eigen.rotation(from.linear).Transpose()))
  }

  /** The turn is none at all, or large enough not to be dropped. */
  ghost predicate TurnCounts(lib: MathLib, r: Vec3) {
    r == ZERO3 || Norm(lib, PerSample(r)) > K_NORM_EPS
  }

  /** Following the commanded twist for one sample reaches the commanded pose; a turn that is too small to have a direction
      is dropped. */
  lemma CommandIsReached(lib: MathLib, eigen: EigenLib, commanded: Affine, last: Affine)
    requires LawfulParts(lib, eigen)
    ensures var pose := Integrated(lib, eigen, last, CommandedTwist(eigen, commanded, last));
            && pose.translation == commanded.translation
            && pose.linear == eigen.rotation(if TurnCounts(lib, RotationBetween(eigen, last, commanded)) then commanded.linear
                                             else last.linear)
  {
    hide Norm, Rodrigues, Proper, Mat3.Mul, Mat3.Transpose, PerSample, Vec3.Over, Vec3.Add, Vec3.Scale, Vec3.Sub,
         IsRotationVector, MathLib.LawfulSqrt;
    var from, to := eigen.rotation(last.linear), eigen.rotation(commanded.linear);
    var turn := to.Mul(from.Transpose());
    UndoPerSample(commanded.translation, last.translation);
    ProperTranspose(from);
    ProperProduct(to, from.Transpose());
    TurnIsReached(lib, from, to, eigen.rotationVector(turn));
  }

  lemma TurnIsReached(lib: MathLib, from: Mat3, to: Mat3, r: Vec3)
    requires lib.LawfulSqrt() && Proper(from) && IsRotationVector(lib, r, to.Mul(from.Transpose()))
    ensures var v := PerSample(r);
            var norm := Norm(lib, v);
            if norm > K_NORM_EPS
            then Rodrigues(v.Over(norm), lib.sin(0.001 * norm), lib.cos(0.001 * norm)).Mul(from) == to
            else r == ZERO3 ==> from == to
  {
    hide Norm, Rodrigues, Mat3.Mul, Mat3.Transpose, Mat3.Determinant, PerSample, Vec3.Over, MathLib.LawfulSqrt;
    BackAndForth(to, from);
    StandsStill(lib);
    if r != ZERO3 {
      DirectionPerSample(lib, r);
    }
  }

  lemma StandsStill(lib: MathLib)
    requires lib.LawfulSqrt()
    ensures Norm(lib, PerSample(ZERO3)) == 0.0
  {
    DifferenceOfIncrement(ZERO3, ZERO3);
    hide Norm, PerSample, MathLib.LawfulSqrt;
    AxisNorm(lib, 0.0);
  }

  lemma DirectionPerSample(lib: MathLib, r: Vec3)
    requires lib.LawfulSqrt() && Norm(lib, r) > 0.0
    ensures var v, n := PerSample(r), Norm(lib, r);
            && 0.001 * Norm(lib, v) == n && Norm(lib, v) > 0.0 && v.Over(Norm(lib, v)) == r.Over(n)
  {
    var n := Norm(lib, r);
    NormIsRoot(lib, r);
    PerSampleIsScale(r);
    NormSquaredOfScaled(r, 1000.0);
    hide Norm, Vec3.NormSquared, MathLib.LawfulSqrt, PerSample;
    KnownNorm(lib, PerSample(r), 1000.0 * n);
    SameQuotient(r.x, n);
    SameQuotient(r.y, n);
    SameQuotient(r.z, n);
  }

  lemma PerSampleIsScale(r: Vec3)
    ensures PerSample(r) == r.Scale(1000.0)
  {
  }

  lemma SameQuotient(x: real, n: real)
    requires n > 0.0
    ensures x * 1000.0 / (1000.0 * n) == x / n
  {
    var q := x / n;
    assert q * n == x;
    assert x * 1000.0 == q * (1000.0 * n);
  }

  /** The six limits of the pose overload. Its rotational limits are scaled by kFactorCartesianRotationPoseInterface. */
  datatype PoseLimits = PoseLimits(translationalVelocity: real, translationalAcceleration: real, translationalJerk: real,
                                   rotationalVelocity: real, rotationalAcceleration: real, rotationalJerk: real) {
    predicate Defined() {
      translationalAcceleration != 0.0 && rotationalAcceleration != 0.0
    }

    function Translational(): VectorLimits
      requires Defined()
    {
      MakeVectorLimits(translationalVelocity, translationalAcceleration, translationalJerk)
    }

    function Rotational(): VectorLimits
      requires Defined()
    {
      MakeVectorLimits(0.99 * rotationalVelocity, 0.99 * rotationalAcceleration, 0.99 * rotationalJerk)
    }
  }

  /** The limits the control loop passes. */
  function PandaPoseLimits(): PoseLimits {
    var translationalAcceleration, rotationalAcceleration := 13.0 - K_LIMIT_EPS, 25.0 - K_LIMIT_EPS;
    PoseLimits(2.0 - K_LIMIT_EPS - 3.0 * 0.001 * translationalAcceleration, translationalAcceleration,
               6500.0 - K_LIMIT_EPS,
               2.5 - K_LIMIT_EPS - 3.0 * 0.001 * rotationalAcceleration, rotationalAcceleration, 12500.0 - K_LIMIT_EPS)
  }

  lemma PandaPoseLimitsAreValid()
    ensures PandaPoseLimits().Defined()
    ensures PandaPoseLimits().Translational().Valid() && PandaPoseLimits().Rotational().Valid()
    ensures var p := PandaPoseLimits();
            && p.translationalVelocity + 3.0 * 0.001 * p.translationalAcceleration == 2.0 - K_LIMIT_EPS
            && p.rotationalVelocity + 3.0 * 0.001 * p.rotationalAcceleration == 2.5 - K_LIMIT_EPS
            && p.translationalAcceleration + K_LIMIT_EPS == 13.0 && p.translationalJerk + K_LIMIT_EPS == 6500.0
            && p.rotationalAcceleration + K_LIMIT_EPS == 25.0 && p.rotationalJerk + K_LIMIT_EPS == 12500.0
  {
    hide VectorLimits.Valid, MakeVectorLimits;
    var p := PandaPoseLimits();
    MakeVectorLimitsValid(p.translationalVelocity, p.translationalAcceleration, p.translationalJerk);
    MakeVectorLimitsValid(0.99 * p.rotationalVelocity, 0.99 * p.rotationalAcceleration, 0.99 * p.rotationalJerk);
  }

  /** The commanded pose is a proper rotation and a translation, its turn counts, and both halves of its twist need no
      limiting. */
  ghost predicate PoseNeedsNoLimiting(lib: MathLib, eigen: EigenLib, limits: PoseLimits, commanded: Affine, last: Affine,
                                      lastTwist: Twist, lastAcceleration: Twist)
    requires limits.Defined()
  {
    var twist := CommandedTwist(eigen, commanded, last);
    && Proper(commanded.linear) && TurnCounts(lib, RotationBetween(eigen, last, commanded))
    && NeedsNoLimiting(lib, limits.Translational(), twist.linear, VectorState(lastTwist.linear, lastAcceleration.linear))
    && NeedsNoLimiting(lib, limits.Rotational(), twist.angular, VectorState(lastTwist.angular, lastAcceleration.angular))
  }

  /** Such a pose comes out as it went in. */
  lemma PoseCommandUnchanged(lib: MathLib, eigen: EigenLib, limits: PoseLimits, commanded: Affine, last: Affine,
                             lastTwist: Twist, lastAcceleration: Twist)
    requires LawfulParts(lib, eigen) && limits.Defined()
    requires PoseNeedsNoLimiting(lib, eigen, limits, commanded, last, lastTwist, lastAcceleration)
    ensures Integrated(lib, eigen, last,
                       LimitedTwist(lib, limits.Translational(), limits.Rotational(),
                                    CommandedTwist(eigen, commanded, last), lastTwist, lastAcceleration)) == commanded
  {
    hide Integrated, CommandedTwist, RotationBetween, NeedsNoLimiting, LimitVector, TurnCounts, Proper, MathLib.LawfulSqrt,
         PoseLimits.Translational, PoseLimits.Rotational, EigenLib.LawfulVectors;
    var twist := CommandedTwist(eigen, commanded, last);
    VectorCommandUnchanged(lib, limits.Translational(), twist.linear,
                           VectorState(lastTwist.linear, lastAcceleration.linear));
    VectorCommandUnchanged(lib, limits.Rotational(), twist.angular,
                           VectorState(lastTwist.angular, lastAcceleration.angular));
    CommandIsReached(lib, eigen, commanded, last);
  }

  /** A homogeneous transform is determined by its rotation part and its translation. */
  lemma HomogeneousRoundTrip(lib: MathLib, t: Transform)
    requires IsHomogeneousTransformation(lib, t)
    ensures ToTransform(ToAffine(t)) == t
  {
    hide NearOne, Length;
  }

  /** The pose overload. */
  method LimitRatePose(lib: MathLib, eigen: EigenLib, limits: PoseLimits,
                       commanded: seq<Double>, lastPose: Transform, lastTwist: Twist, lastAcceleration: Twist)
    returns (r: Result<Transform>)
    requires |commanded| == 16 && limits.Defined()
    ensures r.Success? <==> AllFinite(commanded) && IsHomogeneousTransformation(lib, Values(commanded))
    ensures r.Success? ==>
      var last := ToAffine(lastPose);
      var twist := CommandedTwist(eigen, ToAffine(Values(commanded)), last);
      r.value == ToTransform(Integrated(lib, eigen, last,
                   LimitedTwist(lib, limits.Translational(), limits.Rotational(), twist, lastTwist, lastAcceleration)))
    ensures r.Success? && LawfulParts(lib, eigen) ==>
      var pose := ToAffine(Values(commanded));
      PoseNeedsNoLimiting(lib, eigen, limits, pose, ToAffine(lastPose), lastTwist, lastAcceleration) ==>
        r.value == Values(commanded)
  {
    hide Norm, Rodrigues, LimitedTwist, CommandedTwist, IsHomogeneousTransformation, ToTransform, ToAffine, Values,
         PoseNeedsNoLimiting, LawfulParts;
    hide Mat3.Mul, Vec3.Add, Vec3.Scale, Vec3.Over;
    var finite := CheckAllFinite(commanded);
    if !finite {
      return InvalidArgument;
    }
    var values := Values(commanded);
    if !IsHomogeneousTransformation(lib, values) {
      return InvalidArgument;
    }
    var commandedPose, last := ToAffine(values), ToAffine(lastPose);
    var limited := Affine(IDENTITY3, ZERO3);
    var dx := CommandedTwist(eigen, commandedPose, last);
    dx := LimitedTwist(lib, limits.Translational(), limits.Rotational(), dx, lastTwist, lastAcceleration);
    limited := limited.(translation := last.translation.Add(dx.linear.Scale(0.001)));
    limited := limited.(linear := eigen.rotation(last.linear));
    var norm := Norm(lib, dx.angular);
    if norm > K_NORM_EPS {
      var theta := 0.001 * norm;
      var turn := Rodrigues(dx.angular.Over(norm), lib.sin(theta), lib.cos(theta));
      limited := limited.(linear := turn.Mul(eigen.rotation(last.linear)));
    }
    if LawfulParts(lib, eigen)
       && PoseNeedsNoLimiting(lib, eigen, limits, commandedPose, last, lastTwist, lastAcceleration) {
      PoseCommandUnchanged(lib, eigen, limits, commandedPose, last, lastTwist, lastAcceleration);
      HomogeneousRoundTrip(lib, values);
    }
    return Success(ToTransform(limited));
  }

  /** Following any twist from any pose ends in a rigid pose, one the library's own check accepts. */
  lemma IntegratedIsRigid(lib: MathLib, eigen: EigenLib, last: Affine, dx: Twist)
    requires lib.LawfulSqrt() && lib.LawfulTrigonometry() && eigen.Lawful()
    ensures var pose := Integrated(lib, eigen, last, dx);
            Proper(pose.linear) && IsHomogeneousTransformation(lib, ToTransform(pose))
  {
    var norm := Norm(lib, dx.angular);
    hide Norm, Rodrigues, Orthogonal, Mat3.Determinant, IsHomogeneousTransformation, Vec3.NormSquared;
    if norm > K_NORM_EPS {
      var axis := dx.angular.Over(norm);
      UnitVector(lib, dx.angular);
      RodriguesIsRotation(axis, lib.sin(0.001 * norm), lib.cos(0.001 * norm));
      ProperProduct(Rodrigues(axis, lib.sin(0.001 * norm), lib.cos(0.001 * norm)), eigen.rotation(last.linear));
    }
    OrthogonalIsHomogeneous(lib, Integrated(lib, eigen, last, dx));
  }

  /** The pose limiter: from a twist within the speed limits, for every commanded pose, the output is rigid, moves by
      at most the translational speed limit for one sample, and turns from the last rotation about a fixed unit axis by
      an angle of at most the rotational speed limit for one sample. */
  lemma PoseStepIsBounded(lib: MathLib, eigen: EigenLib, translational: VectorLimits, rotational: VectorLimits,
                          commanded: Twist, last: Affine, lastTwist: Twist, lastAcceleration: Twist)
    requires lib.LawfulSqrt() && lib.LawfulTrigonometry() && eigen.Lawful()
    requires translational.Valid() && rotational.Valid()
    requires Norm(lib, lastTwist.linear) <= translational.maxVelocity
    requires Norm(lib, lastTwist.angular) <= rotational.maxVelocity
    ensures var pose := Integrated(lib, eigen, last,
                          LimitedTwist(lib, translational, rotational, commanded, lastTwist, lastAcceleration));
            && IsHomogeneousTransformation(lib, ToTransform(pose))
            && Norm(lib, pose.translation.Sub(last.translation)) <= translational.maxVelocity * 0.001
            && TurnsAtMost(lib, eigen.rotation(last.linear), pose.linear, rotational.maxVelocity * 0.001)
  {
    var dx := LimitedTwist(lib, translational, rotational, commanded, lastTwist, lastAcceleration);
    LimitedTwistIsBounded(lib, translational, rotational, commanded, lastTwist, lastAcceleration);
    hide LimitedTwist, IsHomogeneousTransformation;
    IntegratedIsRigid(lib, eigen, last, dx);
    TranslationStep(lib, last.translation, dx.linear, translational.maxVelocity);
    IntegratedTurns(lib, eigen, last, dx, rotational.maxVelocity);
    hide Norm, Rodrigues, TurnsAtMost;
  }

  // ----- Runs -----

  /** What the caller feeds back: the pose sent, the limited twist, and the one before it, for the acceleration. */
  datatype PoseState = PoseState(pose: Affine, twist: Twist, lastTwist: Twist) {
    function Acceleration(): Twist {
      Twist(PerSample(twist.linear.Sub(lastTwist.linear)), PerSample(twist.angular.Sub(lastTwist.angular)))
    }
  }

  function PoseStep(lib: MathLib, eigen: EigenLib, translational: VectorLimits, rotational: VectorLimits,
                    commanded: Affine, s: PoseState): PoseState
  {
    var dx := LimitedTwist(lib, translational, rotational, CommandedTwist(eigen, commanded, s.pose), s.twist,
                           s.Acceleration());
    PoseState(Integrated(lib, eigen, s.pose, dx), dx, s.twist)
  }

  /** Each state is the step from the one before, for some sequence of commanded poses. */
  ghost predicate IsPoseRun(lib: MathLib, eigen: EigenLib, translational: VectorLimits, rotational: VectorLimits,
                            commands: nat -> Affine, states: nat -> PoseState) {
    forall k: nat {:trigger commands(k)} ::
      states(k + 1) == PoseStep(lib, eigen, translational, rotational, commands(k), states(k))
  }

  ghost predicate TwistWithin(lib: MathLib, translational: VectorLimits, rotational: VectorLimits, twist: Twist) {
    Norm(lib, twist.linear) <= translational.maxVelocity && Norm(lib, twist.angular) <= rotational.maxVelocity
  }

  /** From one pose sent to the next: a rigid pose again, within the limits on speed and acceleration; the twist fed back
      is the difference of the translations. */
  ghost predicate MovesWithin(lib: MathLib, eigen: EigenLib, translational: VectorLimits, rotational: VectorLimits,
                              s: PoseState, next: PoseState) {
    && TwistWithin(lib, translational, rotational, next.twist)
    && Proper(next.pose.linear) && IsHomogeneousTransformation(lib, ToTransform(next.pose))
    && Norm(lib, next.pose.translation.Sub(s.pose.translation)) <= translational.maxVelocity * 0.001
    && PerSample(next.pose.translation.Sub(s.pose.translation)) == next.twist.linear
    && TurnsAtMost(lib, eigen.rotation(s.pose.linear), next.pose.linear, rotational.maxVelocity * 0.001)
    && Norm(lib, next.Acceleration().linear) <= translational.maxAcceleration
    && Norm(lib, next.Acceleration().angular) <= rotational.maxAcceleration
  }

  lemma PoseStepMovesWithin(lib: MathLib, eigen: EigenLib, translational: VectorLimits, rotational: VectorLimits,
                            commanded: Affine, s: PoseState)
    requires lib.LawfulSqrt() && lib.LawfulTrigonometry() && eigen.Lawful()
    requires translational.Valid() && rotational.Valid() && TwistWithin(lib, translational, rotational, s.twist)
    ensures MovesWithin(lib, eigen, translational, rotational, s,
                        PoseStep(lib, eigen, translational, rotational, commanded, s))
  {
    var twist := CommandedTwist(eigen, commanded, s.pose);
    var dx := LimitedTwist(lib, translational, rotational, twist, s.twist, s.Acceleration());
    LimitedTwistIsBounded(lib, translational, rotational, twist, s.twist, s.Acceleration());
    PoseStepIsBounded(lib, eigen, translational, rotational, twist, s.pose, s.twist, s.Acceleration());
    IntegratedIsRigid(lib, eigen, s.pose, dx);
    IntegratedTranslation(lib, eigen, s.pose, dx);
    TranslationPerSample(s.pose.translation, dx.linear);
    hide Norm, LimitedTwist, CommandedTwist, Integrated, TurnsAtMost, Proper, IsHomogeneousTransformation, ToTransform,
         PerSample, Vec3.Add, Vec3.Sub, Vec3.Scale, VectorLimits.Valid, MathLib.LawfulSqrt, EigenLib.Lawful;
  }

  lemma IntegratedTranslation(lib: MathLib, eigen: EigenLib, last: Affine, dx: Twist)
    ensures Integrated(lib, eigen, last, dx).translation == last.translation.Add(dx.linear.Scale(0.001))
  {
  }

  lemma TranslationPerSample(from: Vec3, v: Vec3)
    ensures PerSample(from.Add(v.Scale(0.001)).Sub(from)) == v
  {
  }

  /** In every run of commanded poses from a twist within the speed limits, each pose sent moves within the limits from the
      one before; from the first pose sent on, the turn is from that very pose. */
  lemma {:induction false} PoseRunIsBounded(lib: MathLib, eigen: EigenLib, translational: VectorLimits,
                                            rotational: VectorLimits, commands: nat -> Affine, states: nat -> PoseState,
                                            n: nat)
    requires lib.LawfulSqrt() && lib.LawfulTrigonometry() && eigen.Lawful()
    requires translational.Valid() && rotational.Valid() && TwistWithin(lib, translational, rotational, states(0).twist)
    requires IsPoseRun(lib, eigen, translational, rotational, commands, states)
    ensures TwistWithin(lib, translational, rotational, states(n).twist)
    ensures MovesWithin(lib, eigen, translational, rotational, states(n), states(n + 1))
    ensures n > 0 ==> eigen.rotation(states(n).pose.linear) == states(n).pose.linear
  {
    hide PoseStep, TwistWithin, VectorLimits.Valid, Proper;
    if n > 0 {
      PoseRunIsBounded(lib, eigen, translational, rotational, commands, states, n - 1);
    }
    assert states(n + 1) == PoseStep(lib, eigen, translational, rotational, commands(n), states(n));
    PoseStepMovesWithin(lib, eigen, translational, rotational, commands(n), states(n));
    hide Norm, TurnsAtMost, IsHomogeneousTransformation, ToTransform, PerSample, Vec3.Sub;
  }

  // ----- Turns -----

  /** `to` is `from`, or `from` turned about a unit axis by an angle of at most `bound`. */
  ghost predicate TurnsAtMost(lib: MathLib, from: Mat3, to: Mat3, bound: real) {
    to == from || exists axis: Vec3, theta: real :: TurnsBy(lib, from, to, axis, theta) && theta <= bound
  }

  ghost predicate TurnsBy(lib: MathLib, from: Mat3, to: Mat3, axis: Vec3, theta: real) {
    && axis.NormSquared() == 1.0 && 0.0 <= theta
    && exists turn: Mat3 :: to == turn.Mul(from) && TurnsAbout(lib, turn, axis, theta)
  }

  /** The matrix is the proper rotation about the axis by the angle. */
  ghost predicate TurnsAbout(lib: MathLib, turn: Mat3, axis: Vec3, theta: real) {
    && turn == Rodrigues(axis, lib.sin(theta), lib.cos(theta)) && Proper(turn) && turn.Apply(axis) == axis
    && turn.Trace() == 1.0 + 2.0 * lib.cos(theta)
  }

  lemma IntegratedTurns(lib: MathLib, eigen: EigenLib, last: Affine, dx: Twist, maxVelocity: real)
    requires lib.LawfulSqrt() && lib.LawfulTrigonometry() && Norm(lib, dx.angular) <= maxVelocity
    ensures TurnsAtMost(lib, eigen.rotation(last.linear), Integrated(lib, eigen, last, dx).linear, maxVelocity * 0.001)
  {
    var norm := Norm(lib, dx.angular);
    hide Norm, Rodrigues, Proper, Vec3.NormSquared, Mat3.Mul, Mat3.Apply, Mat3.Trace;
    if norm > K_NORM_EPS {
      var axis, theta := dx.angular.Over(norm), 0.001 * norm;
      UnitVector(lib, dx.angular);
      var turn := Rodrigues(axis, lib.sin(theta), lib.cos(theta));
      RodriguesIsRotation(axis, lib.sin(theta), lib.cos(theta));
      assert TurnsBy(lib, eigen.rotation(last.linear), Integrated(lib, eigen, last, dx).linear, axis, theta);
    }
  }

  lemma TranslationStep(lib: MathLib, from: Vec3, v: Vec3, maxVelocity: real)
    requires lib.LawfulSqrt() && Norm(lib, v) <= maxVelocity
    ensures Norm(lib, from.Add(v.Scale(0.001)).Sub(from)) <= maxVelocity * 0.001
  {
    var n := Norm(lib, v);
    AddThenSubtractOnce(from, v, 0.001);
    NormIsRoot(lib, v);
    NormSquaredOfScaled(v, 0.001);
    hide Norm, Vec3.NormSquared, Vec3.Scale, Vec3.Add, Vec3.Sub, MathLib.LawfulSqrt;
    KnownNorm(lib, v.Scale(0.001), n * 0.001);
  }
}
