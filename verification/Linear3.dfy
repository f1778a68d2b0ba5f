/** Vectors and matrices of three dimensions over the reals. */
module Linear3 {
  import opened RealMath

  datatype Vec3 = Vec3(x: real, y: real, z: real) {
    function Add(v: Vec3): Vec3 {
      Vec3(x + v.x, y + v.y, z + v.z)
    }

    function Sub(v: Vec3): Vec3 {
      Vec3(x - v.x, y - v.y, z - v.z)
    }

    function Scale(k: real): Vec3 {
      Vec3(x * k, y * k, z * k)
    }

    function Over(k: real): Vec3
      requires k != 0.0
    {
      Vec3(x / k, y / k, z / k)
    }

    function Dot(v: Vec3): real {
      x * v.x + y * v.y + z * v.z
    }

    function NormSquared(): real {
      Dot(this)
    }

    function Cross(v: Vec3): Vec3 {
      Vec3(y * v.z - z * v.y, z * v.x - x * v.z, x * v.y - y * v.x)
    }
  }

  const ZERO3 := Vec3(0.0, 0.0, 0.0)

  function Norm(lib: MathLib, v: Vec3): real {
    lib.sqrt(v.NormSquared())
  }

  lemma NormSquaredNonnegative(v: Vec3)
    ensures v.NormSquared() >= 0.0
  {
    SquareNonnegative(v.x);
    SquareNonnegative(v.y);
    SquareNonnegative(v.z);
  }

  lemma NormIsRoot(lib: MathLib, v: Vec3)
    requires lib.LawfulSqrt()
    ensures Norm(lib, v) >= 0.0 && Norm(lib, v) * Norm(lib, v) == v.NormSquared()
  {
    NormSquaredNonnegative(v);
  }

  lemma KnownNorm(lib: MathLib, v: Vec3, norm: real)
    requires lib.LawfulSqrt() && norm >= 0.0 && v.NormSquared() == norm * norm
    ensures Norm(lib, v) == norm
  {
    NormIsRoot(lib, v);
    RootUnique(Norm(lib, v), norm);
  }

  lemma NormAtMost(lib: MathLib, v: Vec3, bound: real)
    requires lib.LawfulSqrt() && bound >= 0.0
    ensures Norm(lib, v) <= bound <==> v.NormSquared() <= bound * bound
  {
    NormIsRoot(lib, v);
    SquareOrder(Norm(lib, v), bound);
  }

  lemma NormSquaredOfScaled(v: Vec3, k: real)
    ensures v.Scale(k).NormSquared() == k * k * v.NormSquared()
  {
  }

  lemma DotOfScaled(u: Vec3, v: Vec3, k: real)
    ensures u.Scale(k).Dot(v) == k * u.Dot(v)
  {
  }

  lemma OverIsScale(v: Vec3, k: real)
    requires k != 0.0
    ensures v.Over(k) == v.Scale(1.0 / k)
  {
  }

  /** Dividing by the norm gives a unit vector of the same direction. */
  lemma UnitVector(lib: MathLib, v: Vec3)
    requires lib.LawfulSqrt() && Norm(lib, v) > 0.0
    ensures v.Over(Norm(lib, v)).NormSquared() == 1.0
    ensures v.Over(Norm(lib, v)).Scale(Norm(lib, v)) == v
  {
    var n := Norm(lib, v);
    NormIsRoot(lib, v);
    OverIsScale(v, n);
    NormSquaredOfScaled(v, 1.0 / n);
    Reciprocal(n);
    hide Vec3.NormSquared;
    assert 1.0 / n * (1.0 / n) * (n * n) == 1.0;
  }

  lemma Reciprocal(n: real)
    requires n != 0.0
    ensures 1.0 / n * n == 1.0
    ensures 1.0 / n * (1.0 / n) * (n * n) == 1.0
  {
    var r := 1.0 / n;
    assert r * n == 1.0;
    assert r * r * (n * n) == (r * n) * (r * n);
  }

  lemma NormSquaredAlong(v: Vec3, u: Vec3, t: real)
    ensures v.Add(u.Scale(t)).NormSquared() == v.NormSquared() + 2.0 * t * u.Dot(v) + t * t * u.NormSquared()
  {
  }

  lemma NormSquaredOfDifference(u: Vec3, v: Vec3)
    ensures u.Sub(v).NormSquared() == u.NormSquared() - 2.0 * u.Dot(v) + v.NormSquared()
  {
  }

  /** Lagrange's identity. */
  lemma Lagrange(u: Vec3, v: Vec3)
    ensures u.NormSquared() * v.NormSquared() - u.Dot(v) * u.Dot(v) == u.Cross(v).NormSquared()
  {
  }

  lemma CauchySchwarz(u: Vec3, v: Vec3, un: real, vn: real)
    requires un >= 0.0 && vn >= 0.0 && un * un >= u.NormSquared() && vn * vn >= v.NormSquared()
    ensures u.Dot(v) <= un * vn
  {
    Lagrange(u, v);
    NormSquaredNonnegative(u.Cross(v));
    NormSquaredNonnegative(u);
    NormSquaredNonnegative(v);
    var d := u.Dot(v);
    hide Vec3.Dot, Vec3.NormSquared, Vec3.Cross;
    ProductOrder(u.NormSquared(), un * un, v.NormSquared(), vn * vn);
    ProductNonnegative(un, vn);
    assert un * un * (vn * vn) == (un * vn) * (un * vn);
    if d > un * vn {
      SquareOrder(d, un * vn);
    }
  }

  lemma ProductOrder(a: real, a': real, b: real, b': real)
    requires 0.0 <= a <= a' && 0.0 <= b <= b'
    ensures a * b <= a' * b'
  {
    ProductNonnegative(a' - a, b);
    ProductNonnegative(a', b' - b);
  }

  // ----- Matrices -----

  /** A matrix, row by row. */
  datatype Mat3 = Mat3(xx: real, xy: real, xz: real, yx: real, yy: real, yz: real, zx: real, zy: real, zz: real) {
    static function FromRows(x: Vec3, y: Vec3, z: Vec3): Mat3 {
      Mat3(x.x, x.y, x.z, y.x, y.y, y.z, z.x, z.y, z.z)
    }

    function Add(m: Mat3): Mat3 {
      FromRows(RowX().Add(m.RowX()), RowY().Add(m.RowY()), RowZ().Add(m.RowZ()))
    }

    function Sub(m: Mat3): Mat3 {
      FromRows(RowX().Sub(m.RowX()), RowY().Sub(m.RowY()), RowZ().Sub(m.RowZ()))
    }

    function Scale(k: real): Mat3 {
      FromRows(RowX().Scale(k), RowY().Scale(k), RowZ().Scale(k))
    }

    function RowX(): Vec3 {
      Vec3(xx, xy, xz)
    }

    function RowY(): Vec3 {
      Vec3(yx, yy, yz)
    }

    function RowZ(): Vec3 {
      Vec3(zx, zy, zz)
    }

    function ColX(): Vec3 {
      Vec3(xx, yx, zx)
    }

    function ColY(): Vec3 {
      Vec3(xy, yy, zy)
    }

    function ColZ(): Vec3 {
      Vec3(xz, yz, zz)
    }

    function Mul(m: Mat3): Mat3 {
      Mat3(RowX().Dot(m.ColX()), RowX().Dot(m.ColY()), RowX().Dot(m.ColZ()),
           RowY().Dot(m.ColX()), RowY().Dot(m.ColY()), RowY().Dot(m.ColZ()),
           RowZ().Dot(m.ColX()), RowZ().Dot(m.ColY()), RowZ().Dot(m.ColZ()))
    }

    function Transpose(): Mat3 {
      Mat3(xx, yx, zx, xy, yy, zy, xz, yz, zz)
    }

    function Apply(v: Vec3): Vec3 {
      Vec3(RowX().Dot(v), RowY().Dot(v), RowZ().Dot(v))
    }

    function Trace(): real {
      xx + yy + zz
    }

    function Determinant(): real {
      RowX().Dot(RowY().Cross(RowZ()))
    }

    function Cofactor(): Mat3 {
      var x, y, z := RowY().Cross(RowZ()), RowZ().Cross(RowX()), RowX().Cross(RowY());
      Mat3(x.x, x.y, x.z, y.x, y.y, y.z, z.x, z.y, z.z)
    }

    predicate Symmetric() {
      xy == yx && xz == zx && yz == zy
    }
  }

  const IDENTITY3 := Mat3(1.0, 0.0, 0.0, 0.0, 1.0, 0.0, 0.0, 0.0, 1.0)

  const ZERO33 := Mat3(0.0, 0.0, 0.0, 0.0, 0.0, 0.0, 0.0, 0.0, 0.0)

  /** The matrix of the cross product with v. */
  function Skew(v: Vec3): Mat3 {
    Mat3(0.0, -v.z, v.y, v.z, 0.0, -v.x, -v.y, v.x, 0.0)
  }

  lemma SkewIsCross(u: Vec3, v: Vec3)
    ensures Skew(u).Apply(v) == u.Cross(v)
  {
  }

  lemma DotDistributes(u: Vec3, v: Vec3, w: Vec3)
    ensures u.Dot(v.Add(w)) == u.Dot(v) + u.Dot(w) && v.Add(w).Dot(u) == v.Dot(u) + w.Dot(u)
  {
  }

  lemma DotScales(u: Vec3, v: Vec3, k: real)
    ensures u.Scale(k).Dot(v) == u.Dot(v) * k && u.Dot(v.Scale(k)) == u.Dot(v) * k
  {
  }

  lemma SumApplies(a: Mat3, b: Mat3, v: Vec3)
    ensures a.Add(b).Apply(v) == a.Apply(v).Add(b.Apply(v))
  {
    hide Vec3.Dot;
    DotDistributes(v, a.RowX(), b.RowX());
    DotDistributes(v, a.RowY(), b.RowY());
    DotDistributes(v, a.RowZ(), b.RowZ());
  }

  lemma ScaledApplies(a: Mat3, k: real, v: Vec3)
    ensures a.Scale(k).Apply(v) == a.Apply(v).Scale(k)
  {
    hide Vec3.Dot, Mat3.Scale;
    ScaledRows(a, k);
    DotScales(a.RowX(), v, k);
    DotScales(a.RowY(), v, k);
    DotScales(a.RowZ(), v, k);
  }

  lemma ScaledRows(a: Mat3, k: real)
    ensures a.Scale(k).RowX() == a.RowX().Scale(k)
    ensures a.Scale(k).RowY() == a.RowY().Scale(k)
    ensures a.Scale(k).RowZ() == a.RowZ().Scale(k)
  {
    hide Vec3.Scale;
  }

  lemma ProductApplies(a: Mat3, b: Mat3, v: Vec3)
    ensures a.Mul(b).Apply(v) == a.Apply(b.Apply(v))
  {
    AssociativeEntry(a.RowX(), b, v);
    AssociativeEntry(a.RowY(), b, v);
    AssociativeEntry(a.RowZ(), b, v);
    hide Vec3.Dot;
  }

  lemma IdentityApplies(v: Vec3)
    ensures IDENTITY3.Apply(v) == v
  {
  }

  lemma ColumnsAreImages(m: Mat3)
    ensures m.ColX() == m.Apply(Vec3(1.0, 0.0, 0.0))
    ensures m.ColY() == m.Apply(Vec3(0.0, 1.0, 0.0))
    ensures m.ColZ() == m.Apply(Vec3(0.0, 0.0, 1.0))
  {
  }

  lemma CrossIsPerpendicular(u: Vec3, v: Vec3)
    ensures u.Dot(u.Cross(v)) == 0.0 && v.Dot(u.Cross(v)) == 0.0
  {
  }

  /** The triple product changes sign when two factors are swapped. */
  lemma TripleProduct(w: Vec3, u: Vec3, v: Vec3)
    ensures u.Dot(w.Cross(v)) == -w.Cross(u).Dot(v)
  {
  }

  lemma BinetCauchy(w: Vec3, u: Vec3, v: Vec3)
    ensures w.Cross(u).Dot(w.Cross(v)) == w.NormSquared() * u.Dot(v) - w.Dot(v) * u.Dot(w)
  {
    DoubleCross(w, v);
    TripleProduct(w, u, w.Cross(v));
    hide Vec3.Cross, Vec3.Dot, Vec3.Add, Vec3.Scale;
    DotDistributes(u, w.Scale(w.Dot(v)), v.Scale(-w.Dot(w)));
    DotScales(w, u, w.Dot(v));
    DotScales(v, u, -w.Dot(w));
    DotCommutes(u, w.Scale(w.Dot(v)));
    DotCommutes(u, v.Scale(-w.Dot(w)));
    DotCommutes(u, w);
    DotCommutes(u, v);
  }

  lemma DoubleCross(w: Vec3, v: Vec3)
    ensures w.Cross(w.Cross(v)) == w.Scale(w.Dot(v)).Add(v.Scale(-w.Dot(w)))
  {
    var c, dot, n := w.Cross(v), w.Dot(v), w.Dot(w);
    DoubleCrossComponent(w.x, w.y, w.z, v.x, v.y, v.z, c.y, c.z, dot, n);
    DoubleCrossComponent(w.y, w.z, w.x, v.y, v.z, v.x, c.z, c.x, dot, n);
    DoubleCrossComponent(w.z, w.x, w.y, v.z, v.x, v.y, c.x, c.y, dot, n);
    hide Vec3.Dot;
  }

  lemma DoubleCrossComponent(x: real, y: real, z: real, p: real, q: real, r: real,
                             c: real, d: real, dot: real, n: real)
    requires c == z * p - x * r && d == x * q - y * p && dot == x * p + y * q + z * r && n == x * x + y * y + z * z
    ensures y * d - z * c == x * dot + p * -n
  {
  }

  /** Orthonormal columns are what makes the transpose a left inverse. */
  lemma OrthonormalColumns(m: Mat3)
    requires m.ColX().Dot(m.ColX()) == 1.0 && m.ColY().Dot(m.ColY()) == 1.0 && m.ColZ().Dot(m.ColZ()) == 1.0
    requires m.ColX().Dot(m.ColY()) == 0.0 && m.ColY().Dot(m.ColZ()) == 0.0 && m.ColX().Dot(m.ColZ()) == 0.0
    ensures m.Transpose().Mul(m) == IDENTITY3
  {
    hide Vec3.Dot;
    DotCommutes(m.ColX(), m.ColY());
    DotCommutes(m.ColY(), m.ColZ());
    DotCommutes(m.ColX(), m.ColZ());
  }

  predicate Orthogonal(m: Mat3) {
    m.Mul(m.Transpose()) == IDENTITY3 && m.Transpose().Mul(m) == IDENTITY3
  }

  lemma DotCommutes(u: Vec3, v: Vec3)
    ensures u.Dot(v) == v.Dot(u)
  {
  }

  lemma AssociativeEntry(row: Vec3, b: Mat3, column: Vec3)
    ensures row.Dot(b.Apply(column)) == Vec3(row.Dot(b.ColX()), row.Dot(b.ColY()), row.Dot(b.ColZ())).Dot(column)
  {
  }

  lemma AssociativeRow(row: Vec3, b: Mat3, c: Mat3)
    ensures var left := Vec3(row.Dot(b.ColX()), row.Dot(b.ColY()), row.Dot(b.ColZ()));
            && left.Dot(c.ColX()) == row.Dot(b.Mul(c).ColX())
            && left.Dot(c.ColY()) == row.Dot(b.Mul(c).ColY())
            && left.Dot(c.ColZ()) == row.Dot(b.Mul(c).ColZ())
  {
    hide Vec3.Dot;
    AssociativeEntry(row, b, c.ColX());
    AssociativeEntry(row, b, c.ColY());
    AssociativeEntry(row, b, c.ColZ());
  }

  lemma MulAssociative(a: Mat3, b: Mat3, c: Mat3)
    ensures a.Mul(b).Mul(c) == a.Mul(b.Mul(c))
  {
    hide Vec3.Dot;
    AssociativeRow(a.RowX(), b, c);
    AssociativeRow(a.RowY(), b, c);
    AssociativeRow(a.RowZ(), b, c);
  }

  lemma TransposeOfProduct(a: Mat3, b: Mat3)
    ensures a.Mul(b).Transpose() == b.Transpose().Mul(a.Transpose())
  {
    hide Vec3.Dot;
    TransposedColumn(a, b.ColX());
    TransposedColumn(a, b.ColY());
    TransposedColumn(a, b.ColZ());
  }

  lemma TransposedColumn(a: Mat3, v: Vec3)
    ensures a.RowX().Dot(v) == v.Dot(a.RowX())
    ensures a.RowY().Dot(v) == v.Dot(a.RowY())
    ensures a.RowZ().Dot(v) == v.Dot(a.RowZ())
  {
    DotCommutes(a.RowX(), v);
    DotCommutes(a.RowY(), v);
    DotCommutes(a.RowZ(), v);
  }

  lemma IdentityNeutral(m: Mat3)
    ensures IDENTITY3.Mul(m) == m && m.Mul(IDENTITY3) == m
  {
  }

  lemma OrthogonalProduct(a: Mat3, b: Mat3)
    requires Orthogonal(a) && Orthogonal(b)
    ensures Orthogonal(a.Mul(b))
  {
    HalfOrthogonalProduct(a, b);
    HalfOrthogonalProduct(b.Transpose(), a.Transpose());
    TransposeOfProduct(a, b);
    assert b.Transpose().Transpose() == b && a.Transpose().Transpose() == a;
    TransposeOfProduct(b.Transpose(), a.Transpose());
    hide Mat3.Mul, Mat3.Transpose;
  }

  lemma HalfOrthogonalProduct(a: Mat3, b: Mat3)
    requires a.Mul(a.Transpose()) == IDENTITY3 && b.Mul(b.Transpose()) == IDENTITY3
    ensures a.Mul(b).Mul(a.Mul(b).Transpose()) == IDENTITY3
  {
    hide Mat3.Mul, Mat3.Transpose;
    var at, bt := a.Transpose(), b.Transpose();
    TransposeOfProduct(a, b);
    MulAssociative(a, b, bt.Mul(at));
    MulAssociative(b, bt, at);
    IdentityNeutral(at);
  }

  // ----- Proper rotations -----

  predicate Proper(m: Mat3) {
    Orthogonal(m) && m.Determinant() == 1.0
  }

  /** A matrix times its transposed cofactors is its determinant. */
  lemma CofactorExpansion(m: Mat3)
    ensures m.Mul(m.Cofactor().Transpose()) == IDENTITY3.Scale(m.Determinant())
  {
    var x, y, z := m.RowX(), m.RowY(), m.RowZ();
    CrossIsPerpendicular(x, y);
    CrossIsPerpendicular(y, z);
    CrossIsPerpendicular(z, x);
    Cyclic(x, y, z);
    Cyclic(y, z, x);
    hide Vec3.Dot, Vec3.Cross;
    var k := m.Cofactor().Transpose();
    assert k.ColX() == y.Cross(z) && k.ColY() == z.Cross(x) && k.ColZ() == x.Cross(y);
  }

  lemma Cyclic(u: Vec3, v: Vec3, w: Vec3)
    ensures u.Dot(v.Cross(w)) == v.Dot(w.Cross(u))
  {
  }

  /** Of the orthogonal matrices, those with determinant 1 are the ones that are their own cofactors. */
  lemma ProperIffOwnCofactor(m: Mat3)
    requires Orthogonal(m)
    ensures m.Determinant() == 1.0 <==> m.Cofactor() == m
  {
    CofactorExpansion(m);
    var k := m.Cofactor().Transpose();
    MulAssociative(m.Transpose(), m, k);
    IdentityNeutral(k);
    IdentityNeutral(m.Transpose());
    ScaleOne();
    hide Mat3.Mul, Mat3.Cofactor, Mat3.Determinant, Mat3.Scale;
    if m.Determinant() == 1.0 {
      assert k == m.Transpose();
      assert m.Cofactor() == k.Transpose() == m.Transpose().Transpose() == m;
    }
    if m.Cofactor() == m {
      assert IDENTITY3.Scale(m.Determinant()) == IDENTITY3;
    }
  }

  lemma ScaleOne()
    ensures forall d: real :: IDENTITY3.Scale(d) == IDENTITY3 <==> d == 1.0
  {
  }

  lemma CrossesOfColumns(p: Vec3, q: Vec3, u: Vec3, v: Vec3)
    ensures p.Cross(q).Dot(u.Cross(v)) == p.Dot(u) * q.Dot(v) - p.Dot(v) * q.Dot(u)
  {
  }

  function Minor(a: real, b: real, c: real, d: real): real {
    a * d - b * c
  }

  lemma CrossIsMinors(u: Vec3, v: Vec3)
    ensures u.Cross(v)
         == Vec3(Minor(u.y, u.z, v.y, v.z), Minor(u.z, u.x, v.z, v.x), Minor(u.x, u.y, v.x, v.y))
  {
  }

  lemma MinorTransposed(a: real, b: real, c: real, d: real)
    ensures Minor(a, b, c, d) == Minor(a, c, b, d)
  {
  }

  lemma CofactorColumns(m: Mat3)
    ensures m.Cofactor().ColX() == m.ColY().Cross(m.ColZ())
    ensures m.Cofactor().ColY() == m.ColZ().Cross(m.ColX())
    ensures m.Cofactor().ColZ() == m.ColX().Cross(m.ColY())
  {
    CrossIsMinors(m.RowY(), m.RowZ());
    CrossIsMinors(m.RowZ(), m.RowX());
    CrossIsMinors(m.RowX(), m.RowY());
    CrossIsMinors(m.ColY(), m.ColZ());
    CrossIsMinors(m.ColZ(), m.ColX());
    CrossIsMinors(m.ColX(), m.ColY());
    forall a, b, c, d
      ensures Minor(a, b, c, d) == Minor(a, c, b, d)
    {
      MinorTransposed(a, b, c, d);
    }
    hide Vec3.Cross, Minor;
  }

  lemma CofactorOfProduct(a: Mat3, b: Mat3)
    ensures a.Mul(b).Cofactor() == a.Cofactor().Mul(b.Cofactor())
  {
    CofactorColumns(b);
    CofactorRow(a.RowY(), a.RowZ(), b);
    CofactorRow(a.RowZ(), a.RowX(), b);
    CofactorRow(a.RowX(), a.RowY(), b);
    hide Vec3.Dot, Vec3.Cross;
  }

  function RowTimes(row: Vec3, b: Mat3): Vec3 {
    Vec3(row.Dot(b.ColX()), row.Dot(b.ColY()), row.Dot(b.ColZ()))
  }

  lemma CofactorRow(p: Vec3, q: Vec3, b: Mat3)
    ensures RowTimes(p, b).Cross(RowTimes(q, b)) == RowTimes(p.Cross(q), b.Cofactor())
  {
    var x, y, z := b.ColX(), b.ColY(), b.ColZ();
    CofactorColumns(b);
    CrossesOfColumns(p, q, y, z);
    CrossesOfColumns(p, q, z, x);
    CrossesOfColumns(p, q, x, y);
    CrossOf(RowTimes(p, b), RowTimes(q, b));
    hide Vec3.Dot, Vec3.Cross, Mat3.Cofactor;
  }

  lemma CrossOf(u: Vec3, v: Vec3)
    ensures u.Cross(v) == Vec3(u.y * v.z - u.z * v.y, u.z * v.x - u.x * v.z, u.x * v.y - u.y * v.x)
  {
  }

  lemma ProperTranspose(m: Mat3)
    requires Proper(m)
    ensures Proper(m.Transpose())
  {
    var t := m.Transpose();
    assert t.Transpose() == m;
    assert Orthogonal(t);
    CofactorColumns(m);
    ProperIffOwnCofactor(m);
    ProperIffOwnCofactor(t);
    assert t.RowX() == m.ColX() && t.RowY() == m.ColY() && t.RowZ() == m.ColZ();
    hide Vec3.Cross, Mat3.Determinant, Orthogonal, Mat3.Mul;
  }

  /** What is turned back by a transpose returns when turned by the same matrix again. */
  lemma BackAndForth(a: Mat3, b: Mat3)
    requires Orthogonal(b)
    ensures a.Mul(b.Transpose()).Mul(b) == a
    ensures a.Mul(b.Transpose()) == IDENTITY3 ==> a == b
  {
    MulAssociative(a, b.Transpose(), b);
    IdentityNeutral(a);
    IdentityNeutral(b);
    hide Mat3.Mul, Mat3.Transpose;
  }

  lemma ProperProduct(a: Mat3, b: Mat3)
    requires Proper(a) && Proper(b)
    ensures Proper(a.Mul(b))
  {
    OrthogonalProduct(a, b);
    ProperIffOwnCofactor(a);
    ProperIffOwnCofactor(b);
    ProperIffOwnCofactor(a.Mul(b));
    CofactorOfProduct(a, b);
    hide Mat3.Mul, Mat3.Cofactor, Mat3.Determinant, Orthogonal;
  }
}
