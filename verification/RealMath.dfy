/** Real arithmetic used throughout the model. Doubles are modelled as `real`; rounding is not modelled. */
module RealMath {

  datatype Option<+T> = None | Some(value: T)

  function Min(x: real, y: real): real {
    if y < x then y else x
  }

  function Max(x: real, y: real): real {
    if x < y then y else x
  }

  function Abs(x: real): real {
    if x < 0.0 then -x else x
  }

  /** `std::max(std::min(x, bound), -bound)`. */
  function Clamp(x: real, bound: real): real {
    Max(Min(x, bound), -bound)
  }

  /** The elementary functions of `<cmath>`. They are parameters of the model, constrained only by `Lawful`. */
  datatype MathLib = MathLib(sqrt: real -> real, sin: real -> real, cos: real -> real) {
    ghost predicate LawfulSqrt() {
      forall x :: x >= 0.0 ==> sqrt(x) >= 0.0 && sqrt(x) * sqrt(x) == x
    }

    ghost predicate LawfulTrigonometry() {
      forall x :: sin(x) * sin(x) + cos(x) * cos(x) == 1.0
    }
  }

  /** start * factor^n: the n-th term of a geometric sequence. */
  ghost function Geometric(start: real, factor: real, n: nat): real {
    if n == 0 then start else Geometric(start, factor, n - 1) * factor
  }

  lemma ProductNonnegative(x: real, y: real)
    requires x >= 0.0 && y >= 0.0
    ensures x * y >= 0.0
  {
  }

  lemma ProductPositive(x: real, y: real)
    requires x > 0.0 && y > 0.0
    ensures x * y > 0.0
  {
  }

  lemma ProductMonotone(x: real, y: real, factor: real)
    requires x <= y && factor >= 0.0
    ensures x * factor <= y * factor
  {
    ProductNonnegative(y - x, factor);
  }

  lemma SquareNonnegative(x: real)
    ensures x * x >= 0.0
  {
    if x < 0.0 { ProductNonnegative(-x, -x); }
  }

  /** On non-negative numbers, squares order as the numbers do. */
  lemma SquareOrder(x: real, y: real)
    requires x >= 0.0 && y >= 0.0
    ensures x * x <= y * y <==> x <= y
  {
    if x <= y {
      ProductNonnegative(y - x, y + x);
    } else {
      ProductPositive(x - y, x + y);
    }
  }

  /** A non-negative number is determined by its square. */
  lemma RootUnique(x: real, y: real)
    requires x >= 0.0 && y >= 0.0 && x * x == y * y
    ensures x == y
  {
    SquareOrder(x, y);
    SquareOrder(y, x);
  }
}
