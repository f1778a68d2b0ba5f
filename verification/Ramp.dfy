/** The normalised speed-up polynomial of the point-to-point motion on the unit interval. */
module Ramp {
  import opened RealMath

  /** Distance covered after a fraction x of the speed-up time, in units of final speed times that time. */
  function Distance(x: real): real {
    x * x * x - 0.5 * (x * x * x * x)
  }

  /** Speed reached after a fraction x of the speed-up time, in units of the final speed. */
  function Speed(x: real): real {
    3.0 * (x * x) - 2.0 * (x * x * x)
  }

  ghost predicate Unit(x: real) {
    0.0 <= x <= 1.0
  }

  /** Speeding up and slowing down are mirror images. */
  lemma Mirror(x: real)
    ensures x - Distance(x) == 0.5 - Distance(1.0 - x)
    ensures Speed(1.0 - x) == 1.0 - Speed(x)
  {
  }

  lemma EndPoints()
    ensures Distance(0.0) == 0.0 && Distance(1.0) == 0.5
    ensures Speed(0.0) == 0.0 && Speed(1.0) == 1.0
  {
  }

  /** Between two fractions the mean speed is at least the first speed. */
  lemma MeanSpeedLow(x: real, y: real)
    requires Unit(x) && Unit(y) && x <= y
    ensures Speed(x) * (y - x) <= Distance(y) - Distance(x)
  {
    hide Speed, Distance, Rest, Unit;
    MeanSpeedIdentity(x, y);
    RestNonnegative(x, y);
  }

  lemma MeanSpeedIdentity(x: real, y: real)
    ensures Distance(y) - Distance(x) - Speed(x) * (y - x) == Rest(x, y)
  {
  }

  /** How far the mean speed exceeds the first speed, in distance. */
  function Rest(x: real, y: real): real {
    (y - x) * (y - x) * (y * (1.0 - y) + 0.5 * ((y - x) * (y - x)) + 2.0 * (x * (1.0 - x)))
  }

  lemma RestNonnegative(x: real, y: real)
    requires Unit(x) && Unit(y)
    ensures Rest(x, y) >= 0.0
  {
    ProductNonnegative(y, 1.0 - y);
    ProductNonnegative(x, 1.0 - x);
    SquareNonnegative(y - x);
    var p, q := (y - x) * (y - x), y * (1.0 - y) + 0.5 * ((y - x) * (y - x)) + 2.0 * (x * (1.0 - x));
    assert p >= 0.0 && q >= 0.0;
    ProductNonnegative(p, q);
  }

  /** Between two fractions the mean speed lies between the two speeds. */
  lemma MeanSpeed(x: real, y: real, w: real)
    requires Unit(x) && Unit(y) && 0.0 <= w == y - x
    ensures Speed(x) * w <= Distance(y) - Distance(x) <= Speed(y) * w
  {
    hide Speed, Distance;
    MeanSpeedLow(x, y);
    MeanSpeedLow(1.0 - y, 1.0 - x);
    Mirror(x);
    Mirror(y);
    Complement(Speed(y), y - x);
  }

  lemma Complement(s: real, d: real)
    ensures (1.0 - s) * d == d - s * d
  {
  }

  /** The speed rises, at a rate of at most 1.5. */
  lemma SpeedRises(x: real, y: real)
    requires Unit(x) && Unit(y) && x <= y
    ensures 0.0 <= Speed(y) - Speed(x) <= 1.5 * (y - x)
  {
    var low := 2.0 * (x * (1.0 - x)) + 2.0 * (y * (1.0 - y)) + x * (1.0 - y) + y * (1.0 - x);
    var high := 1.5 * ((1.0 - x - y) * (1.0 - x - y)) + 0.5 * ((x - y) * (x - y));
    ProductNonnegative(x, 1.0 - x);
    ProductNonnegative(y, 1.0 - y);
    ProductNonnegative(x, 1.0 - y);
    ProductNonnegative(y, 1.0 - x);
    SquareNonnegative(1.0 - x - y);
    SquareNonnegative(x - y);
    ProductNonnegative(y - x, low);
    ProductNonnegative(y - x, high);
    SpeedIdentity(x, y);
    hide Speed;
  }

  lemma SpeedIdentity(x: real, y: real)
    ensures Speed(y) - Speed(x)
         == (y - x) * (2.0 * (x * (1.0 - x)) + 2.0 * (y * (1.0 - y)) + x * (1.0 - y) + y * (1.0 - x))
    ensures 1.5 * (y - x) - (Speed(y) - Speed(x))
         == (y - x) * (1.5 * ((1.0 - x - y) * (1.0 - x - y)) + 0.5 * ((x - y) * (x - y)))
  {
  }

  lemma SpeedIsUnit(x: real)
    requires Unit(x)
    ensures Unit(Speed(x))
  {
    hide Speed;
    EndPoints();
    SpeedRises(0.0, x);
    SpeedRises(x, 1.0);
  }
}
