/** Decimal rounding as Python's round() does it on the exact value: half to even. */
module Rounding {
  function RoundHalfEven(x: real): int {
    var floor := x.Floor;
    var rest := x - floor as real;
    if rest < 0.5 || (rest == 0.5 && floor % 2 == 0) then floor else floor + 1
  }

  /** round(x, 6) */
  function Round6(x: real): real {
    RoundHalfEven(x * 1_000_000.0) as real / 1_000_000.0
  }

  /** round(x, 9) */
  function Round9(x: real): real {
    RoundHalfEven(x * 1_000_000_000.0) as real / 1_000_000_000.0
  }

  /** A whole number stays, and a value between two goes to the nearer, or to the even one. */
  lemma HalfEvenNearest(n: int, rest: real)
    requires 0.0 <= rest < 1.0
    ensures RoundHalfEven(n as real + rest) ==
              if rest < 0.5 then n else if rest > 0.5 then n + 1 else if n % 2 == 0 then n else n + 1
  {
  }

  /** Rounding moves a value by at most half a unit of the sixth decimal. */
  lemma Round6Error(x: real)
    ensures -0.0000005 <= Round6(x) - x <= 0.0000005
  {
    var n := RoundHalfEven(x * 1_000_000.0);
    assert -0.5 <= n as real - x * 1_000_000.0 <= 0.5;
  }

  /** And to nine decimals, of the ninth. */
  lemma Round9Error(x: real)
    ensures -0.0000000005 <= Round9(x) - x <= 0.0000000005
  {
    var n := RoundHalfEven(x * 1_000_000_000.0);
    assert -0.5 <= n as real - x * 1_000_000_000.0 <= 0.5;
  }

  lemma HalfEvenBetween(x: real, low: int, high: int)
    requires low as real <= x <= high as real
    ensures low <= RoundHalfEven(x) <= high
  {
  }

  /** Rounding does not leave a range between whole numbers. */
  lemma Round6Between(x: real, low: int, high: int)
    requires low as real <= x <= high as real
    ensures low as real <= Round6(x) <= high as real
  {
    HalfEvenBetween(x * 1_000_000.0, low * 1_000_000, high * 1_000_000);
  }

  lemma ProductOrder(x: real, y: real, factor: real)
    requires factor > 0.0
    ensures x <= y ==> x * factor <= y * factor
    ensures x < y ==> x * factor < y * factor
  {
  }

  /** The whole steps of a resolution that fit a value. */
  lemma WholeSteps(value: real, resolution: real)
    requires resolution > 0.0
    ensures value - resolution < (value / resolution).Floor as real * resolution <= value
  {
    var quotient := value / resolution;
    var steps := quotient.Floor as real;
    assert quotient * resolution == value;
    ProductOrder(steps, quotient, resolution);
    ProductOrder(quotient, steps + 1.0, resolution);
    assert (steps + 1.0) * resolution == steps * resolution + resolution;
  }

  /** The nearest multiple of a resolution is at most half of it away. */
  lemma NearestStep(value: real, resolution: real, nearest: int)
    requires resolution > 0.0 && nearest == RoundHalfEven(value / resolution)
    ensures -resolution / 2.0 <= nearest as real * resolution - value <= resolution / 2.0
  {
    HalfEvenNear(value / resolution, nearest);
    Scaled(value, value / resolution, nearest as real, resolution);
  }

  lemma Scaled(value: real, x: real, y: real, factor: real)
    requires factor > 0.0 && x * factor == value && x - 0.5 <= y <= x + 0.5
    ensures -factor / 2.0 <= y * factor - value <= factor / 2.0
  {
    ProductOrder(x - 0.5, y, factor);
    ProductOrder(y, x + 0.5, factor);
    Distribute(x, factor);
    assert (x - 0.5) * factor <= y * factor <= (x + 0.5) * factor;
  }

  lemma HalfEvenNear(x: real, nearest: int)
    requires nearest == RoundHalfEven(x)
    ensures x - 0.5 <= nearest as real <= x + 0.5
  {
  }

  lemma Distribute(x: real, factor: real)
    ensures (x - 0.5) * factor == x * factor - factor / 2.0
    ensures (x + 0.5) * factor == x * factor + factor / 2.0
  {
  }
}
