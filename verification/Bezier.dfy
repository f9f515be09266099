/** Solving a cubic Bezier easing curve for its progress, with a bound on the error. */
module Bezier {
  import opened Reals

  /** One coordinate of the curve from 0 to 1 with inner control values `p1` and `p2`. */
  function At(p1: real, p2: real, t: real): real {
    var c := 3.0 * p1;
    var b := 3.0 * (p2 - p1) - c;
    var a := 1.0 - c - b;
    ((a * t + b) * t + c) * t
  }

  function Slope(p1: real, p2: real, t: real): real {
    var c := 3.0 * p1;
    var b := 3.0 * (p2 - p1) - c;
    var a := 1.0 - c - b;
    (3.0 * a * t + 2.0 * b) * t + c
  }

  /** The cubic Bezier polynomial, and its derivative: what is left of a step is of the second order. */
  lemma AtIsCubicBezier(p1: real, p2: real, t: real, h: real)
    ensures var u := 1.0 - t;
            At(p1, p2, t) == 3.0 * (u * u * t) * p1 + 3.0 * (u * t * t) * p2 + t * t * t
    ensures var a, b := 1.0 - 3.0 * (p2 - p1), 3.0 * (p2 - p1) - 3.0 * p1;
            At(p1, p2, t + h) - At(p1, p2, t) - Slope(p1, p2, t) * h == h * h * (3.0 * a * t + b + a * h)
  {
  }

  // Between two parameters the curve rises by at most three times their distance, and never falls

  /** The quotient (At(t) - At(s)) / (t - s), written with the sum and the complete square sum of the parameters. */
  ghost function Quotient(p1: real, p2: real, p: real, q: real): real {
    p1 * (3.0 * (1.0 - 2.0 * p + q)) + p2 * (3.0 * (p - q)) + q
  }

  lemma SquareSumParts(s: real, t: real)
    requires 0.0 <= s <= 1.0 && 0.0 <= t <= 1.0
    ensures s * s <= s && t * t <= t && 2.0 * (s * t) <= s * s + t * t
  {
    ProductKeepsOrder(s, s, 1.0);
    ProductKeepsOrder(t, t, 1.0);
    SquareIsNonNegative(s - t);
  }

  lemma SquareSumAbove(s: real, t: real)
    requires 0.0 <= s <= 1.0 && 0.0 <= t <= 1.0
    ensures 2.0 * (s * s + s * t + t * t) <= 3.0 * (s + t)
  {
    SquareSumParts(s, t);
    var a, b, c := s * s, s * t, t * t;
    assert a <= s && c <= t && 2.0 * b <= a + c;
  }

  lemma SquareSumBelow(s: real, t: real)
    requires 0.0 <= s && 0.0 <= t
    ensures 0.0 <= s * s + s * t + t * t && 3.0 * ((s + t) * (s + t)) <= 4.0 * (s * s + s * t + t * t)
  {
    SquareIsNonNegative(s - t);
    SquareIsNonNegative(s);
    SquareIsNonNegative(t);
    ProductKeepsOrder(s, 0.0, t);
    var a, b, c := s * s, s * t, t * t;
    assert (s + t) * (s + t) == a + 2.0 * b + c && (s - t) * (s - t) == a - 2.0 * b + c;
  }

  lemma Between(f: real, a: real, d: real, low: real, high: real)
    requires 0.0 <= f <= 1.0 && low <= a <= high && low <= a + d <= high
    ensures low <= a + f * d <= high
  {
    ProductSign(f, d);
    ProductSign(1.0 - f, d);
    assert (1.0 - f) * d == d - f * d;
  }

  /** A value that is affine in each control stays within bounds that hold at the four corners. */
  lemma CornersBound(p1: real, p2: real, a: real, b: real, q: real, low: real, high: real)
    requires 0.0 <= p1 <= 1.0 && 0.0 <= p2 <= 1.0
    requires low <= q <= high && low <= a + q <= high && low <= b + q <= high && low <= a + b + q <= high
    ensures low <= p1 * a + p2 * b + q <= high
  {
    Between(p2, q, b, low, high);
    Between(p2, a + q, b, low, high);
    Between(p1, q + p2 * b, a, low, high);
  }

  lemma QuotientBounds(p1: real, p2: real, s: real, t: real)
    requires 0.0 <= p1 <= 1.0 && 0.0 <= p2 <= 1.0 && 0.0 <= s <= 1.0 && 0.0 <= t <= 1.0
    ensures 0.0 <= Quotient(p1, p2, s + t, s * s + s * t + t * t) <= 3.0
  {
    var p, q := s + t, s * s + s * t + t * t;
    SquareSumAbove(s, t);
    SquareSumBelow(s, t);
    var r := p * p;
    assert (1.0 - p) * (1.0 - p) == 1.0 - 2.0 * p + r;
    assert (2.0 - p) * (2.0 - p) == 4.0 - 4.0 * p + r;
    SquareIsNonNegative(1.0 - p);
    SquareIsNonNegative(2.0 - p);
    CornersBound(p1, p2, 3.0 * (1.0 - 2.0 * p + q), 3.0 * (p - q), q, 0.0, 3.0);
  }

  lemma Scaled(distance: real, quotient: real, rise: real)
    requires 0.0 <= distance && 0.0 <= quotient <= 3.0 && rise == distance * quotient
    ensures 0.0 <= rise <= 3.0 * distance
  {
    ProductKeepsOrder(distance, quotient, 3.0);
  }

  /** With control values in the unit interval a coordinate never decreases and is 3-Lipschitz. */
  lemma RisesSlowly(p1: real, p2: real, s: real, t: real)
    requires 0.0 <= p1 <= 1.0 && 0.0 <= p2 <= 1.0 && 0.0 <= s <= t <= 1.0
    ensures At(p1, p2, s) <= At(p1, p2, t) <= At(p1, p2, s) + 3.0 * (t - s)
  {
    var quotient := Quotient(p1, p2, s + t, s * s + s * t + t * t);
    var rise := At(p1, p2, t) - At(p1, p2, s);
    assert rise == (t - s) * quotient by {
    }
    QuotientBounds(p1, p2, s, t);
    Scaled(t - s, quotient, rise);
  }

  // The solver

  const CLOSE := 0.0000001
  const FLAT := 0.000001

  /** The curve's height at a parameter whose horizontal position is within `error` of `x`. */
  ghost predicate SolvedAt(x1: real, y1: real, x2: real, y2: real, x: real, y: real, error: real, t: real) {
    0.0 <= t <= 1.0 && y == At(y1, y2, t) && Abs(At(x1, x2, t) - x) <= error
  }

  ghost predicate Solves(x1: real, y1: real, x2: real, y2: real, x: real, y: real, error: real) {
    exists t :: SolvedAt(x1, y1, x2, y2, x, y, error, t)
  }

  /** Newton's method, which gives up where the curve is flat or a step would leave the unit interval. */
  method Newton(p1: real, p2: real, x: real) returns (found: bool, t: real)
    requires 0.0 < x < 1.0
    ensures found ==> 0.0 <= t <= 1.0 && Abs(At(p1, p2, t) - x) < CLOSE
  {
    t := x;
    for i := 0 to 8
      invariant 0.0 <= t <= 1.0
    {
      var error := At(p1, p2, t) - x;
      if Abs(error) < CLOSE {
        return true, t;
      }
      var slope := Slope(p1, p2, t);
      if Abs(slope) < FLAT {
        break;
      }
      var next := t - error / slope;
      if next < 0.0 || next > 1.0 {
        break;
      }
      t := next;
    }
    return false, t;
  }

  ghost function Width(halvings: nat): real {
    if halvings == 0 then 2.0 else Width(halvings - 1) / 2.0
  }

  /** Bisection: keeps the solution between two parameters and halves their distance. */
  method Bisect(p1: real, p2: real, x: real) returns (t: real)
    requires 0.0 <= p1 <= 1.0 && 0.0 <= p2 <= 1.0 && 0.0 < x < 1.0
    ensures 0.0 <= t <= 1.0 && Abs(At(p1, p2, t) - x) <= 3.0 / 4096.0
  {
    var low, high := 0.0, 1.0;
    t := x;
    for i := 0 to 12
      invariant 0.0 <= low <= t <= high <= 1.0
      invariant At(p1, p2, low) <= x <= At(p1, p2, high)
      invariant high - low <= Width(i)
      invariant i > 0 ==> t - low == high - t
    {
      var guess := At(p1, p2, t);
      if Abs(guess - x) < CLOSE {
        return;
      }
      if x > guess {
        low := t;
      } else {
        high := t;
      }
      t := 0.5 * (low + high);
    }
    assert Width(12) == 2.0 / 4096.0;
    RisesSlowly(p1, p2, low, t);
    RisesSlowly(p1, p2, t, high);
  }

  /** `solveCubicBezier`: whatever the control points, the height at a parameter that is right to within 3/4096, and
      exactly 0 or 1 outside the open unit interval. */
  method SolveCubicBezier(x1: real, y1: real, x2: real, y2: real, x: real) returns (y: real)
    ensures x <= 0.0 ==> y == 0.0
    ensures x >= 1.0 ==> y == 1.0
    ensures 0.0 < x < 1.0 ==> Solves(Clamp(x1, 0.0, 1.0), y1, Clamp(x2, 0.0, 1.0), y2, x, y, 3.0 / 4096.0)
    ensures 0.0 <= y1 <= 1.0 && 0.0 <= y2 <= 1.0 ==> 0.0 <= y <= 1.0
  {
    if x <= 0.0 {
      return 0.0;
    }
    if x >= 1.0 {
      return 1.0;
    }
    var p1, p2 := Clamp(x1, 0.0, 1.0), Clamp(x2, 0.0, 1.0);
    var found, t := Newton(p1, p2, x);
    if !found {
      t := Bisect(p1, p2, x);
    }
    y := At(y1, y2, t);
    assert SolvedAt(p1, y1, p2, y2, x, y, 3.0 / 4096.0, t);
    if 0.0 <= y1 <= 1.0 && 0.0 <= y2 <= 1.0 {
      RisesSlowly(y1, y2, 0.0, t);
      RisesSlowly(y1, y2, t, 1.0);
    }
  }
}
