/** Arithmetic on reals, and the product facts the numeric proofs rest on. */
module Reals {

  function Abs(v: real): real {
    if v < 0.0 then -v else v
  }

  function Max(a: real, b: real): real {
    if a < b then b else a
  }

  function Clamp(v: real, low: real, high: real): real {
    if v < low then low else if v > high then high else v
  }

  lemma ProductKeepsOrder(f: real, a: real, b: real)
    requires 0.0 <= f && a <= b
    ensures f * a <= f * b
  {
    assert f * (b - a) >= 0.0;
  }

  lemma ProductSign(f: real, d: real)
    requires 0.0 <= f
    ensures if d >= 0.0 then f * d >= 0.0 else f * d <= 0.0
  {
    if d >= 0.0 {
      ProductKeepsOrder(f, 0.0, d);
    } else {
      ProductKeepsOrder(f, d, 0.0);
    }
  }

  lemma SquareIsNonNegative(a: real)
    ensures a * a >= 0.0
  {
    if a >= 0.0 {
      ProductKeepsOrder(a, 0.0, a);
    } else {
      ProductKeepsOrder(-a, 0.0, -a);
    }
  }
}
