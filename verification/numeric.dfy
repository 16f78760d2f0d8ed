/** Numeric conversions the Python code performs implicitly. */
module Numeric {

  /** Conversion of a number to an integer that drops its fractional part,
      rounding toward zero: Python's `int(x)` on a float, and the cast
      numpy applies when a float is stored into an `int32` array. */
  function TruncateTowardZero(x: real): (n: int)
    ensures 0.0 <= x ==> 0 <= n && n as real <= x < n as real + 1.0
    ensures x < 0.0 ==> n <= 0 && n as real - 1.0 < x <= n as real
  {
    if x >= 0.0 then x.Floor else -((-x).Floor)
  }

  /** Truncation keeps integers unchanged. */
  lemma TruncateIntegral(k: int)
    ensures TruncateTowardZero(k as real) == k
  {
  }
}
