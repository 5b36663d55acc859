/**
  Rounding to the nearest integer with ties to the even neighbour. Python's
  round() (plugin_layer.py) and C's "%.3f" (telemetry_server.c) both use it.
 */
module Rounding {

  /** n is at distance at most one half from x, and is even when the distance is exactly one half. */
  predicate IsNearestEven(x: real, n: int) {
    && -0.5 <= x - n as real <= 0.5
    && (x - n as real == 0.5 || x - n as real == -0.5 ==> n % 2 == 0)
  }

  function RoundHalfEven(x: real): (n: int)
    ensures IsNearestEven(x, n)
  {
    var low := x.Floor;
    var rest := x - low as real;
    if rest < 0.5 then low
    else if rest > 0.5 then low + 1
    else if low % 2 == 0 then low
    else low + 1
  }

  /** The description has only one solution, so it defines the rounding. */
  lemma NearestEvenUnique(x: real, m: int, n: int)
    requires IsNearestEven(x, m) && IsNearestEven(x, n)
    ensures m == n
  {
    assert -1.0 <= (m - n) as real <= 1.0;
  }

  lemma RoundMonotone(x: real, y: real)
    requires x <= y
    ensures RoundHalfEven(x) <= RoundHalfEven(y)
  {
    var m, n := RoundHalfEven(x), RoundHalfEven(y);
    assert (m - n) as real <= 1.0;
    if x == y {
      NearestEvenUnique(x, m, n);
    }
  }

  lemma RoundInteger(n: int)
    ensures RoundHalfEven(n as real) == n
  {
    NearestEvenUnique(n as real, RoundHalfEven(n as real), n);
  }

  lemma RoundNegates(x: real)
    ensures RoundHalfEven(-x) == -RoundHalfEven(x)
  {
    NearestEvenUnique(-x, RoundHalfEven(-x), -RoundHalfEven(x));
  }
}
