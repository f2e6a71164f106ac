/** numpy's `round`, on exact reals: round half to even, at a number of
    decimal places. */
module Rounding {

  /** The nearest integer, with ties going to the even neighbour. */
  function RoundHalfEven(x: real): (n: int)
    ensures n as real - 0.5 <= x <= n as real + 0.5
    ensures (x == n as real - 0.5 || x == n as real + 0.5) ==> n % 2 == 0
  {
    var f := x.Floor;
    var frac := x - f as real;
    if frac < 0.5 then f
    else if frac > 0.5 then f + 1
    else if f % 2 == 0 then f else f + 1
  }

  /** The two properties above pin the rounded value down: no other integer
      has them. */
  lemma RoundHalfEvenUnique(x: real, m: int)
    requires m as real - 0.5 <= x <= m as real + 0.5
    requires (x == m as real - 0.5 || x == m as real + 0.5) ==> m % 2 == 0
    ensures RoundHalfEven(x) == m
  {
  }

  function Pow10(digits: nat): (p: nat)
    ensures p >= 1
  {
    if digits == 0 then 1 else 10 * Pow10(digits - 1)
  }

  /** `x` in units of `10^-digits`, rounded half to even. */
  function Units(x: real, digits: nat): (n: int)
    ensures x * Pow10(digits) as real - 0.5 <= n as real <= x * Pow10(digits) as real + 0.5
  {
    RoundHalfEven(x * Pow10(digits) as real)
  }

  /** `round(x, digits)`: a whole number of units `10^-digits`, at most half
      a unit away from `x`. */
  function RoundTo(x: real, digits: nat): (r: real)
    ensures r * Pow10(digits) as real == Units(x, digits) as real
    ensures x - 0.5 / Pow10(digits) as real <= r <= x + 0.5 / Pow10(digits) as real
  {
    var p := Pow10(digits) as real;
    var n := Units(x, digits) as real;
    ScaleBack(x, n, p);
    n / p
  }

  lemma ScaleBack(x: real, n: real, p: real)
    requires p >= 1.0
    requires x * p - 0.5 <= n <= x * p + 0.5
    ensures n / p * p == n
    ensures x - 0.5 / p <= n / p <= x + 0.5 / p
  {
    assert (x * p - 0.5) / p == x - 0.5 / p;
    assert (x * p + 0.5) / p == x + 0.5 / p;
  }

  /** Rounding leaves a whole number unchanged at every precision. */
  lemma RoundToWhole(k: int, digits: nat)
    ensures RoundTo(k as real, digits) == k as real
  {
    var p := Pow10(digits) as real;
    var r := RoundTo(k as real, digits);
    UnitsOfWhole(k, digits);
    assert r * p == k as real * p;
    CancelFactor(r, k as real, p);
  }

  /** A whole number is a whole number of units at every precision. */
  lemma UnitsOfWhole(k: int, digits: nat)
    ensures Units(k as real, digits) as real == k as real * Pow10(digits) as real
  {
    var p := Pow10(digits);
    var x := k as real * p as real;
    RealProduct(k, p);
    assert x == (k * p) as real;
    RoundHalfEvenUnique(x, k * p);
    assert Units(k as real, digits) == RoundHalfEven(x) == k * p;
  }

  lemma RealProduct(k: int, p: int)
    ensures k as real * p as real == (k * p) as real
  {
  }

  lemma CancelFactor(a: real, b: real, p: real)
    requires p != 0.0 && a * p == b * p
    ensures a == b
  {
    assert (a - b) * p == 0.0;
  }
}
