/** Python's rounding of numbers to whole ones. */
module Rounding {
  /** Rounds to nearest, halves to even, as Python's round. */
  function Round(r: real): (n: int)
    ensures -0.5 <= n as real - r <= 0.5
    ensures n as real - r == 0.5 || n as real - r == -0.5 ==> n % 2 == 0
  {
    var f := (r + 0.5).Floor;
    if f as real == r + 0.5 && f % 2 != 0 then f - 1 else f
  }

  /** n is a whole number nearest to r, the even one of two. */
  predicate IsRounded(n: int, r: real) {
    -0.5 <= n as real - r <= 0.5 && (n as real - r == 0.5 || n as real - r == -0.5 ==> n % 2 == 0)
  }

  /** There is one such number, which is the rounded one. */
  lemma RoundIs(r: real, n: int)
    ensures IsRounded(n, r) <==> n == Round(r)
  {
  }

  lemma RoundWhole(n: int)
    ensures Round(n as real) == n
  {
  }

  /** Cuts towards zero, as Python's int. */
  function Truncated(r: real): (n: int)
    ensures r >= 0.0 ==> 0 <= n && n as real <= r < n as real + 1.0
    ensures r < 0.0 ==> n <= 0 && n as real - 1.0 < r <= n as real
  {
    if r >= 0.0 then r.Floor else -((-r).Floor)
  }

  function Ceiling(r: real): (n: int)
    ensures n as real - 1.0 < r <= n as real
  {
    -((-r).Floor)
  }
}
