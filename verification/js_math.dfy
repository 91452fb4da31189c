/** The two pieces of JavaScript number arithmetic the engine relies on,
    over exact reals: `Math.round` and `Math.max` of a length and 1. */
module JsMath {

  /** `Math.round`: the nearest integer, halves rounded towards +infinity. */
  function Round(x: real): (n: int)
    ensures x - 0.5 < n as real <= x + 0.5
  {
    (x + 0.5).Floor
  }

  /** Rounding never leaves an integer interval that contains its argument. */
  lemma RoundWithin(x: real, lo: int, hi: int)
    requires lo as real <= x <= hi as real
    ensures lo <= Round(x) <= hi
  {
  }

  /** An integral value rounds to itself. */
  lemma RoundOfInt(n: int)
    ensures Round(n as real) == n
  {
  }

  /** `Math.max(n, 1)`: the denominator guard that keeps an empty list from
      dividing by zero. */
  function AtLeastOne(n: nat): (d: nat)
    ensures d >= 1 && d >= n
    ensures n >= 1 ==> d == n
  {
    if n >= 1 then n else 1
  }
}
