/** Integer idealisation of the two float roundings the frontend performs:
    `Math.round(x)` and `Number.prototype.toFixed`. For a non-negative
    quotient both round to the nearest integer and break ties upward. */
module Rounding {

  /** The integer nearest to `n / d`, ties rounded up. */
  function RoundHalfUp(n: nat, d: nat): (r: nat)
    requires d > 0
    ensures -(d as int) <= 2 * (n - r * d) < d
  {
    (2 * n + d) / (2 * d)
  }

  /** There is only one integer within half a unit of `n / d` (ties up),
      so the bracket in RoundHalfUp's contract determines it. */
  lemma RoundHalfUpUnique(n: nat, d: nat, k: int)
    requires d > 0
    requires -(d as int) <= 2 * (n - k * d) < d
    ensures k == RoundHalfUp(n, d)
  {
    var r := RoundHalfUp(n, d);
    if k < r {
      MulMono(k + 1, r, d);
    } else if r < k {
      MulMono(r + 1, k, d);
    }
  }

  lemma MulMono(a: int, b: int, d: nat)
    requires a <= b
    ensures a * d <= b * d
  {
  }
}
