/** Rounding up, and proportions of a real number. */
module Rounding {
  function Ceil(x: real): int {
    -(-x).Floor
  }

  lemma CeilBounds(x: real, n: int)
    ensures x <= n as real <==> Ceil(x) <= n
  {
  }

  lemma Scaled(n: real, p: real)
    requires n >= 0.0 && 0.0 < p < 1.0
    ensures 0.0 <= n * p <= n
    ensures n > 0.0 ==> n * p > 0.0
    ensures n > 0.0 ==> n * p < n
  {
    if n > 0.0 {
      assert n * (1.0 - p) > 0.0;
    }
  }
}
