// JavaScript's Math.round on exact reals: the nearest integer, halves rounded
// towards positive infinity (so Round(-2.5) == -2 and Round(2.5) == 3).
module JsMath {

  function Round(x: real): (r: int)
    ensures x - 0.5 < r as real <= x + 0.5
  {
    (x + 0.5).Floor
  }

  /** Round is determined by the half-open window its result must lie in. */
  lemma RoundUnique(x: real, n: int)
    requires x - 0.5 < n as real <= x + 0.5
    ensures Round(x) == n
  {
  }
}
