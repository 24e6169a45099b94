/** Exact real arithmetic the solver does not find by itself. */
module Reals {
  lemma NonNegativeProduct(x: real, y: real)
    requires x >= 0.0 && y >= 0.0
    ensures x * y >= 0.0
  {
  }
}
