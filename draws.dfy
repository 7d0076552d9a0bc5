/** The values `Math.random()` returns, injected as draws, and the two facts
    about scaling a draw that the snow and dune ranges rest on. */
module Draws {

  /** A value `Math.random()` can return. */
  predicate IsDraw(r: real) {
    0.0 <= r < 1.0
  }

  /** A draw scaling a positive bound `k` lands in [0, k). */
  lemma ScaledBelow(r: real, k: real, c: real)
    requires IsDraw(r) && k > 0.0 && c == r * k
    ensures 0.0 <= c < k
  {
  }

  /** A value that scales a positive bound `k` to some `v` below `k` is
      below 1. */
  lemma BelowOne(q: real, k: real, v: real)
    requires k > 0.0 && v < k && q * k == v
    ensures q < 1.0
  {
  }
}
