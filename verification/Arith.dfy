/** Division facts used by several modules, stated so that callers need no nonlinear reasoning. */
module Arith {
  /** Quotient and remainder are unique. */
  lemma DivMod(x: int, d: int, q: int, r: int)
    requires 0 <= r < d && x == q * d + r
    ensures x / d == q && x % d == r
  {
    var q', r' := x / d, x % d;
    assert x == q' * d + r' && 0 <= r' < d;
    if q' < q {
      assert (q - q') * d == q * d - q' * d;
      MulGe(q - q', d);
    } else if q' > q {
      assert (q' - q) * d == q' * d - q * d;
      MulGe(q' - q, d);
    }
  }

  lemma MulGe(k: int, d: int)
    requires k >= 1 && d > 0
    ensures k * d >= d
  {
  }
}
