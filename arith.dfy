/** Integer division facts shared by the time computations. */
module Arith {

  lemma MulAtLeast(x: int, b: int)
    requires x >= 1 && b > 0
    ensures x * b >= b
  {
    assert x * b == (x - 1) * b + b;
    assert (x - 1) * b >= 0;
  }

  /** Quotient and remainder are the only pair that rebuilds `n` with `0 <= r < b`. */
  lemma DivModUnique(n: int, b: int, q: int, r: int)
    requires b > 0 && 0 <= r < b && n == q * b + r
    ensures n / b == q && n % b == r
  {
    var q', r' := n / b, n % b;
    assert n == q' * b + r' && 0 <= r' < b;
    assert q * b - q' * b == (q - q') * b;
    if q > q' {
      MulAtLeast(q - q', b);
    } else if q < q' {
      assert q' * b - q * b == (q' - q) * b;
      MulAtLeast(q' - q, b);
    }
  }
}
