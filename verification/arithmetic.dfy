/** Facts about integer division used by the wrapping and pagination proofs. */
module Arithmetic {

  /** A quotient and remainder pair pins down `x / n` and `x % n`. */
  lemma DivModUnique(x: int, n: int, q: int, r: int)
    requires n > 0 && x == q * n + r && 0 <= r < n
    ensures x / n == q && x % n == r
  {
    var q0, r0 := x / n, x % n;
    assert x == q0 * n + r0;
    if q0 < q {
      MulMonotone(q0 + 1, q, n);
    } else if q0 > q {
      MulMonotone(q + 1, q0, n);
    }
  }

  lemma MulMonotone(a: int, b: int, n: int)
    requires a <= b && n >= 0
    ensures a * n <= b * n
  {
  }

  /** Adding one divisor to the dividend adds one to the quotient. */
  lemma DivAddDivisor(x: int, n: int)
    requires n > 0
    ensures (x + n) / n == x / n + 1
  {
    DivModUnique(x + n, n, x / n + 1, x % n);
  }
}
