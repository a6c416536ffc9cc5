/** The little non-linear arithmetic the rotation proofs share. */
module Arithmetic {
  lemma MultipleIsFar(d: int, n: int)
    requires n >= 0
    ensures d >= 1 ==> d * n >= n
    ensures d <= -1 ==> d * n <= -n
  {
  }

  /** A quotient and a remainder below the divisor are the only ones. */
  lemma DivModUnique(x: int, n: int, q: int, r: int)
    requires 0 <= r < n && x == q * n + r
    ensures x / n == q && x % n == r
  {
    var d := q - x / n;
    assert d * n == q * n - x / n * n;
    MultipleIsFar(d, n);
  }

  lemma FullTurn(x: int, n: int)
    requires n > 0
    ensures (x + n) % n == x % n
    ensures (x + n) / n == x / n + 1
  {
    assert (x / n + 1) * n == x / n * n + n;
    DivModUnique(x + n, n, x / n + 1, x % n);
  }
}
