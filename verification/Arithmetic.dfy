/** Integer division, where the solver needs help. */
module Arithmetic {

  /** A quotient and a remainder in range are the quotient and the remainder. */
  lemma DivisionUnique(m: int, n: nat, q: int, r: nat)
    requires n > 0 && m == q * n + r && r < n
    ensures m % n == r && m / n == q
  {
    var d := m / n - q;
    assert d * n == r - m % n;
    assert d == 0;
  }
}
