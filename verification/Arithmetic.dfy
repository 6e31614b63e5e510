/** The few facts of arithmetic that the protocol arithmetic needs. */
module Arithmetic {
  lemma Residue(n: nat, q: nat, m: nat, r: nat)
    requires r < m && n == q * m + r
    ensures n % m == r
  {
    SameQuotient(n / m, n % m, q, r, m);
  }

  lemma SameQuotient(d: int, e: int, q: int, r: int, m: int)
    requires 0 <= e < m && 0 <= r < m && d * m + e == q * m + r
    ensures d == q && e == r
  {
    assert (d - q) * m == r - e;
    assert d - q >= 1 ==> (d - q) * m >= m;
    assert d - q <= -1 ==> (d - q) * m <= -m;
  }

  /** One more decimal digit behind a split number. */
  lemma Shifted(whole: nat, front: nat, power: nat, back: nat, digit: nat)
    requires whole == front * power + back
    ensures whole * 10 + digit == front * (10 * power) + (back * 10 + digit)
  {
  }
}
