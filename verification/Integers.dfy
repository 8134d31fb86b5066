/** Integer facts that several modules use. */
module Integers {

  function Min(a: int, b: int): int {
    if a < b then a else b
  }

  lemma MultiplyLessEqual(a: nat, b: nat, c: nat)
    requires a <= b
    ensures a * c <= b * c
  {
    assert (b - a) * c >= 0;
  }

  /** A quotient and a remainder in range are those of the division. */
  lemma QuotientUnique(x: int, c: nat, q: int, r: int)
    requires c > 0 && 0 <= r < c && x == c * q + r
    ensures x / c == q && x % c == r
  {
    var d := x / c - q;
    assert c * d == r - x % c;
    assert d >= 1 ==> c * d >= c;
    assert d <= -1 ==> c * d <= -1 * c;
  }
}
