/** Multiples and remainders. */
module Arithmetic {

  lemma NotNegative(i: int, d: int)
    requires d > 0
    ensures i >= 0 ==> i * d >= 0
  {
  }

  lemma Multiples(i: int, j: int, d: int)
    requires d > 0
    ensures i <= j ==> i * d <= j * d
    ensures i > j ==> i * d >= j * d + d
  {
    assert j * d - i * d == (j - i) * d;
    NotNegative(j - i, d);
    NotNegative(i - j - 1, d);
    assert (i - j - 1) * d == i * d - j * d - d;
  }

  /** Quotient and remainder are what they must be. */
  lemma Quotient(a: int, d: int, i: int, r: int)
    requires d > 0 && a == i * d + r && 0 <= r < d
    ensures a / d == i && a % d == r
  {
    var j, t := a / d, a % d;
    assert a == j * d + t;
    Multiples(i, j, d);
    Multiples(j, i, d);
    assert !(i > j) && !(j > i);
  }
}
