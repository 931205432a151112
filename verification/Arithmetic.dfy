/** Multiplication and division: C's own, and what the proofs need of them. */
module Arithmetic {

  /** C's division of an `int` by a positive one truncates toward zero. */
  function TruncDiv(a: int, b: int): int
    requires b > 0
  {
    if a >= 0 then a / b else -((-a) / b)
  }

  function Power10(k: nat): (p: int)
    ensures p > 0
  {
    if k == 0 then 1 else 10 * Power10(k - 1)
  }

  lemma ProductSign(n: int, d: int)
    requires n > 0
    ensures d >= 1 ==> n * d >= n
    ensures d <= -1 ==> n * d <= -n
  {
  }

  lemma QuotientIs(x: int, n: int, q: int, r: int)
    requires n > 0 && x == n * q + r && 0 <= r < n
    ensures x / n == q && x % n == r
  {
    assert x == n * (x / n) + x % n;
    assert n * (q - x / n) == x % n - r;
    ProductSign(n, q - x / n);
  }

  lemma HalfFirst(t: int, p: int)
    requires p > 0
    ensures t / (2 * p) == t / 2 / p
  {
    var q, r := t / 2 / p, t / 2 % p;
    assert t / 2 == p * q + r;
    assert t == (2 * p) * q + (2 * r + t % 2);
    QuotientIs(t, 2 * p, q, 2 * r + t % 2);
  }
}
