/** Facts about integer division by a positive divisor that the layout arithmetic needs. */
module Arith {
  /** A multiple of a positive number below that number is not positive. */
  lemma ProductBelow(d: int, n: int)
    requires n > 0 && d * n < n
    ensures d <= 0
  {
    assert (d - 1) * n < 0;
  }

  /** Division by a positive number is monotone. */
  lemma DivMonotone(a: int, b: int, n: int)
    requires a <= b && n > 0
    ensures a / n <= b / n
  {
    var d := a / n - b / n;
    assert d * n == (a - a % n) - (b - b % n);
    ProductBelow(d, n);
  }

  /** The quotient is the one multiple that brackets the dividend. */
  lemma DivUnique(c: int, p: int, k: int)
    requires k > 0 && c * k <= p < (c + 1) * k
    ensures c == p / k
  {
    var q := p / k;
    assert (c - q) * k == c * k - (p - p % k);
    ProductBelow(c - q, k);
    assert (q - c) * k == (p - p % k) - c * k;
    ProductBelow(q - c, k);
  }
}
