/** Facts about products and quotients. */
module Arithmetic {
  lemma MultipleGap(d: int, x: int, y: int)
    requires d >= 0
    ensures x < y ==> d * x + d <= d * y
  {
    if x < y {
      var k := y - x - 1;
      assert d * y == d * x + d + d * k;
    }
  }

  lemma SquareGrows(x: int, y: int)
    requires x >= 0
    ensures x <= y ==> x * x <= y * y
  {
    if x <= y {
      var k := y - x;
      assert y * y == x * x + 2 * (x * k) + k * k;
    }
  }

  lemma QuotientUnique(n: int, d: int, q: int, r: int)
    requires d > 0 && n == d * q + r && 0 <= r < d
    ensures n / d == q && n % d == r
  {
    MultipleGap(d, q, n / d);
    MultipleGap(d, n / d, q);
    Quotient(n, d);
  }

  lemma Quotient(n: int, d: int)
    requires d > 0
    ensures n == d * (n / d) + n % d && 0 <= n % d < d
  {
  }
}
