/** Facts about products and quotients that the solver is not left to find. */
module Arithmetic {

  lemma MultipleSize(k: int, n: int)
    requires n > 0
    ensures k >= 1 ==> k * n >= n
    ensures k <= -1 ==> k * n <= -n
  {
    if k >= 1 {
      assert (k - 1) * n >= 0;
    } else if k <= -1 {
      assert (-1 - k) * n >= 0;
    }
  }

  lemma Distribute(a: int, b: int, n: int)
    ensures (a - b) * n == a * n - b * n
  {
  }

  /** Quotient and remainder are unique. */
  lemma DivUnique(x: int, n: int, q: int, r: int)
    requires n > 0 && x == q * n + r && 0 <= r < n
    ensures x / n == q && x % n == r
  {
    assert x == x / n * n + x % n;
    Distribute(x / n, q, n);
    MultipleSize(x / n - q, n);
  }

  lemma FloorMultiple(x: int, n: int)
    requires n > 0 && x >= 0
    ensures 0 <= x / n * n <= x < x / n * n + n
    ensures (x / n * n) / n == x / n && (x / n * n) % n == 0
  {
    assert x == x / n * n + x % n;
    DivUnique(x / n * n, n, x / n, 0);
    MultipleSize(x / n, n);
  }

  lemma DivMonotone(x: int, y: int, n: int)
    requires n > 0 && x <= y
    ensures x / n <= y / n
  {
    assert x == x / n * n + x % n && y == y / n * n + y % n;
    Distribute(x / n, y / n, n);
    MultipleSize(x / n - y / n, n);
  }

  lemma MultiplesMonotone(x: int, y: int, n: int)
    requires n > 0 && 0 <= x <= y
    ensures x / n * n <= y / n * n
  {
    DivMonotone(x, y, n);
    Distribute(x / n, y / n, n);
    MultipleSize(x / n - y / n, n);
  }

  lemma MultiplesApart(x: int, y: int, n: int)
    requires n > 0 && x % n == 0 && y % n == 0 && x > y
    ensures x >= y + n
  {
    assert x == x / n * n && y == y / n * n;
    Distribute(x / n, y / n, n);
    MultipleSize(x / n - y / n, n);
  }

  lemma DivStep(y: int, n: int)
    requires n > 0
    ensures (y + n) / n == y / n + 1
  {
    assert y == y / n * n + y % n;
    Distribute(y / n, -1, n);
    DivUnique(y + n, n, y / n + 1, y % n);
  }

  lemma DivAbove(x: int, y: int, n: int)
    requires n > 0 && x >= y + n
    ensures x / n > y / n
  {
    DivStep(y, n);
    DivMonotone(y + n, x, n);
  }

  lemma DivTen(n: int, b: int)
    requires n >= 0 && b > 0
    ensures n / (10 * b) == n / 10 / b >= 0
  {
    var m := n / 10;
    var q, r := m / b, m % b;
    assert m == q * b + r;
    assert q * (10 * b) == 10 * (q * b);
    DivUnique(n, 10 * b, q, 10 * r + n % 10);
    MultipleSize(q, b);
  }

  lemma Times(n: nat, x: int)
    ensures n * x == (n - 1) * x + x
  {
  }

  lemma ProductNotNegative(x: real, y: real)
    requires x >= 0.0 && y >= 0.0
    ensures x * y >= 0.0
  {
  }

  lemma QuotientTimes(k: real, n: real)
    requires n > 0.0
    ensures k / n * n == k
  {
  }

  lemma ProductPositive(x: real, n: real)
    requires n > 0.0
    ensures x > 0.0 <==> x * n > 0.0
    ensures x < 0.0 <==> x * n < 0.0
  {
  }
}
