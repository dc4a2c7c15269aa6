/** Products and quotients of variables, one fact at a time. */
module Arith {
  lemma MulLe(a: int, b: int, c: int)
    requires a <= b && 0 <= c
    ensures a * c <= b * c
    ensures c * a <= c * b
  {
  }

  lemma MulLeBoth(a: int, b: int, c: int, d: int)
    requires 0 <= a <= b && 0 <= c <= d
    ensures a * c <= b * d
  {
    MulLe(a, b, c);
    MulLe(c, d, b);
  }

  lemma MulAdd(c: int, a: int, b: int)
    ensures c * (a + b) == c * a + c * b
    ensures c * (a - b) == c * a - c * b
  {
  }

  lemma MulAssoc(a: int, b: int, c: int)
    ensures a * (b * c) == (a * b) * c == b * (a * c)
  {
  }

  lemma DivIs(x: int, n: int, q: int, r: int)
    requires 0 <= r < n && x == n * q + r
    ensures x / n == q && x % n == r
  {
    var d, m := x / n, x % n;
    assert x == n * d + m && 0 <= m < n;
    MulAdd(n, d, 1);
    MulAdd(n, q, 1);
    if d + 1 <= q {
      MulLe(d + 1, q, n);
    }
    if q + 1 <= d {
      MulLe(q + 1, d, n);
    }
  }

  lemma DivMonotone(x: int, y: int, n: int)
    requires x <= y && n > 0
    ensures x / n <= y / n
  {
    var d, e := x / n, y / n;
    DivBounds(x, n);
    DivBounds(y, n);
    MulAdd(n, e, 1);
    if e + 1 <= d {
      MulLe(e + 1, d, n);
    }
  }

  lemma DivBounds(x: int, n: int)
    requires n > 0
    ensures n * (x / n) <= x < n * (x / n) + n
  {
  }

  lemma QuotientFits(x: int, n: int)
    requires x >= 0 && n > 0
    ensures 0 <= x / n <= x
  {
    DivBounds(x, n);
    if x / n > x {
      MulLe(x + 1, x / n, n);
      MulLe(1, n, x + 1);
    }
    if x / n < 0 {
      MulLe(x / n, -1, n);
    }
  }

  /** The quotient is the largest integer whose product stays below. */
  lemma DivGreatest(x: int, n: int, q: int)
    requires n > 0 && n * q <= x
    ensures q <= x / n
  {
    DivBounds(x, n);
    if x / n + 1 <= q {
      MulLe(x / n + 1, q, n);
      MulAdd(n, x / n, 1);
    }
  }

  lemma DivDiv(x: int, a: int, b: int)
    requires a > 0 && b > 0
    ensures a * b > 0
    ensures x / a / b == x / (a * b)
  {
    MulLe(1, b, a);
    var q := x / a / b;
    DivBounds(x, a);
    DivBounds(x / a, b);
    MulAssoc(a, b, q);
    MulLe(b * q, x / a, a);
    MulLe(x / a, b * q + b - 1, a);
    MulAdd(a, b * q, b - 1);
    MulAdd(a, b, 1);
    DivIs(x, a * b, q, x - (a * b) * q);
  }

  /** A product that divides out again. */
  lemma MulDiv(x: int, n: int)
    requires n > 0
    ensures x * n / n == x
  {
    DivIs(x * n, n, x, 0);
  }
}
