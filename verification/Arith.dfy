/** Facts about products and quotients that the solver is not left to find. */
module Arith {
  lemma MulStep(a: int, n: int)
    ensures a * n == a * (n - 1) + a
  {
  }

  lemma MulPlus(a: int, m: int, n: int)
    ensures a * (m + n) == a * m + a * n
  {
  }

  lemma MulLe(a: int, b: int, k: int)
    requires a <= b && k >= 0
    ensures a * k <= b * k
  {
    assert (b - a) * k >= 0;
    assert (b - a) * k == b * k - a * k;
  }

  lemma MulStrict(p: int, q: int, n: int)
    requires p < q && n > 0
    ensures p * n + n <= q * n
  {
    MulLe(p + 1, q, n);
    assert (p + 1) * n == p * n + n;
  }

  lemma MulCancel(p: int, q: int, n: int)
    requires n > 0 && p * n < q * n
    ensures p < q
  {
    if p >= q {
      MulLe(q, p, n);
      assert false;
    }
  }

  lemma QuotientAtMost(p: int, q: int, n: int, r: int, r': int)
    requires n > 0 && p * n + r == q * n + r' && 0 <= r && r' < n
    ensures p <= q
  {
    if p > q {
      MulStrict(q, p, n);
      assert false;
    }
  }

  /** A quotient is the number that fits. */
  lemma Quotient(x: int, n: int, q: int, r: int)
    requires n > 0 && x == q * n + r && 0 <= r < n
    ensures x / n == q && x % n == r
  {
    DivMod(x, n);
    QuotientAtMost(x / n, q, n, x % n, r);
    QuotientAtMost(q, x / n, n, r, x % n);
  }

  lemma MultiplesAdd(x: int, y: int, n: int)
    requires n > 0 && x % n == 0 && y % n == 0
    ensures (x + y) % n == 0
  {
    DivMod(x, n);
    DivMod(y, n);
    assert x + y == (x / n + y / n) * n;
    Quotient(x + y, n, x / n + y / n, 0);
  }

  lemma MultipleOfMultiple(x: int, m: int, n: int)
    requires m > 0 && n > 0 && x % m == 0 && m % n == 0
    ensures x % n == 0
  {
    DivMod(x, m);
    DivMod(m, n);
    assert x == x / m * (m / n) * n;
    Quotient(x, n, x / m * (m / n), 0);
  }

  function Minus(a: nat, b: nat): nat {
    if a >= b then a - b else 0
  }

  lemma DivMod(x: int, n: int)
    requires n > 0
    ensures x == x / n * n + x % n && 0 <= x % n < n
  {
  }
}
