/** Integer facts that the solver does not find by itself where it needs them. */
module Arithmetic {

  function Min(a: int, b: int): int { if a < b then a else b }

  function Max(a: int, b: int): int { if a > b then a else b }

  function Pow2(n: nat): (p: nat)
    ensures p > 0
  {
    if n == 0 then 1 else 2 * Pow2(n - 1)
  }

  lemma Multiple(m: nat, d: int)
    ensures d >= 1 ==> m * d >= m
    ensures d <= -1 ==> m * d + m <= 0
  {
  }

  /** Quotient and remainder are the only ones. */
  lemma DivModIs(n: int, m: nat, q: int, r: nat)
    requires r < m && n == m * q + r
    ensures n / m == q && n % m == r
  {
    var d := n / m - q;
    assert m * d + n % m == r by { assert n == m * (n / m) + n % m; }
    Multiple(m, d);
  }

  lemma ModStep(n: nat, m: nat)
    requires 0 < m <= n
    ensures (n - m) % m == n % m
  {
    assert n == m * (n / m) + n % m;
    assert n - m == m * (n / m - 1) + n % m;
    DivModIs(n - m, m, n / m - 1, n % m);
  }

  lemma ModOfSum(a: nat, b: nat, m: nat)
    requires m > 0 && a % m == 0
    ensures (a + b) % m == b % m
  {
    assert a == m * (a / m) && b == m * (b / m) + b % m;
    assert a + b == m * (a / m + b / m) + b % m;
    DivModIs(a + b, m, a / m + b / m, b % m);
  }

  lemma DivStep(a: nat, d: nat)
    requires d > 0
    ensures (a + d) / d == a / d + 1
  {
    assert a + d == d * (a / d + 1) + a % d;
    DivModIs(a + d, d, a / d + 1, a % d);
  }

  lemma TimesStep(n: int, w: int)
    ensures (n - 1) * w == n * w - w
  {
  }

  lemma TimesGrows(a: nat, b: nat, w: nat)
    requires a <= b
    ensures a * w <= b * w
  {
    assert (b - a) * w >= 0;
    assert b * w == a * w + (b - a) * w;
  }

  lemma WholeQuotient(w: nat, n: nat)
    requires n > 0 && w % n == 0
    ensures w == w / n * n
  {
  }
}
