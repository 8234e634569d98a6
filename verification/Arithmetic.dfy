/** Facts about integers that several modules need. */
module Arithmetic {
  function Max(a: int, b: int): int { if a < b then b else a }

  function Min(a: int, b: int): int { if a < b then a else b }

  lemma ProductMonotonic(a: int, b: int, d: nat)
    requires a <= b
    ensures a * d <= b * d
  {
  }

  lemma SumTimes(a: int, b: int, c: int)
    ensures (a + b) * c == a * c + b * c
  {
  }

  lemma QuotientAtLeast(n: nat, d: nat, q: nat)
    requires d > 0 && q * d <= n
    ensures n / d >= q
  {
    if n / d < q {
      ProductMonotonic(n / d + 1, q, d);
    }
  }

  lemma QuotientIs(n: nat, d: nat, q: nat)
    requires d > 0 && q * d <= n < q * d + d
    ensures n / d == q
  {
    QuotientAtLeast(n, d, q);
    if n / d > q {
      ProductMonotonic(q + 1, n / d, d);
    }
  }
}
