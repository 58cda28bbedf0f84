/** Facts about integer division that the clocks share. */
module Division {
  lemma QuotientBounds(n: nat, d: nat)
    requires d > 0
    ensures (n / d) * d <= n < (n / d) * d + d
  {
    assert n == (n / d) * d + n % d;
  }

  lemma QuotientIs(n: nat, d: nat, q: nat)
    requires d > 0 && q * d <= n < q * d + d
    ensures n / d == q
  {
    QuotientBounds(n, d);
    Bracket(n / d, q, d);
    Bracket(q, n / d, d);
  }

  lemma Bracket(a: int, b: int, d: int)
    requires d > 0 && a * d < b * d + d
    ensures a <= b
  {
    if a > b {
      LargerProduct(a, b, d);
    }
  }

  lemma LargerProduct(a: int, b: int, d: int)
    requires d > 0 && a > b
    ensures a * d >= b * d + d
  {
    ProductIsNatural(a - b - 1, d);
    assert a * d - b * d - d == (a - b - 1) * d;
  }

  lemma ProductIsNatural(a: nat, b: nat)
    ensures a * b >= 0
  {
  }
}
