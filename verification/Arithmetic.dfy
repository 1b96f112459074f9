/** The few facts about products and quotients that the solver needs spelled out. */
module Arithmetic {

  function Min(a: int, b: int): int { if a < b then a else b }

  function MinR(a: real, b: real): real { if b < a then b else a }

  function MaxR(a: real, b: real): real { if a < b then b else a }

  lemma MulMonotone(a: nat, b: nat, m: nat)
    requires a <= b
    ensures a * m <= b * m
  {
  }

  lemma LessByProduct(k: int, m: int, d: int)
    requires d > 0 && k * d < m * d
    ensures k < m
  {
  }

  /** k * d <= t leaves room for no more than t / d. */
  lemma QuotientBound(k: nat, d: int, t: int)
    requires d > 0 && k * d <= t
    ensures k <= t / d
  {
    assert t < (t / d + 1) * d;
    LessByProduct(k, t / d + 1, d);
  }

  lemma DivInRange(n: nat, q: nat, d: nat)
    requires d > 0 && n < q * d
    ensures n / d < q
  {
    assert n / d * d <= n;
    LessByProduct(n / d, q, d);
  }

  /** Quotient and remainder are the only way to write n as a * d + i. */
  lemma DivModUnique(n: nat, a: nat, d: nat, i: nat)
    requires i < d && n == a * d + i
    ensures n / d == a && n % d == i
  {
    var q := n / d;
    assert n == q * d + n % d;
    if q < a { MulMonotone(q + 1, a, d); }
    if q > a { MulMonotone(a + 1, q, d); }
  }

  lemma QuotientUnique(z: int, d: int, i: int)
    requires d > 0
    ensures z / d == i <==> i * d <= z < (i + 1) * d
  {
    var q := z / d;
    assert q * d <= z < (q + 1) * d;
    if i * d <= z < (i + 1) * d {
      LessByProduct(i, q + 1, d);
      LessByProduct(q, i + 1, d);
    }
  }
}
