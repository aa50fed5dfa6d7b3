/** The quotient and remainder of naturals are the only ones. */
module Division {

  lemma MulMono(a: nat, b: nat, m: nat)
    requires a <= b
    ensures a * m <= b * m
  {
  }

  lemma QuotientIs(n: nat, m: nat, q: nat, r: nat)
    requires r < m && n == q * m + r
    ensures n / m == q && n % m == r
  {
    var a, b := n / m, n % m;
    assert n == a * m + b;
    if a < q {
      MulMono(a + 1, q, m);
    } else if a > q {
      MulMono(q + 1, a, m);
    }
  }
}
