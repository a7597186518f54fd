/** Quotients and remainders by a divisor that is not a literal. */
module Arithmetic {
  lemma {:induction false} MulAtLeast(d: nat, a: nat, b: nat)
    requires a < b
    ensures d * a + d <= d * b
    decreases b
  {
    assert d * b == d * (b - 1) + d;
    if a < b - 1 {
      MulAtLeast(d, a, b - 1);
    }
  }

  lemma QuotientUnique(d: nat, q: nat, r: nat, q': nat, r': nat)
    requires r < d && r' < d && d * q + r == d * q' + r'
    ensures q == q' && r == r'
  {
    if q < q' {
      MulAtLeast(d, q, q');
    } else if q' < q {
      MulAtLeast(d, q', q);
    }
  }

  lemma DivModUnique(x: nat, d: nat, q: nat, r: nat)
    requires d > 0 && r < d && x == d * q + r
    ensures x / d == q && x % d == r
  {
    QuotientUnique(d, q, r, x / d, x % d);
  }

  /** Adding one either completes another group of `d` or lengthens the remainder. */
  lemma DivModSuccessor(x: nat, d: nat)
    requires d > 0
    ensures if x % d + 1 == d then
              (x + 1) / d == x / d + 1 && (x + 1) % d == 0
            else
              (x + 1) / d == x / d && (x + 1) % d == x % d + 1
  {
    if x % d + 1 == d {
      assert d * (x / d + 1) == d * (x / d) + d;
      DivModUnique(x + 1, d, x / d + 1, 0);
    } else {
      DivModUnique(x + 1, d, x / d, x % d + 1);
    }
  }

  lemma QuotientBound(n: nat, d: nat, span: nat)
    requires d > 0 && d * n <= span
    ensures n <= span / d
  {
    if span / d < n {
      MulAtLeast(d, span / d, n);
    }
  }
}
