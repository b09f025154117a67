/** Facts about quotients, remainders and products that the proofs use by name. */
module Division {

  type Modulus = m: nat | 0 < m witness 1

  lemma SumMod(a: nat, b: nat, m: Modulus)
    ensures (a % m + b) % m == (a + b) % m
  {
    DivMod(a, m);
    DivMod(a % m + b, m);
    DivModUnique(a + b, m, a / m + (a % m + b) / m, (a % m + b) % m);
  }

  lemma ModAtMost(a: nat, m: Modulus)
    ensures a % m <= a
  {}

  lemma DivMod(a: nat, m: Modulus)
    ensures a == m * (a / m) + a % m && a % m < m
  {}

  /** Quotient and remainder are determined by the division equation. */
  lemma DivModUnique(a: nat, m: Modulus, q: int, r: nat)
    requires a == m * q + r && r < m
    ensures a / m == q && a % m == r
  {
    var d := a / m - q;
    assert m * d == r - a % m;
    NonzeroMultiple(m, d);
  }

  lemma SmallMod(a: nat, m: Modulus)
    requires a < m
    ensures a / m == 0 && a % m == a
  {
    DivModUnique(a, m, 0, a);
  }

  lemma NonzeroMultiple(m: Modulus, d: int)
    ensures d >= 1 ==> m * d >= m
    ensures d <= -1 ==> m * d <= -(m as int)
  {
    assert m * (d - 1) == m * d - m && m * (d + 1) == m * d + m;
  }

  lemma ModOfMod(x: nat, modulus: Modulus, period: Modulus)
    requires x < modulus || modulus % period == 0
    ensures (x % modulus) % period == x % period
  {
    if x < modulus {
      SmallMod(x, modulus);
    } else {
      DivMod(x, modulus);
      DivMod(modulus, period);
      DivMod(x % modulus, period);
      var q, c, d := x / modulus, modulus / period, (x % modulus) / period;
      assert modulus * q == period * (c * q) by {
        assert modulus == period * c;
        assert (period * c) * q == period * (c * q);
      }
      assert period * (c * q + d) == period * (c * q) + period * d;
      DivModUnique(x, period, c * q + d, (x % modulus) % period);
    }
  }

  lemma QuotientAtMost(n: nat, len: Modulus)
    ensures n / len <= n
  {
    DivMod(n, len);
    ProductAtLeast(n / len, len);
  }

  lemma ProductAtLeast(a: nat, b: Modulus)
    ensures a <= b * a
  {
    assert b * a == (b - 1) * a + a;
  }

  lemma Distribute(a: int, b: int, c: int)
    ensures a * (b - c) == a * b - a * c == b * a - c * a
  {}

  lemma OneMore(a: int, b: int)
    ensures (a + 1) * b == a * b + b
  {}

  lemma NonNegative(a: int, b: int)
    requires a >= 0 && b >= 0
    ensures a * b >= 0
  {}
}
