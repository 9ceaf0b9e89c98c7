/** Facts about products and remainders that the verifier does not find by itself. */
module Arithmetic {
  const TWO_TO_64: nat := 0x1_0000_0000_0000_0000

  lemma FundamentalDivMod(n: nat, m: nat)
    requires m > 0
    ensures (n / m) * m + n % m == n
  {
  }

  lemma Multiples(k: int, m: nat)
    ensures k >= 1 ==> k * m >= m
    ensures k <= -1 ==> k * m <= -(m as int)
  {
  }

  lemma Monotone(a: nat, b: nat, c: nat)
    requires a <= b
    ensures a * c <= b * c
  {
  }

  lemma OneMore(k: nat, n: nat)
    ensures (k + 1) * n == k * n + n
  {
  }

  lemma Associate(a: nat, b: nat, c: nat)
    ensures (a * b) * c == a * (b * c)
  {
  }

  lemma Distribute(a: nat, p: nat, b: nat, c: nat)
    ensures (a * p + b) * c == a * (p * c) + b * c
  {
    Associate(a, p, c);
  }

  lemma SmallMod(x: nat, m: nat)
    requires x < m
    ensures x % m == x
  {
  }

  /** Quotient and remainder are unique. */
  lemma DivMod(q: nat, d: nat, m: nat)
    requires d < m
    ensures (q * m + d) / m == q && (q * m + d) % m == d
  {
    var x := q * m + d;
    var k := x / m - q;
    assert k * m == d - x % m by {
      FundamentalDivMod(x, m);
      assert k * m == (x / m) * m - q * m;
    }
    Multiples(k, m);
  }
}
