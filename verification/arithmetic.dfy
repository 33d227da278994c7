/** Facts about products and quotients of integers that the solver does not find by itself. */
module Arithmetic {

  lemma NonNegativeProduct(a: nat, b: nat)
    ensures a * b >= 0
  {
  }

  lemma Distribute(a: int, b: int, c: int)
    ensures (a + b) * c == a * c + b * c
  {
  }

  lemma RegroupProduct(a: int, b: int, c: int)
    ensures a * (b * c) == (a * b) * c
  {
  }

  lemma ProductMonotone(a: nat, b: nat, c: nat)
    requires a <= b
    ensures a * c <= b * c && c * a <= c * b
  {
    NonNegativeProduct(b - a, c);
    Distribute(b - a, a, c);
  }

  lemma NextMultiple(a: int, b: int, d: nat)
    requires a < b
    ensures a * d + d <= b * d
  {
    NonNegativeProduct(b - a - 1, d);
    Distribute(b - a - 1, a + 1, d);
    Distribute(a, 1, d);
  }

  lemma MultiplesApart(a: int, b: int, d: nat)
    requires a != b
    ensures a < b ==> a * d + d <= b * d
    ensures a > b ==> b * d + d <= a * d
  {
    if a < b {
      NextMultiple(a, b, d);
    } else {
      NextMultiple(b, a, d);
    }
  }

  lemma DivMod(n: int, d: nat)
    requires d > 0
    ensures n == n / d * d + n % d && 0 <= n % d < d
    ensures n >= 0 ==> n / d >= 0
  {
  }

  lemma DivideIs(n: int, d: nat, q: int)
    requires 0 < d && q * d <= n < q * d + d
    ensures n / d == q && n % d == n - q * d
  {
    DivMod(n, d);
    if n / d != q {
      MultiplesApart(n / d, q, d);
    }
  }

  lemma QuotientUnique(i: int, j: int, p: nat, r: int, s: int)
    requires 0 <= r < p && 0 <= s < p && i * p + r == j * p + s
    ensures i == j && r == s
  {
    if i != j {
      MultiplesApart(i, j, p);
    }
  }

  lemma QuotientPositive(n: nat, d: nat)
    requires 0 < d <= n
    ensures n / d > 0
  {
    DivMod(n, d);
  }

  lemma QuotientBelow(a: nat, p: nat, n: nat)
    requires p > 0 && a < n * p
    ensures 0 <= a / p < n
  {
    DivMod(a, p);
    if a / p > n {
      NextMultiple(n, a / p, p);
    }
  }

  lemma QuotientAtLeast(n: nat, a: nat, b: nat)
    requires b > 0
    ensures n <= a / b <==> n * b <= a
  {
    DivMod(a, b);
    if n <= a / b {
      ProductMonotone(n, a / b, b);
    } else {
      NextMultiple(a / b, n, b);
    }
  }

  lemma QuotientAtMost(n: nat, d: nat)
    requires d > 0
    ensures n / d <= n
  {
    DivMod(n, d);
    ProductMonotone(1, d, n / d);
  }

  lemma DivideAntitone(n: nat, a: nat, b: nat)
    requires 0 < a <= b
    ensures n / a >= n / b
  {
    DivMod(n, a);
    DivMod(n, b);
    if n / a < n / b {
      NextMultiple(n / a, n / b, a);
      ProductMonotone(a, b, n / b);
    }
  }
}
