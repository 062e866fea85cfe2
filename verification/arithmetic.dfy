/** Multiplication, division and order: what the solver is not left to find by itself. */
module Arithmetic {

  lemma Distribute(d: int, a: int, b: int)
    ensures d * (a + b) == d * a + d * b
  {
  }

  lemma Grows(d: int, a: int, b: int)
    requires d >= 0 && a <= b
    ensures d * a <= d * b && a * d <= b * d
  {
    Distribute(d, a, b - a);
    assert d * (b - a) >= 0;
  }

  lemma Euclid(n: nat, d: nat)
    requires d > 0
    ensures n == d * (n / d) + n % d && n % d < d
  {
  }

  lemma Divide(n: nat, d: nat)
    requires d > 0
    ensures n == n / d * d + n % d && n % d < d
  {
  }

  lemma Between(d: nat, p: nat, s: nat, q: nat, r: nat)
    requires r < d && s < d && d * p + s == d * q + r
    ensures p == q && r == s
  {
    Distribute(d, p, 1);
    Distribute(d, q, 1);
    if p < q { Grows(d, p + 1, q); }
    if q < p { Grows(d, q + 1, p); }
  }

  /** Quotient and remainder are the only ones. */
  lemma Quotient(n: nat, d: nat, q: nat, r: nat)
    requires r < d && n == d * q + r
    ensures n / d == q && n % d == r
  {
    Euclid(n, d);
    Between(d, n / d, n % d, q, r);
  }

  /** Two positions of a ring less than a round apart have slots of their own. */
  lemma OwnSlots(i: nat, j: nat, n: nat)
    requires i < j < i + n
    ensures i % n != j % n
  {
    Euclid(i, n);
    Euclid(j, n);
    Distribute(n, i / n, 1);
    if j / n > i / n { Grows(n, i / n + 1, j / n); } else { Grows(n, j / n, i / n); }
  }

  /** Whole d's pass k exactly from k*d on. */
  lemma Reaches(n: nat, d: nat, k: nat)
    requires d > 0
    ensures n / d >= k <==> n >= k * d
  {
    var q := n / d;
    Euclid(n, d);
    Distribute(d, q, 1);
    if q >= k { Grows(d, k, q); } else { Grows(d, q + 1, k); }
  }

  lemma QuotientGrows(n: nat, m: nat, d: nat)
    requires d > 0 && n <= m
    ensures n / d <= m / d
  {
    Reaches(n, d, n / d);
    Reaches(m, d, n / d);
  }

  /** Taking one d more or less changes the quotient by one and the remainder not at all. */
  lemma OneLess(n: nat, d: nat)
    requires 0 < d <= n
    ensures (n - d) / d == n / d - 1 && (n - d) % d == n % d
  {
    Euclid(n, d);
    Reaches(n, d, 1);
    Distribute(d, n / d, -1);
    Quotient(n - d, d, n / d - 1, n % d);
  }

  /** Dividing in two parts, the remainder of the first going with the second, is dividing at once. */
  lemma DivSplit(x: nat, y: nat, d: nat)
    requires d > 0
    ensures x / d + (x % d + y) / d == (x + y) / d && (x % d + y) % d == (x + y) % d
  {
    Euclid(x, d);
    Euclid(x % d + y, d);
    Together(x, y, d, x / d, x % d, (x % d + y) / d, (x % d + y) % d);
  }

  lemma Together(x: nat, y: nat, d: nat, q: nat, r: nat, p: nat, s: nat)
    requires x == d * q + r && r + y == d * p + s && s < d
    ensures (x + y) / d == q + p && (x + y) % d == s
  {
    Distribute(d, q, p);
    Quotient(x + y, d, q + p, s);
  }
}
