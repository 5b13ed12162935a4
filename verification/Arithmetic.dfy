/** Quotient and remainder from a decomposition. */
module Arithmetic {
  lemma SameLowDigit(base: nat, a: int, x: int, b: int, y: int)
    requires 0 <= a < base && 0 <= b < base && a + base * x == b + base * y
    ensures a == b && x == y
  {
    if x > y {
      Spread(base, a, x, b, y);
    } else if y > x {
      Spread(base, b, y, a, x);
    }
  }

  lemma Spread(base: nat, a: int, x: int, b: int, y: int)
    requires 0 <= a && b < base && x > y
    ensures a + base * x > b + base * y
  {
    Scales(base, y + 1, x);
    assert base * (y + 1) == base * y + base;
  }

  lemma Scales(base: nat, p: int, q: int)
    requires p <= q
    ensures base * p <= base * q && p * base <= q * base
  {
  }

  lemma Divides(x: int, m: nat, q: int, r: int)
    requires 0 <= r < m && x == r + m * q
    ensures x / m == q && x % m == r
  {
    assert x == x % m + m * (x / m);
    SameLowDigit(m, x % m, x / m, r, q);
  }

  lemma AddMod(a: int, b: int, m: nat)
    requires m > 0
    ensures (a % m + b) % m == (a + b) % m
  {
    var r, q := a % m, a / m;
    var s, p := (r + b) % m, (r + b) / m;
    assert a + b == s + (m * q + m * p);
    assert m * q + m * p == m * (q + p);
    Divides(a + b, m, q + p, s);
  }

  lemma HalveThenDivide(c: int, d: int)
    requires d > 0
    ensures c / 2 / d == c / (2 * d)
  {
    var q := c / 2 / d;
    assert d * q <= c / 2 < d * (q + 1);
    assert 2 * d * q <= c < 2 * d * (q + 1);
    Divides(c, 2 * d, q, c - 2 * d * q);
  }
}
