/** Division by a product, stated once with its quotients spelled out. */
module Arithmetic {

  lemma MulAtLeast(d: int, n: int)
    requires d > 0 && n >= 1
    ensures d * n >= d
  {
    assert d * n == d + d * (n - 1);
  }

  lemma Distribute(d: int, a: int, b: int)
    ensures d * (a - b) == d * a - d * b
    ensures d * (a + b) == d * a + d * b
  {
  }

  lemma DivUnique(x: int, d: int, q: int, r: int)
    requires 0 <= r < d && x == d * q + r
    ensures x / d == q && x % d == r
  {
    var q' := x / d;
    var r' := x % d;
    assert x == d * q' + r' && 0 <= r' < d;
    DivEqual(d, q, r, q', r');
  }

  lemma DivEqual(d: int, q: int, r: int, q': int, r': int)
    requires 0 <= r < d && 0 <= r' < d && d * q + r == d * q' + r'
    ensures q == q' && r == r'
  {
    if q > q' {
      MulAtLeast(d, q - q');
      Distribute(d, q, q');
    } else if q < q' {
      MulAtLeast(d, q' - q);
      Distribute(d, q', q);
    }
  }

  /** Dividing by d and then by k is dividing by d * k. */
  lemma DivDiv(x: nat, d: nat, k: nat, m: nat)
    requires d > 0 && k > 0 && m == d * k
    ensures m > 0
    ensures x / m == x / d / k
    ensures x % m == d * (x / d % k) + x % d
    ensures x % m % d == x % d
    ensures x % m / d == x / d % k
  {
    var q, r := x / d, x % d;
    var q', r' := q / k, q % k;
    MulAtLeast(d, k);
    assert x == m * q' + (d * r' + r) by {
      assert x == d * q + r && q == k * q' + r';
      Distribute(d, k * q', r');
      assert d * (k * q') == m * q';
    }
    assert d * r' + r < m by {
      Distribute(d, k, r');
      MulAtLeast(d, k - r');
    }
    assert 0 <= d * r';
    DivUnique(x, m, q', d * r' + r);
    DivUnique(d * r' + r, d, r', r);
  }

  /** Two numbers in the same aligned block of d agree on the quotient, also modulo any multiple m of d. */
  lemma SameBlock(x: nat, y: nat, d: nat, k: nat, m: nat)
    requires d > 0 && k > 0 && m == d * k && x <= y < x - x % d + d
    ensures y % d == x % d + (y - x) && y / d == x / d
    ensures m > 0 && x % m - x % m % d == y % m - y % m % d
    ensures y / m == x / m
  {
    var q := x / d;
    DivUnique(y, d, q, x % d + (y - x));
    DivDiv(x, d, k, m);
    DivDiv(y, d, k, m);
    assert x % m - x % m % d == d * (q % k) && y % m - y % m % d == d * (q % k);
  }

  /** Adding a multiple of the divisor. */
  lemma AddMultiple(x: int, d: int, c: int)
    requires d > 0
    ensures (d * c + x) / d == c + x / d && (d * c + x) % d == x % d
  {
    Distribute(d, c, x / d);
    DivUnique(d * c + x, d, c + x / d, x % d);
  }

  /** Rounding down to a multiple. */
  lemma RoundDown(x: nat, d: nat)
    requires d > 0
    ensures x - x % d == d * (x / d) && 0 <= x - x % d <= x
    ensures (x - x % d) % d == 0 && (x - x % d) / d == x / d
  {
    DivUnique(d * (x / d), d, x / d, 0);
  }
}
