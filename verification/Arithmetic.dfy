/** Remainders, by hand where the divisor is a variable. */
module Arithmetic {
  lemma MulAtLeast(m: int, p: int)
    requires p > 0
    ensures m >= 1 ==> m * p >= p
    ensures m <= -1 ==> m * p <= -p
  {
    assert m * p == (m - 1) * p + p;
    assert m * p == (m + 1) * p - p;
    if m >= 1 {
      assert (m - 1) * p >= 0;
    }
    if m <= -1 {
      assert (-m - 1) * p >= 0;
    }
  }

  /** x ≡ y (mod p) once their difference is a multiple of p. */
  lemma ModEqual(x: int, y: int, k: int, p: nat)
    requires p > 0 && x - y == k * p
    ensures x % p == y % p
  {
    var m := x / p - y / p - k;
    assert x == x / p * p + x % p && y == y / p * p + y % p;
    assert m * p == y % p - x % p;
    MulAtLeast(m, p);
  }

  lemma QuotientOf(n: int, m: nat, q: int, r: nat)
    requires n == m * q + r && r < m
    ensures n / m == q && n % m == r
  {
    RemainderOf(n, m, q, r);
    var d := n / m - q;
    assert n == m * (n / m) + n % m;
    assert d * m == m * (n / m) - m * q == 0;
    MulAtLeast(d, m);
  }

  /** Dividing by 256 and then by `b` is dividing by their product. */
  lemma DivideTwice(n: nat, b: nat)
    requires b > 0
    ensures n / 256 / b == n / (256 * b)
  {
    var q, r := n / 256, n % 256;
    var s, t := q / b, q % b;
    var bs := b * s;
    assert n == 256 * q + r && q == bs + t;
    assert (256 * b) * s == 256 * bs;
    QuotientOf(n, 256 * b, s, 256 * t + r);
  }

  lemma RemainderOf(n: int, m: nat, q: int, r: nat)
    requires n == m * q + r && r < m
    ensures n % m == r
  {
    assert n - r == q * m;
    ModEqual(n, r, q, m);
  }
}
