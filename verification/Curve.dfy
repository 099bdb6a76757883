/** The group the VRF works in, as a parameter.

    A curve is a record of functions; `Lawful` states the laws of a commutative group in which every
    point is killed by 8·L and the base point by L, as for edwards25519, where L is the prime
    2^252 + 27742317777372353535851937790883648493.  Scalar multiplication is repeated addition, so
    its laws are proved here and not assumed. */
module Curve {
  import opened Wrappers
  import opened Arithmetic
  import opened Bytes

  const L: nat := 7237005577332262213973186563042994240857116359379907606001950938285454250989
  const COFACTOR: nat := 8

  /** The order is 2^252 + 27742317777372353535851937790883648493. */
  lemma GroupOrder()
    ensures L == 16 * Pow256(31) + 27742317777372353535851937790883648493
  {
    Pow256Values();
  }

  datatype Curve<!P(!new)> = Curve(
    zero: P,
    add: (P, P) -> P,
    neg: P -> P,
    base: P,
    compress: P -> seq<byte>,
    decompress: seq<byte> -> Option<P>)

  ghost predicate Assoc<P(!new)>(g: Curve<P>, a: P, b: P, c: P) {
    g.add(g.add(a, b), c) == g.add(a, g.add(b, c))
  }

  ghost predicate Comm<P(!new)>(g: Curve<P>, a: P, b: P) {
    g.add(a, b) == g.add(b, a)
  }

  ghost predicate PointLaws<P(!new)>(g: Curve<P>, a: P) {
    && g.add(g.zero, a) == a
    && g.add(a, g.neg(a)) == g.zero
    && Smul(g, COFACTOR * L, a) == g.zero
    && |g.compress(a)| == 32
    && g.decompress(g.compress(a)) == Some(a)
  }

  ghost predicate Lawful<P(!new)>(g: Curve<P>) {
    && (forall a, b, c :: Assoc(g, a, b, c))
    && (forall a, b :: Comm(g, a, b))
    && (forall a :: PointLaws(g, a))
    && Smul(g, L, g.base) == g.zero
    && g.base != g.zero
  }

  function Smul<P(!new)>(g: Curve<P>, n: nat, p: P): P {
    if n == 0 then g.zero else g.add(p, Smul(g, n - 1, p))
  }

  function Sub<P(!new)>(g: Curve<P>, a: P, b: P): P {
    g.add(a, g.neg(b))
  }

  lemma SubUndoesAdd<P(!new)>(g: Curve<P>, a: P, b: P)
    requires Lawful(g)
    ensures Sub(g, g.add(a, b), b) == a
    ensures g.add(Sub(g, a, b), b) == a
  {
    assert PointLaws(g, a) && PointLaws(g, b);
    assert Assoc(g, a, b, g.neg(b)) && Comm(g, a, g.zero);
    assert Assoc(g, a, g.neg(b), b) && Comm(g, g.neg(b), b);
  }

  lemma {:induction false} SmulAdd<P(!new)>(g: Curve<P>, m: nat, n: nat, p: P)
    requires Lawful(g)
    ensures Smul(g, m + n, p) == g.add(Smul(g, m, p), Smul(g, n, p))
    decreases m
  {
    if m == 0 {
      assert PointLaws(g, Smul(g, n, p));
    } else {
      SmulAdd(g, m - 1, n, p);
      assert Assoc(g, p, Smul(g, m - 1, p), Smul(g, n, p));
    }
  }

  lemma {:induction false} SmulMul<P(!new)>(g: Curve<P>, m: nat, n: nat, p: P)
    requires Lawful(g)
    ensures Smul(g, m * n, p) == Smul(g, m, Smul(g, n, p))
    decreases m
  {
    if m == 0 {
    } else {
      SmulMul(g, m - 1, n, p);
      SmulAdd(g, n, (m - 1) * n, p);
      assert n + (m - 1) * n == m * n;
    }
  }

  lemma {:induction false} SmulZero<P(!new)>(g: Curve<P>, n: nat)
    requires Lawful(g)
    ensures Smul(g, n, g.zero) == g.zero
  {
    if n == 0 {
    } else {
      SmulZero(g, n - 1);
      assert PointLaws(g, g.zero);
    }
  }

  lemma SmulOne<P(!new)>(g: Curve<P>, p: P)
    requires Lawful(g)
    ensures Smul(g, 1, p) == p
  {
    assert PointLaws(g, p) && Comm(g, p, g.zero);
    assert Smul(g, 0, p) == g.zero;
  }

  lemma {:induction false} SmulDistributes<P(!new)>(g: Curve<P>, n: nat, a: P, b: P)
    requires Lawful(g)
    ensures Smul(g, n, g.add(a, b)) == g.add(Smul(g, n, a), Smul(g, n, b))
  {
    if n == 0 {
      assert PointLaws(g, g.zero);
    } else {
      var x, y := Smul(g, n - 1, a), Smul(g, n - 1, b);
      SmulDistributes(g, n - 1, a, b);
      assert Assoc(g, a, b, g.add(x, y)) && Assoc(g, b, x, y) && Comm(g, b, x);
      assert Assoc(g, x, b, y) && Assoc(g, a, x, g.add(b, y));
    }
  }

  /** Multiples of L vanish on points killed by L; multiples of 8·L vanish everywhere. */
  lemma SmulMultiple<P(!new)>(g: Curve<P>, order: nat, m: nat, p: P)
    requires Lawful(g) && Smul(g, order, p) == g.zero
    ensures Smul(g, m * order, p) == g.zero
  {
    SmulMul(g, m, order, p);
    SmulZero(g, m);
  }

  lemma SmulReduce<P(!new)>(g: Curve<P>, order: nat, n: nat, p: P)
    requires Lawful(g) && order > 0 && Smul(g, order, p) == g.zero
    ensures Smul(g, n % order, p) == Smul(g, n, p)
  {
    var m := n / order;
    assert n == m * order + n % order;
    SmulAdd(g, m * order, n % order, p);
    SmulMultiple(g, order, m, p);
    assert PointLaws(g, Smul(g, n % order, p));
  }

  /** Multiplying by the cofactor lands in the subgroup of order L. */
  lemma CofactorClears<P(!new)>(g: Curve<P>, p: P)
    requires Lawful(g)
    ensures Smul(g, L, Smul(g, COFACTOR, p)) == g.zero
  {
    SmulMul(g, L, COFACTOR, p);
    assert L * COFACTOR == COFACTOR * L;
    assert PointLaws(g, p);
  }

  // ---------------------------------------------------------------- arithmetic modulo a prime

  ghost predicate IsPrime(p: nat) {
    p > 1 && forall d :: 1 < d < p ==> p % d != 0
  }

  lemma SmallPrimes()
    ensures !IsPrime(0) && !IsPrime(1) && IsPrime(2) && IsPrime(3) && !IsPrime(4) && IsPrime(7) && !IsPrime(9)
  {
    assert 4 % 2 == 0 && 9 % 3 == 0;
  }

  lemma InverseStep(a: int, p: int, q: int, r: int, e: int, k: int, d: int)
    requires p == q * a + r && -(q * e) == k * p + d
    ensures d * a - e * r == (-e - k * a) * p
  {
    var qe, kp := q * e, k * p;
    assert d * a == (-qe - kp) * a == -(qe * a) - kp * a;
    assert e * r == e * (p - q * a) == e * p - e * (q * a);
    assert e * (q * a) == qe * a;
    assert kp * a == (k * a) * p;
  }

  /** Inverses modulo a prime, by the descent p = q·a + r. */
  lemma {:induction false} ModInverse(a: nat, p: nat) returns (d: nat)
    requires IsPrime(p) && 0 < a < p
    ensures d < p && (d * a) % p == 1
    decreases a
  {
    if a == 1 {
      d := 1;
    } else {
      var q, r := p / a, p % a;
      assert 0 < r < a && p == q * a + r by {
        assert p % a != 0;
      }
      var e := ModInverse(r, p);
      d := InverseOf(a, p, q, r, e);
    }
  }

  lemma InverseOf(a: int, p: nat, q: int, r: int, e: int) returns (d: nat)
    requires p > 0 && p == q * a + r && (e * r) % p == 1
    ensures d < p && (d * a) % p == 1
  {
    var n := -(q * e);
    d := n % p;
    var k := n / p;
    assert n == k * p + d;
    InverseStep(a, p, q, r, e, k, d);
    ModEqual(d * a, e * r, -e - k * a, p);
  }
}
