/** Special soundness of the VRF equations, and what it says about outputs.

    Two transcripts that reconstruct the same two commitments under different challenges determine,
    up to the cofactor, one scalar that relates the public key to the base point and gamma to the
    hashed point.  The output hashes only the cofactor multiple of gamma, so it is then unique. */
module VrfUniqueness {
  import opened Bytes
  import opened Curve
  import opened Ecvrf

  /** What two accepted transcripts with the same U and V have in common. */
  ghost predicate SameCommitments<P(!new)>(g: Curve<P>, y: P, h: P, gamma: P,
                                                 c1: Scalar, s1: Scalar, c2: Scalar, s2: Scalar)
  {
    && Commitment(g, s1, g.base, c1, y) == Commitment(g, s2, g.base, c2, y)
    && Commitment(g, s1, h, c1, gamma) == Commitment(g, s2, h, c2, gamma)
  }

  lemma Cancel<P(!new)>(g: Curve<P>, a: P, b: P, z: P)
    requires Lawful(g) && g.add(a, z) == g.add(b, z)
    ensures a == b
  {
    SubUndoesAdd(g, a, z);
    SubUndoesAdd(g, b, z);
  }

  /** a − b = c − d gives a + d = c + b. */
  lemma CrossAdd<P(!new)>(g: Curve<P>, a: P, b: P, c: P, d: P)
    requires Lawful(g) && Sub(g, a, b) == Sub(g, c, d)
    ensures g.add(a, d) == g.add(c, b)
  {
    SubUndoesAdd(g, a, b);
    SubUndoesAdd(g, c, d);
    var m := Sub(g, a, b);
    assert a == g.add(m, b) && c == g.add(m, d);
    assert Assoc(g, m, b, d) && Assoc(g, m, d, b) && Comm(g, b, d);
  }

  /** (s1 − s2)·P = (c1 − c2)·Q, with the scalar difference taken modulo L. */
  lemma DifferenceEquation<P(!new)>(g: Curve<P>, p: P, q: P, c1: Scalar, s1: Scalar, c2: Scalar, s2: Scalar)
    requires Lawful(g) && Smul(g, L, p) == g.zero && c2 <= c1
    requires Commitment(g, s1, p, c1, q) == Commitment(g, s2, p, c2, q)
    ensures Smul(g, (L + s1 - s2) % L, p) == Smul(g, c1 - c2, q)
  {
    var e := L + s1 - s2;
    CrossAdd(g, Smul(g, s1, p), Smul(g, c1, q), Smul(g, s2, p), Smul(g, c2, q));
    // s1·P = s2·P + (c1 − c2)·Q
    SmulAdd(g, c1 - c2, c2, q);
    assert Assoc(g, Smul(g, s2, p), Smul(g, c1 - c2, q), Smul(g, c2, q));
    Cancel(g, Smul(g, s1, p), g.add(Smul(g, s2, p), Smul(g, c1 - c2, q)), Smul(g, c2, q));
    // e·P + s2·P = (L + s1)·P = s1·P
    SmulAdd(g, e, s2, p);
    SmulAdd(g, L, s1, p);
    assert PointLaws(g, Smul(g, s1, p));
    assert Comm(g, Smul(g, s2, p), Smul(g, c1 - c2, q));
    Cancel(g, Smul(g, e, p), Smul(g, c1 - c2, q), Smul(g, s2, p));
    SmulReduce(g, L, e, p);
  }

  /** Dividing e·P = f·Q by f, up to the cofactor. */
  lemma DivideByInverse<P(!new)>(g: Curve<P>, p: P, q: P, e: nat, f: nat, d: nat)
    requires Lawful(g) && (d * f) % L == 1 && Smul(g, e, p) == Smul(g, f, q)
    ensures Smul(g, COFACTOR, q) == Smul(g, COFACTOR, Smul(g, d * e, p))
  {
    var m := d * f / L;
    var df := d * f;
    assert df == 1 + m * L;
    SmulMul(g, d, e, p);
    SmulMul(g, d, f, q);
    SmulAdd(g, 1, m * L, q);
    SmulOne(g, q);
    // 8·(m·L)·Q vanishes
    SmulMul(g, COFACTOR, m * L, q);
    assert COFACTOR * (m * L) == m * (COFACTOR * L);
    assert Smul(g, COFACTOR * L, q) == g.zero by {
      assert PointLaws(g, q);
    }
    SmulMultiple(g, COFACTOR * L, m, q);
    SmulDistributes(g, COFACTOR, q, Smul(g, m * L, q));
    assert PointLaws(g, Smul(g, COFACTOR, q)) && Comm(g, Smul(g, COFACTOR, q), g.zero);
  }

  /** Two transcripts with different challenges extract one scalar for both relations. */
  lemma ExtractScalar<P(!new)>(g: Curve<P>, y: P, h: P, gamma: P, c1: Scalar, s1: Scalar, c2: Scalar, s2: Scalar)
    returns (x: nat)
    requires Lawful(g) && IsPrime(L) && Smul(g, L, h) == g.zero
    requires c1 != c2 && SameCommitments(g, y, h, gamma, c1, s1, c2, s2)
    ensures Smul(g, COFACTOR, y) == Smul(g, COFACTOR, Smul(g, x, g.base))
    ensures Smul(g, COFACTOR, gamma) == Smul(g, COFACTOR, Smul(g, x, h))
    decreases c1 < c2
  {
    if c1 < c2 {
      x := ExtractScalar(g, y, h, gamma, c2, s2, c1, s1);
    } else {
      var d := ModInverse(c1 - c2, L);
      var e := (L + s1 - s2) % L;
      DifferenceEquation(g, g.base, y, c1, s1, c2, s2);
      DifferenceEquation(g, h, gamma, c1, s1, c2, s2);
      DivideByInverse(g, g.base, y, e, c1 - c2, d);
      DivideByInverse(g, h, gamma, e, c1 - c2, d);
      x := d * e;
    }
  }

  /** The base point has order exactly L. */
  lemma BaseOrder<P(!new)>(g: Curve<P>, n: nat)
    requires Lawful(g) && IsPrime(L) && Smul(g, n, g.base) == g.zero
    ensures n % L == 0
  {
    var r := n % L;
    SmulReduce(g, L, n, g.base);
    if r != 0 {
      var d := ModInverse(r, L);
      var dr := d * r;
      SmulMul(g, d, r, g.base);
      SmulZero(g, d);
      SmulReduce(g, L, dr, g.base);
      SmulOne(g, g.base);
      assert false;
    }
  }

  /** Multiples of the base point that agree agree on every other point killed by L. */
  lemma SameMultiples<P(!new)>(g: Curve<P>, m: nat, n: nat, h: P)
    requires Lawful(g) && IsPrime(L) && Smul(g, L, h) == g.zero
    requires Smul(g, m, g.base) == Smul(g, n, g.base)
    ensures Smul(g, m, h) == Smul(g, n, h)
    decreases m < n
  {
    if m < n {
      SameMultiples(g, n, m, h);
    } else {
      SmulAdd(g, m - n, n, g.base);
      assert PointLaws(g, Smul(g, n, g.base));
      Cancel(g, Smul(g, m - n, g.base), g.zero, Smul(g, n, g.base));
      BaseOrder(g, m - n);
      SmulAdd(g, m - n, n, h);
      SmulReduce(g, L, m - n, h);
      assert PointLaws(g, Smul(g, n, h));
    }
  }

  /** Scalars that give the key the same cofactor multiple give the hashed point the same one. */
  lemma ScalarsAgree<P(!new)>(g: Curve<P>, x1: nat, x2: nat, h: P)
    requires Lawful(g) && IsPrime(L) && Smul(g, L, h) == g.zero
    requires Smul(g, COFACTOR, Smul(g, x1, g.base)) == Smul(g, COFACTOR, Smul(g, x2, g.base))
    ensures Smul(g, COFACTOR, Smul(g, x1, h)) == Smul(g, COFACTOR, Smul(g, x2, h))
  {
    SmulMul(g, COFACTOR, x1, g.base);
    SmulMul(g, COFACTOR, x2, g.base);
    SmulMul(g, COFACTOR, x1, h);
    SmulMul(g, COFACTOR, x2, h);
    SameMultiples(g, COFACTOR * x1, COFACTOR * x2, h);
  }

  /** Whatever gammas they use, two such pairs of transcripts for one key and input give one output,
      even when the gammas differ by a point of small order. */
  lemma OutputIsUnique<P(!new)>(u: Suite<P>, pk: seq<byte>, alpha: seq<byte>,
                                gamma: P, c1: Scalar, s1: Scalar, c2: Scalar, s2: Scalar,
                                gamma': P, c1': Scalar, s1': Scalar, c2': Scalar, s2': Scalar)
    requires LawfulSuite(u) && IsPrime(L) && c1 != c2 && c1' != c2'
    requires u.curve.decompress(pk).Some? && HashToCurve(u, pk, alpha).Some?
    requires var (y, h) := (u.curve.decompress(pk).value, HashToCurve(u, pk, alpha).value);
      && SameCommitments(u.curve, y, h, gamma, c1, s1, c2, s2)
      && SameCommitments(u.curve, y, h, gamma', c1', s1', c2', s2')
    ensures Output(u, gamma) == Output(u, gamma')
  {
    var y, h := u.curve.decompress(pk).value, HashToCurve(u, pk, alpha).value;
    HashedPointInSubgroup(u, pk, alpha);
    var x := ExtractScalar(u.curve, y, h, gamma, c1, s1, c2, s2);
    var x' := ExtractScalar(u.curve, y, h, gamma', c1', s1', c2', s2');
    ScalarsAgree(u.curve, x, x', h);
  }

  /** In particular the output is the one of the honest proof under the key's secret. */
  lemma OutputIsTheProvers<P(!new)>(u: Suite<P>, sk: seq<byte>, alpha: seq<byte>,
                                    gamma: P, c1: Scalar, s1: Scalar, c2: Scalar, s2: Scalar)
    requires LawfulSuite(u) && IsPrime(L) && c1 != c2
    requires u.curve.decompress(PublicKey(u, sk)).Some? && Prove(u, sk, alpha).Some?
    requires SameCommitments(u.curve, u.curve.decompress(PublicKey(u, sk)).value,
                             HashToCurve(u, PublicKey(u, sk), alpha).value, gamma, c1, s1, c2, s2)
    ensures Output(u, gamma) == Output(u, Prove(u, sk, alpha).value.gamma)
  {
    var pk := PublicKey(u, sk);
    var h := HashToCurve(u, pk, alpha).value;
    HashedPointInSubgroup(u, pk, alpha);
    PublicKeyDecodes(u, sk);
    var y := u.curve.decompress(pk).value;
    var x := ExtractScalar(u.curve, y, h, gamma, c1, s1, c2, s2);
    ScalarsAgree(u.curve, x, KeyScalar(u, sk), h);
  }
}
