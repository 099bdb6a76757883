/** The laws asked of a curve can be met: the scalars modulo L under addition meet them, so nothing proved
    from `Lawful` holds for want of a curve. */
module ScalarGroup {
  import opened Arithmetic
  import opened Bytes
  import opened C = Curve
  import opened Ecvrf
  import opened Wrappers

  datatype Residue = Residue(n: Scalar)

  function Add(a: Residue, b: Residue): Residue {
    Residue((a.n + b.n) % L)
  }

  function Negate(a: Residue): Residue {
    Residue((L - a.n) % L)
  }

  function Bytes32(a: Residue): seq<byte> {
    ToLE(a.n, 32)
  }

  function FromBytes(bytes: seq<byte>): Option<Residue> {
    Some(Residue(FromLE(bytes) % L))
  }

  function Residues(): C.Curve<Residue> {
    C.Curve(Residue(0), Add, Negate, Residue(1), Bytes32, FromBytes)
  }

  lemma SumReduces(a: nat, b: nat)
    ensures (a + b % L) % L == (a + b) % L
  {
    ModEqual(a + b % L, a + b, -(b / L), L);
  }

  lemma {:induction false} SmulIsProduct(n: nat, a: Residue)
    ensures Smul(Residues(), n, a).n == (n * a.n) % L
  {
    if n == 0 {
    } else {
      SmulIsProduct(n - 1, a);
      var rest := (n - 1) * a.n;
      assert n * a.n == a.n + rest;
      SumReduces(a.n, rest);
    }
  }

  lemma MultipleVanishes(order: nat, m: nat)
    requires order == m * L
    ensures order % L == 0
  {
    RemainderOf(order, L, m, 0);
  }

  lemma OrderKills(a: Residue)
    ensures Smul(Residues(), COFACTOR * L, a) == Residue(0)
  {
    SmulIsProduct(COFACTOR * L, a);
    MultipleVanishes(COFACTOR * L * a.n, COFACTOR * a.n);
  }

  lemma BytesReadBack(a: Residue)
    ensures FromBytes(Bytes32(a)) == Some(a)
  {
    FullScalar(a.n);
  }

  lemma AddAssociates(a: Residue, b: Residue, c: Residue)
    ensures Add(Add(a, b), c) == Add(a, Add(b, c))
  {
    SumReduces(c.n, a.n + b.n);
    SumReduces(a.n, b.n + c.n);
  }

  lemma GroupLaws(a: Residue)
    ensures Add(Residue(0), a) == a && Add(a, Negate(a)) == Residue(0)
  {
    SumReduces(a.n, L - a.n);
    ReduceSmall(a.n);
  }

  lemma ResidueLaws(a: Residue)
    ensures PointLaws(Residues(), a)
  {
    GroupLaws(a);
    OrderKills(a);
    BytesReadBack(a);
  }

  lemma BaseIsKilled()
    ensures Smul(Residues(), L, Residues().base) == Residue(0)
  {
    SmulIsProduct(L, Residue(1));
    MultipleVanishes(L * 1, 1);
  }

  /** There is a lawful curve. */
  lemma ResiduesAreLawful()
    ensures Lawful(Residues())
  {
    var g := Residues();
    forall a, b, c ensures Assoc(g, a, b, c) {
      AddAssociates(a, b, c);
    }
    forall a ensures PointLaws(g, a) {
      ResidueLaws(a);
    }
    BaseIsKilled();
  }
}
