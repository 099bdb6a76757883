/** ECVRF-EDWARDS25519-SHA512-TAI as in `crates/vrf/src/ecvrf.rs` (draft-irtf-cfrg-vrf-04).

    The curve and SHA-512 are parameters.  Scalars are naturals below L. */
module Ecvrf {
  import opened Arithmetic
  import opened Bytes
  import opened Curve
  import opened Wrappers

  const SUITE: byte := 3
  const ONE: byte := 1
  const TWO: byte := 2
  const THREE: byte := 3
  const PROOF_LENGTH: nat := 80

  datatype Suite<!P(!new)> = Suite(curve: Curve<P>, sha512: seq<byte> -> seq<byte>)

  ghost predicate LawfulSuite<P(!new)>(u: Suite<P>) {
    Lawful(u.curve) && forall m :: |u.sha512(m)| == 64
  }

  type Scalar = s: nat | s < L

  datatype Proof<P(!new)> = Proof(gamma: P, c: Scalar, s: Scalar)

  /** Reduction modulo the group order; `ReduceSmall` is all most proofs need of it. */
  function ReduceL(n: nat): Scalar {
    n % L
  }

  lemma ReduceSmall(n: nat)
    ensures n < L <==> ReduceL(n) == n
  {}

  function Zeros(n: nat): seq<byte> {
    seq(n, _ => 0)
  }

  // ---------------------------------------------------------------- keys

  /** Clearing the low three bits and bit 255, and setting bit 254, of a little-endian integer. */
  function Clamp(lower: seq<byte>): seq<byte>
    requires |lower| == 32
  {
    lower[0 := lower[0] - lower[0] % 8][31 := lower[31] % 64 + 64]
  }

  /** A clamped integer is a multiple of the cofactor with bit 254 as its highest bit. */
  lemma ClampedInteger(lower: seq<byte>)
    requires |lower| == 32
    ensures FromLE(Clamp(lower)) % COFACTOR == 0
    ensures 64 * TWO_248 <= FromLE(Clamp(lower)) < 128 * TWO_248
  {
    var s := Clamp(lower);
    Pow256Values();
    TopByte(s, 31);
    LowByte(s);
  }

  lemma EndBytes(s: seq<byte>)
    requires |s| == 32
    ensures FromLE(s) == s[0] + 256 * FromLE(s[1..31]) + Pow256(31) * s[31]
    ensures s[0] + 256 * FromLE(s[1..31]) < Pow256(31)
  {
    assert s == s[..31] + [s[31]];
    LEAppend(s[..31], [s[31]]);
    assert FromLE([s[31]]) == s[31] + 256 * FromLE([]);
    assert s[..31][1..] == s[1..31];
    FromLEBound(s[..31]);
  }

  lemma HighBitsGo(low: nat, scale: nat, q: nat, r: nat)
    requires r < 64 && low < scale
    ensures (low + scale * (64 * q + r)) % (64 * scale) == low + scale * r
  {
    var n, sq, sr := low + scale * (64 * q + r), scale * q, scale * r;
    assert scale * (64 * q + r) == 64 * sq + sr;
    assert sr <= scale * 63;
    assert 64 * scale * q == 64 * sq;
    QuotientOf(n, 64 * scale, q, low + sr);
  }

  lemma LowBitsStay(first: nat, rest: nat)
    ensures (first + 8 * rest) % 8 == first % 8
  {
    ModEqual(first + 8 * rest, first, rest, 8);
  }

  lemma ClampArithmetic(n: nat, clamped: nat, first: nat, mid: nat, q: nat, r: nat, scale: nat, eighth: nat)
    requires r < 64 && scale == 8 * eighth && first + 256 * mid < scale
    requires n == first + 256 * mid + scale * (64 * q + r)
    requires clamped == first - first % 8 + 256 * mid + scale * (r + 64)
    ensures clamped == n % (64 * scale) - n % 8 + 64 * scale
  {
    var top, kept := 64 * q + r, scale * r;
    HighBitsGo(first + 256 * mid, scale, q, r);
    assert n % (64 * scale) == first + 256 * mid + kept;
    assert n % 8 == first % 8 by {
      assert scale * top == 8 * (eighth * top);
      LowBitsStay(first, 32 * mid + eighth * top);
    }
    assert scale * (r + 64) == kept + 64 * scale;
  }

  lemma ClampParts(lower: seq<byte>) returns (mid: nat, q: nat, r: nat)
    requires |lower| == 32
    ensures r < 64 && lower[0] + 256 * mid < Pow256(31)
    ensures FromLE(lower) == lower[0] + 256 * mid + Pow256(31) * (64 * q + r)
    ensures FromLE(Clamp(lower)) == lower[0] - lower[0] % 8 + 256 * mid + Pow256(31) * (r + 64)
  {
    EndBytes(lower);
    EndBytes(Clamp(lower));
    assert Clamp(lower)[1..31] == lower[1..31];
    mid, q, r := FromLE(lower[1..31]), lower[31] / 64, lower[31] % 64;
  }

  /** In integers, 2^254 being 64·256^31: bits 3 to 253 stay, the ones below and above go, and bit 254
      is set. */
  lemma ClampInIntegers(lower: seq<byte>)
    requires |lower| == 32
    ensures var n := FromLE(lower);
      FromLE(Clamp(lower)) == n % (64 * Pow256(31)) - n % 8 + 64 * Pow256(31)
  {
    var mid, q, r := ClampParts(lower);
    var n, clamped := FromLE(lower), FromLE(Clamp(lower));
    ClampArithmetic(n, clamped, lower[0], mid, q, r, Pow256(31), 32 * Pow256(30));
  }

  lemma LowByte(s: seq<byte>)
    requires s != [] && s[0] % COFACTOR == 0
    ensures FromLE(s) % COFACTOR == 0
  {
    assert FromLE(s) == s[0] + 256 * FromLE(s[1..]);
  }

  lemma TopByte(s: seq<byte>, n: nat)
    requires |s| == n + 1 && 64 <= s[n] < 128
    ensures 64 * Pow256(n) <= FromLE(s) < 128 * Pow256(n)
  {
    assert s == s[..n] + [s[n]];
    LEAppend(s[..n], [s[n]]);
    FromLEBound(s[..n]);
    assert FromLE([s[n]]) == s[n] + 256 * FromLE([]);
    ScaleBounds(Pow256(n), s[n]);
  }

  lemma ScaleBounds(scale: nat, top: nat)
    requires 64 <= top < 128
    ensures 64 * scale <= scale * top <= 127 * scale
  {}

  /** The secret scalar before reduction, as the signing key uses it. */
  function SecretInteger<P(!new)>(u: Suite<P>, sk: seq<byte>): nat
    requires LawfulSuite(u)
  {
    FromLE(Clamp(u.sha512(sk)[..32]))
  }

  function KeyScalar<P(!new)>(u: Suite<P>, sk: seq<byte>): Scalar
    requires LawfulSuite(u)
  {
    ReduceL(SecretInteger(u, sk))
  }

  function Nonce<P(!new)>(u: Suite<P>, sk: seq<byte>): seq<byte>
    requires LawfulSuite(u)
  {
    u.sha512(sk)[32..]
  }

  function PublicKey<P(!new)>(u: Suite<P>, sk: seq<byte>): seq<byte>
    requires LawfulSuite(u)
  {
    u.curve.compress(Smul(u.curve, SecretInteger(u, sk), u.curve.base))
  }

  /** Key expansion, filling the byte arrays in place. */
  method ExpandKey<P(!new)>(u: Suite<P>, sk: seq<byte>) returns (key: Scalar, nonce: seq<byte>)
    requires LawfulSuite(u)
    ensures key == KeyScalar(u, sk) && nonce == Nonce(u, sk)
  {
    var hash := u.sha512(sk);
    var lower, upper := new byte[32], new byte[32];
    forall i | 0 <= i < 32 {
      lower[i] := hash[i];
    }
    forall i | 0 <= i < 32 {
      upper[i] := hash[32 + i];
    }
    assert lower[..] == hash[..32] && upper[..] == hash[32..];
    lower[0] := lower[0] - lower[0] % 8;
    lower[31] := lower[31] % 64;
    lower[31] := lower[31] + 64;
    assert lower[..] == Clamp(hash[..32]);
    key := ReduceL(FromLE(lower[..]));
    nonce := upper[..];
  }

  // ---------------------------------------------------------------- hash to curve

  function Candidate<P(!new)>(u: Suite<P>, pk: seq<byte>, alpha: seq<byte>, counter: byte): Option<P>
    requires LawfulSuite(u)
  {
    u.curve.decompress(u.sha512([SUITE, ONE] + pk + alpha + [counter])[..32])
  }

  function FirstFrom<P(!new)>(u: Suite<P>, pk: seq<byte>, alpha: seq<byte>, counter: nat): Option<P>
    requires LawfulSuite(u)
    decreases 256 - counter
  {
    if counter >= 256 then None
    else if Candidate(u, pk, alpha, counter).Some? then Candidate(u, pk, alpha, counter)
    else FirstFrom(u, pk, alpha, counter + 1)
  }

  /** The cofactor multiple of the first candidate that decodes.  The u8 counter wraps, so when none
      of the 256 candidates decodes the loop of the source never ends: that case is `None`. */
  function HashToCurve<P(!new)>(u: Suite<P>, pk: seq<byte>, alpha: seq<byte>): Option<P>
    requires LawfulSuite(u)
  {
    var first := FirstFrom(u, pk, alpha, 0);
    if first.Some? then Some(Smul(u.curve, COFACTOR, first.value)) else None
  }

  /** Try and increment.  `tries` is not in the source: it stops a loop that would go round again. */
  method TryAndIncrement<P(!new)>(u: Suite<P>, pk: seq<byte>, alpha: seq<byte>) returns (h: Option<P>)
    requires LawfulSuite(u)
    ensures h == HashToCurve(u, pk, alpha)
  {
    var counter: byte := 0;
    var wrapped: Option<P> := None;
    var tries := 0;
    while wrapped.None? && tries < 256
      invariant tries <= 256 && counter == if tries == 256 then 0 else tries
      invariant wrapped.None? ==> FirstFrom(u, pk, alpha, 0) == FirstFrom(u, pk, alpha, tries)
      invariant wrapped.Some? ==> wrapped == FirstFrom(u, pk, alpha, 0)
      decreases wrapped.None?, 256 - tries
    {
      wrapped := Candidate(u, pk, alpha, counter);
      counter := (counter + 1) % 256;
      tries := tries + 1;
    }
    h := if wrapped.Some? then Some(Smul(u.curve, COFACTOR, wrapped.value)) else None;
  }

  // ---------------------------------------------------------------- challenge, nonce, output

  function Compressed<P(!new)>(u: Suite<P>, points: seq<P>): seq<byte> {
    if points == [] then []
    else Compressed(u, points[..|points| - 1]) + u.curve.compress(points[|points| - 1])
  }

  function Challenge<P(!new)>(u: Suite<P>, points: seq<P>): Scalar
    requires LawfulSuite(u)
  {
    ReduceL(FromLE(u.sha512([SUITE, TWO] + Compressed(u, points))[..16] + Zeros(16)))
  }

  method HashPoints<P(!new)>(u: Suite<P>, points: seq<P>) returns (c: Scalar)
    requires LawfulSuite(u)
    ensures c == Challenge(u, points)
  {
    var result := new byte[32](_ => 0);
    var hash: seq<byte> := [SUITE, TWO];
    for i := 0 to |points|
      invariant hash == [SUITE, TWO] + Compressed(u, points[..i])
      invariant forall j :: 0 <= j < 32 ==> result[j] == 0
    {
      assert points[..i + 1][..i] == points[..i];
      hash := hash + u.curve.compress(points[i]);
    }
    assert points[..|points|] == points;
    var digest := u.sha512(hash);
    forall j | 0 <= j < 16 {
      result[j] := digest[j];
    }
    assert result[..] == digest[..16] + Zeros(16);
    c := ReduceL(FromLE(result[..]));
  }

  function NonceScalar<P(!new)>(u: Suite<P>, nonce: seq<byte>, h: P): Scalar
    requires LawfulSuite(u)
  {
    ReduceL(FromLE(u.sha512(nonce + u.curve.compress(h))))
  }

  /** `Output` depends only on the cofactor multiple of gamma. */
  function Output<P(!new)>(u: Suite<P>, gamma: P): seq<byte> {
    u.sha512([SUITE, THREE] + u.curve.compress(Smul(u.curve, COFACTOR, gamma)))
  }

  // ---------------------------------------------------------------- prove and verify

  function Respond(k: Scalar, c: Scalar, x: Scalar): Scalar {
    ReduceL(k + c * x)
  }

  function Prove<P(!new)>(u: Suite<P>, sk: seq<byte>, alpha: seq<byte>): Option<Proof<P>>
    requires LawfulSuite(u)
  {
    var h := HashToCurve(u, PublicKey(u, sk), alpha);
    if h.None? then None else
      var x := KeyScalar(u, sk);
      var k := NonceScalar(u, Nonce(u, sk), h.value);
      var gamma := Smul(u.curve, x, h.value);
      var c := Challenge(u, [h.value, gamma, Smul(u.curve, k, u.curve.base), Smul(u.curve, k, h.value)]);
      Some(Proof(gamma, c, Respond(k, c, x)))
  }

  datatype Verdict = Accept | Reject | Diverges

  /** The two points `verify` reconstructs. */
  function Commitment<P(!new)>(g: Curve<P>, s: Scalar, p: P, c: Scalar, q: P): P {
    Sub(g, Smul(g, s, p), Smul(g, c, q))
  }

  /** A `VRFPublicKey` always holds the encoding of a point. */
  function Verify<P(!new)>(u: Suite<P>, pk: seq<byte>, proof: Proof<P>, alpha: seq<byte>): Verdict
    requires LawfulSuite(u) && u.curve.decompress(pk).Some?
  {
    var h := HashToCurve(u, pk, alpha);
    if h.None? then Diverges else
      var y := u.curve.decompress(pk).value;
      var c := Challenge(u, [h.value, proof.gamma,
                             Commitment(u.curve, proof.s, u.curve.base, proof.c, y),
                             Commitment(u.curve, proof.s, h.value, proof.c, proof.gamma)]);
      if proof.c == c then Accept else Reject
  }

  /** s·P − c·(x·P) = k·P for s = k + c·x, on every point killed by L. */
  lemma CommitmentOpens<P(!new)>(g: Curve<P>, p: P, k: Scalar, c: Scalar, x: Scalar)
    requires Lawful(g) && Smul(g, L, p) == g.zero
    ensures Commitment(g, Respond(k, c, x), p, c, Smul(g, x, p)) == Smul(g, k, p)
  {
    var cx: nat := c * x;
    SplitScalar(g, p, k, cx);
    SmulMul(g, c, x, p);
    SubUndoesAdd(g, Smul(g, k, p), Smul(g, c, Smul(g, x, p)));
  }

  lemma SplitScalar<P(!new)>(g: Curve<P>, p: P, a: nat, b: nat)
    requires Lawful(g) && Smul(g, L, p) == g.zero
    ensures Smul(g, ReduceL(a + b), p) == g.add(Smul(g, a, p), Smul(g, b, p))
  {
    SmulReduce(g, L, a + b, p);
    SmulAdd(g, a, b, p);
  }

  /** The public key, made from the unreduced secret, is also the multiple by the reduced scalar. */
  lemma PublicKeyDecodes<P(!new)>(u: Suite<P>, sk: seq<byte>)
    requires LawfulSuite(u)
    ensures u.curve.decompress(PublicKey(u, sk)) == Some(Smul(u.curve, KeyScalar(u, sk), u.curve.base))
  {
    SmulReduce(u.curve, L, SecretInteger(u, sk), u.curve.base);
    assert PointLaws(u.curve, Smul(u.curve, SecretInteger(u, sk), u.curve.base));
  }

  lemma HashedPointInSubgroup<P(!new)>(u: Suite<P>, pk: seq<byte>, alpha: seq<byte>)
    requires LawfulSuite(u) && HashToCurve(u, pk, alpha).Some?
    ensures Smul(u.curve, L, HashToCurve(u, pk, alpha).value) == u.curve.zero
  {
    CofactorClears(u.curve, FirstFrom(u, pk, alpha, 0).value);
  }

  /** Completeness: for every key and input, `verify` accepts what `prove` returns; both fail to
      return in the same case. */
  lemma ProofsVerify<P(!new)>(u: Suite<P>, sk: seq<byte>, alpha: seq<byte>)
    requires LawfulSuite(u)
    ensures u.curve.decompress(PublicKey(u, sk)).Some?
    ensures Prove(u, sk, alpha).None? <==> forall c: byte :: Candidate(u, PublicKey(u, sk), alpha, c).None?
    ensures Prove(u, sk, alpha).Some? ==>
              Verify(u, PublicKey(u, sk), Prove(u, sk, alpha).value, alpha) == Accept
  {
    PublicKeyDecodes(u, sk);
    FirstFromFinds(u, PublicKey(u, sk), alpha, 0);
    if Prove(u, sk, alpha).Some? {
      var h := HashToCurve(u, PublicKey(u, sk), alpha).value;
      var proof := Prove(u, sk, alpha).value;
      var x, k := KeyScalar(u, sk), NonceScalar(u, Nonce(u, sk), h);
      HashedPointInSubgroup(u, PublicKey(u, sk), alpha);
      CommitmentOpens(u.curve, u.curve.base, k, proof.c, x);
      CommitmentOpens(u.curve, h, k, proof.c, x);
    }
  }

  lemma {:induction false} FirstFromFinds<P(!new)>(u: Suite<P>, pk: seq<byte>, alpha: seq<byte>, counter: nat)
    requires LawfulSuite(u)
    ensures FirstFrom(u, pk, alpha, counter).None? <==>
            forall c: byte :: counter <= c ==> Candidate(u, pk, alpha, c).None?
    decreases 256 - counter
  {
    if counter >= 256 {
    } else {
      FirstFromFinds(u, pk, alpha, counter + 1);
    }
  }

  /** `hash_to_curve` yields the cofactor multiple of the candidate at the least counter that decodes. */
  lemma {:induction false} LeastCandidate<P(!new)>(u: Suite<P>, pk: seq<byte>, alpha: seq<byte>, counter: byte)
    requires LawfulSuite(u)
    requires Candidate(u, pk, alpha, counter).Some?
    requires forall c: byte :: c < counter ==> Candidate(u, pk, alpha, c).None?
    ensures HashToCurve(u, pk, alpha) == Some(Smul(u.curve, 8, Candidate(u, pk, alpha, counter).value))
  {
    SkipTo(u, pk, alpha, counter, counter);
  }

  lemma {:induction false} SkipTo<P(!new)>(u: Suite<P>, pk: seq<byte>, alpha: seq<byte>, counter: byte, steps: nat)
    requires LawfulSuite(u) && steps <= counter && Candidate(u, pk, alpha, counter).Some?
    requires forall c: byte :: counter - steps <= c < counter ==> Candidate(u, pk, alpha, c).None?
    ensures FirstFrom(u, pk, alpha, counter - steps) == Candidate(u, pk, alpha, counter)
    decreases steps
  {
    if steps == 0 {
    } else {
      SkipTo(u, pk, alpha, counter, steps - 1);
    }
  }

  // ---------------------------------------------------------------- proof codec

  function EncodeProof<P(!new)>(u: Suite<P>, proof: Proof<P>): seq<byte> {
    u.curve.compress(proof.gamma) + ToLE(proof.c, 32)[..16] + ToLE(proof.s, 32)
  }

  method ProofToBytes<P(!new)>(u: Suite<P>, proof: Proof<P>) returns (bytes: seq<byte>)
    requires LawfulSuite(u)
    ensures bytes == EncodeProof(u, proof) && |bytes| == PROOF_LENGTH
  {
    assert PointLaws(u.curve, proof.gamma);
    var gamma, c, s := u.curve.compress(proof.gamma), ToLE(proof.c, 32), ToLE(proof.s, 32);
    var ret := new byte[PROOF_LENGTH](_ => 0);
    forall i | 0 <= i < 32 {
      ret[i] := gamma[i];
    }
    forall i | 32 <= i < 48 {
      ret[i] := c[i - 32];
    }
    forall i | 48 <= i < 80 {
      ret[i] := s[i - 48];
    }
    bytes := ret[..];
    assert bytes == gamma + c[..16] + s;
  }

  /** `None` where the source panics: a wrong length, or a first half that is no point. */
  function DecodeProof<P(!new)>(u: Suite<P>, bytes: seq<byte>): Option<Proof<P>> {
    if |bytes| != PROOF_LENGTH then None
    else if u.curve.decompress(bytes[..32]).None? then None
    else Some(Proof(u.curve.decompress(bytes[..32]).value,
                    ReduceL(FromLE(bytes[32..48] + Zeros(16))),
                    ReduceL(FromLE(bytes[48..]))))
  }

  method ProofFromBytes<P(!new)>(u: Suite<P>, bytes: seq<byte>) returns (proof: Option<Proof<P>>)
    ensures proof == DecodeProof(u, bytes)
  {
    if |bytes| != PROOF_LENGTH {
      return None;
    }
    var c_buf, s_buf := new byte[32](_ => 0), new byte[32](_ => 0);
    forall i | 0 <= i < 16 {
      c_buf[i] := bytes[32 + i];
    }
    forall i | 0 <= i < 32 {
      s_buf[i] := bytes[48 + i];
    }
    assert c_buf[..] == bytes[32..48] + Zeros(16);
    assert s_buf[..] == bytes[48..];
    var gamma := u.curve.decompress(bytes[..32]);
    if gamma.None? {
      return None;
    }
    proof := Some(Proof(gamma.value, ReduceL(FromLE(c_buf[..])), ReduceL(FromLE(s_buf[..]))));
  }

  lemma LowHalf(n: nat)
    requires n < TWO_256
    ensures FromLE(ToLE(n, 32)[..16]) == n % TWO_128
  {
    var bytes := ToLE(n, 32);
    var low, high := bytes[..16], bytes[16..];
    assert FromLE(bytes) == n by {
      Pow256Values();
      LEInverse(n, 32);
    }
    assert Pow256(16) == TWO_128 by {
      Pow256Values();
    }
    assert bytes == low + high;
    LEAppend(low, high);
    FromLEBound(low);
    QuotientOf(n, TWO_128, FromLE(high), FromLE(low));
  }

  lemma HalfScalar(c: Scalar)
    ensures ReduceL(FromLE(ToLE(c, 32)[..16] + Zeros(16))) == c <==> c < TWO_128
  {
    LEPadding(ToLE(c, 32)[..16], 16);
    LowHalf(c);
    ReduceSmall(c % TWO_128);
  }

  /** The 80 bytes carry a proof exactly when its challenge fits 128 bits. */
  lemma ProofRoundTrip<P(!new)>(u: Suite<P>, proof: Proof<P>)
    requires LawfulSuite(u)
    ensures DecodeProof(u, EncodeProof(u, proof)) == Some(proof) <==> proof.c < TWO_128
  {
    var bytes := EncodeProof(u, proof);
    var point := u.curve.compress(proof.gamma);
    assert |point| == 32 && u.curve.decompress(point) == Some(proof.gamma) by {
      assert PointLaws(u.curve, proof.gamma);
    }
    assert bytes[..32] == point;
    assert bytes[32..48] == ToLE(proof.c, 32)[..16];
    assert bytes[48..] == ToLE(proof.s, 32);
    FullScalar(proof.s);
    HalfScalar(proof.c);
  }

  lemma FullScalar(s: Scalar)
    ensures ReduceL(FromLE(ToLE(s, 32))) == s
  {
    var v := FromLE(ToLE(s, 32));
    assert v == s by {
      Pow256Values();
      LEInverse(s, 32);
    }
    ReduceSmall(v);
  }

  lemma ChallengeFits<P(!new)>(u: Suite<P>, points: seq<P>)
    requires LawfulSuite(u)
    ensures Challenge(u, points) < TWO_128
  {
    var half := u.sha512([SUITE, TWO] + Compressed(u, points))[..16];
    LEPadding(half, 16);
    FromLEBound(half);
    Pow256Values();
  }

  /** A proof made by `prove` survives its 80-byte encoding and still verifies. */
  lemma TransportedProofsVerify<P(!new)>(u: Suite<P>, sk: seq<byte>, alpha: seq<byte>)
    requires LawfulSuite(u) && Prove(u, sk, alpha).Some?
    ensures var decoded := DecodeProof(u, EncodeProof(u, Prove(u, sk, alpha).value));
      && decoded == Prove(u, sk, alpha)
      && u.curve.decompress(PublicKey(u, sk)).Some?
      && Verify(u, PublicKey(u, sk), decoded.value, alpha) == Accept
      && Output(u, decoded.value.gamma) == Output(u, Prove(u, sk, alpha).value.gamma)
  {
    var proof := Prove(u, sk, alpha).value;
    var h := HashToCurve(u, PublicKey(u, sk), alpha).value;
    var k := NonceScalar(u, Nonce(u, sk), h);
    ChallengeFits(u, [h, proof.gamma, Smul(u.curve, k, u.curve.base), Smul(u.curve, k, h)]);
    ProofRoundTrip(u, proof);
    ProofsVerify(u, sk, alpha);
  }

  /** Re-encoding a decoded proof gives back the bytes exactly when they were canonical. */
  lemma DecodedProofReencodes<P(!new)>(u: Suite<P>, bytes: seq<byte>)
    requires LawfulSuite(u) && DecodeProof(u, bytes).Some?
    ensures EncodeProof(u, DecodeProof(u, bytes).value) == bytes
            <==> u.curve.compress(DecodeProof(u, bytes).value.gamma) == bytes[..32]
                 && FromLE(bytes[48..]) < L
  {
    var proof := DecodeProof(u, bytes).value;
    assert |u.curve.compress(proof.gamma)| == 32 by {
      assert PointLaws(u.curve, proof.gamma);
    }
    DecodedChallenge(bytes[32..48]);
    DecodedResponse(bytes[48..]);
    SplitProof(EncodeProof(u, proof), u.curve.compress(proof.gamma), bytes[32..48], ToLE(proof.s, 32));
    SplitProof(bytes, bytes[..32], bytes[32..48], bytes[48..]);
  }

  lemma SplitProof(bytes: seq<byte>, gamma: seq<byte>, c: seq<byte>, s: seq<byte>)
    requires |gamma| == 32 && |c| == 16 && bytes == gamma + c + s
    ensures bytes[..32] == gamma && bytes[32..48] == c && bytes[48..] == s
  {}

  lemma DecodedChallenge(half: seq<byte>)
    requires |half| == 16
    ensures ToLE(ReduceL(FromLE(half + Zeros(16))), 32)[..16] == half
  {
    Pow256Values();
    LEPadding(half, 16);
    FromLEBound(half);
    LEUnique(half);
    ReduceSmall(FromLE(half));
    LETruncation(FromLE(half), 16, 32);
  }

  lemma DecodedResponse(bytes: seq<byte>)
    requires |bytes| == 32
    ensures ToLE(ReduceL(FromLE(bytes)), 32) == bytes <==> FromLE(bytes) < L
  {
    Pow256Values();
    LEUnique(bytes);
    ReduceSmall(FromLE(bytes));
    LEInverse(ReduceL(FromLE(bytes)), 32);
  }
}
