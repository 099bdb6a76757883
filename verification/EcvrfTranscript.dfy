/** What the VRF hashes and what it puts on the wire, byte by byte.

    Each preimage is described by its slices, so that a hash that leaves out, reorders or adds an
    ingredient does not fit.  SHA-512 stays a parameter. */
module EcvrfTranscript {
  import opened Bytes
  import opened Curve
  import opened Ecvrf
  import opened Wrappers

  // ---------------------------------------------------------------- keys

  lemma SecretFromHash<P(!new)>(u: Suite<P>, sk: seq<byte>, n: nat)
    requires LawfulSuite(u) && n == FromLE(u.sha512(sk)[..32])
    ensures SecretInteger(u, sk) == n % (64 * Pow256(31)) - n % 8 + 64 * Pow256(31)
  {
    ClampInIntegers(u.sha512(sk)[..32]);
  }

  /** The private key is hashed.  The lower half, little-endian, with bits 0 to 2 and 255 cleared and
      bit 254 set (2^254 is 64·256^31), is the secret integer; the upper half is the nonce. */
  lemma KeyExpansion<P(!new)>(u: Suite<P>, sk: seq<byte>) returns (secret: nat)
    requires LawfulSuite(u)
    ensures var n := FromLE(u.sha512(sk)[..32]);
      secret == n % (64 * Pow256(31)) - n % 8 + 64 * Pow256(31)
    ensures KeyScalar(u, sk) == secret % L
    ensures PublicKey(u, sk) == u.curve.compress(Smul(u.curve, secret, u.curve.base)) && |PublicKey(u, sk)| == 32
    ensures Nonce(u, sk) == u.sha512(sk)[32..64]
  {
    secret := SecretInteger(u, sk);
    SecretFromHash(u, sk, FromLE(u.sha512(sk)[..32]));
    assert PointLaws(u.curve, Smul(u.curve, secret, u.curve.base));
  }

  // ---------------------------------------------------------------- preimages

  /** Candidate `counter` decodes the first half of the hash of 3, 1, the key, the input, the counter. */
  lemma CandidatePreimage<P(!new)>(u: Suite<P>, pk: seq<byte>, alpha: seq<byte>, counter: byte) returns (m: seq<byte>)
    requires LawfulSuite(u)
    ensures |m| == 3 + |pk| + |alpha| && m[0] == 3 && m[1] == 1
    ensures m[2..2 + |pk|] == pk && m[2 + |pk|..2 + |pk| + |alpha|] == alpha && m[2 + |pk| + |alpha|] == counter
    ensures Candidate(u, pk, alpha, counter) == u.curve.decompress(u.sha512(m)[..32])
  {
    m := [SUITE, ONE] + pk + alpha + [counter];
  }

  /** The nonce scalar is the whole hash of the nonce and the hashed point. */
  lemma NoncePreimage<P(!new)>(u: Suite<P>, nonce: seq<byte>, h: P) returns (m: seq<byte>)
    requires LawfulSuite(u)
    ensures |m| == |nonce| + 32 && m[..|nonce|] == nonce && m[|nonce|..] == u.curve.compress(h)
    ensures NonceScalar(u, nonce, h) == FromLE(u.sha512(m)) % L
  {
    assert PointLaws(u.curve, h);
    m := nonce + u.curve.compress(h);
  }

  /** The output is the hash of 3, 3 and eight times gamma. */
  lemma OutputPreimage<P(!new)>(u: Suite<P>, gamma: P) returns (m: seq<byte>)
    requires LawfulSuite(u)
    ensures |m| == 34 && m[0] == 3 && m[1] == 3 && m[2..] == u.curve.compress(Smul(u.curve, 8, gamma))
    ensures Output(u, gamma) == u.sha512(m) && |Output(u, gamma)| == 64
  {
    assert PointLaws(u.curve, Smul(u.curve, 8, gamma));
    m := [SUITE, THREE] + u.curve.compress(Smul(u.curve, COFACTOR, gamma));
  }

  /** 3, 2 and the points, 32 bytes each, in order. */
  ghost predicate IsPreimage<P(!new)>(u: Suite<P>, m: seq<byte>, points: seq<P>) {
    && |m| == 2 + 32 * |points| && m[0] == 3 && m[1] == 2
    && forall i {:trigger points[i]} :: 0 <= i < |points| ==> m[2 + 32 * i..34 + 32 * i] == u.curve.compress(points[i])
  }

  lemma {:induction false} CompressedIsPreimage<P(!new)>(u: Suite<P>, points: seq<P>)
    requires LawfulSuite(u)
    ensures IsPreimage(u, [SUITE, TWO] + Compressed(u, points), points)
    decreases |points|
  {
    if points == [] {
    } else {
      var init, last := points[..|points| - 1], points[|points| - 1];
      CompressedIsPreimage(u, init);
      assert PointLaws(u.curve, last);
      var before, m := [SUITE, TWO] + Compressed(u, init), [SUITE, TWO] + Compressed(u, points);
      assert m == before + u.curve.compress(last);
      forall i | 0 <= i < |points| ensures m[2 + 32 * i..34 + 32 * i] == u.curve.compress(points[i]) {
        if i < |init| {
          assert init[i] == points[i];
          assert m[2 + 32 * i..34 + 32 * i] == before[2 + 32 * i..34 + 32 * i];
        }
      }
    }
  }

  /** The challenge is the first sixteen bytes, little-endian, of the hash of that preimage. */
  lemma ChallengePreimage<P(!new)>(u: Suite<P>, points: seq<P>) returns (m: seq<byte>)
    requires LawfulSuite(u)
    ensures IsPreimage(u, m, points) && Challenge(u, points) == FromLE(u.sha512(m)[..16]) % L
  {
    m := [SUITE, TWO] + Compressed(u, points);
    CompressedIsPreimage(u, points);
    LEPadding(u.sha512(m)[..16], 16);
  }

  /** A preimage belongs to one list of points. */
  lemma PreimageDeterminesPoints<P(!new)>(u: Suite<P>, m: seq<byte>, points: seq<P>, others: seq<P>)
    requires LawfulSuite(u) && IsPreimage(u, m, points) && IsPreimage(u, m, others)
    ensures points == others
  {
    forall i | 0 <= i < |points| ensures points[i] == others[i] {
      assert u.curve.compress(points[i]) == u.curve.compress(others[i]);
      assert PointLaws(u.curve, points[i]) && PointLaws(u.curve, others[i]);
    }
  }

  // ---------------------------------------------------------------- prove and verify

  /** `verify` accepts a proof exactly when its challenge is the hash of H, gamma, U and V, in this
      order, where U + c·Y = s·B and V + c·gamma = s·H. */
  lemma AcceptedTranscript<P(!new)>(u: Suite<P>, pk: seq<byte>, proof: Proof<P>, alpha: seq<byte>)
    returns (m: seq<byte>, uPoint: P, vPoint: P)
    requires LawfulSuite(u) && u.curve.decompress(pk).Some? && HashToCurve(u, pk, alpha).Some?
    ensures var (g, y, h) := (u.curve, u.curve.decompress(pk).value, HashToCurve(u, pk, alpha).value);
      && g.add(uPoint, Smul(g, proof.c, y)) == Smul(g, proof.s, g.base)
      && g.add(vPoint, Smul(g, proof.c, proof.gamma)) == Smul(g, proof.s, h)
      && IsPreimage(u, m, [h, proof.gamma, uPoint, vPoint])
    ensures Verify(u, pk, proof, alpha) == if proof.c == FromLE(u.sha512(m)[..16]) % L then Accept else Reject
  {
    var g, y, h := u.curve, u.curve.decompress(pk).value, HashToCurve(u, pk, alpha).value;
    uPoint := Commitment(g, proof.s, g.base, proof.c, y);
    vPoint := Commitment(g, proof.s, h, proof.c, proof.gamma);
    SubUndoesAdd(g, Smul(g, proof.s, g.base), Smul(g, proof.c, y));
    SubUndoesAdd(g, Smul(g, proof.s, h), Smul(g, proof.c, proof.gamma));
    m := ChallengePreimage(u, [h, proof.gamma, uPoint, vPoint]);
  }

  /** What `prove` returns: gamma is the secret multiple of H, the challenge hashes H, gamma, k·B and
      k·H for the nonce scalar k of H, and s is k + c·x. */
  lemma ProvedTranscript<P(!new)>(u: Suite<P>, sk: seq<byte>, alpha: seq<byte>) returns (m: seq<byte>, k: Scalar)
    requires LawfulSuite(u) && HashToCurve(u, PublicKey(u, sk), alpha).Some?
    ensures Prove(u, sk, alpha).Some?
    ensures var (g, x, h) := (u.curve, KeyScalar(u, sk), HashToCurve(u, PublicKey(u, sk), alpha).value);
      var proof := Prove(u, sk, alpha).value;
      && k == NonceScalar(u, u.sha512(sk)[32..64], h)
      && proof.gamma == Smul(g, x, h)
      && IsPreimage(u, m, [h, proof.gamma, Smul(g, k, g.base), Smul(g, k, h)])
      && proof.c == FromLE(u.sha512(m)[..16]) % L
      && proof.s == (k + proof.c * x) % L
  {
    var g, x, h := u.curve, KeyScalar(u, sk), HashToCurve(u, PublicKey(u, sk), alpha).value;
    k := NonceScalar(u, Nonce(u, sk), h);
    assert u.sha512(sk)[32..64] == u.sha512(sk)[32..];
    m := ChallengePreimage(u, [h, Smul(g, x, h), Smul(g, k, g.base), Smul(g, k, h)]);
  }

  // ---------------------------------------------------------------- the 80 bytes

  /** Gamma in bytes 0 to 31, the challenge modulo 2^128 in 32 to 47, s in 48 to 79. */
  lemma ProofLayout<P(!new)>(u: Suite<P>, proof: Proof<P>)
    requires LawfulSuite(u)
    ensures var b := EncodeProof(u, proof);
      && |b| == 80 && b[..32] == u.curve.compress(proof.gamma)
      && FromLE(b[32..48]) == proof.c % TWO_128 && FromLE(b[48..80]) == proof.s
  {
    assert PointLaws(u.curve, proof.gamma);
    var b := EncodeProof(u, proof);
    assert b[32..48] == ToLE(proof.c, 32)[..16] && b[48..80] == ToLE(proof.s, 32);
    Pow256Values();
    LEInverse(proof.s, 32);
    LowHalf(proof.c);
  }

  /** Decoding reads the same three places and refuses nothing but a wrong length or no point. */
  lemma DecodedLayout<P(!new)>(u: Suite<P>, b: seq<byte>)
    ensures DecodeProof(u, b).Some? <==> |b| == 80 && u.curve.decompress(b[..32]).Some?
    ensures DecodeProof(u, b).Some? ==>
              var proof := DecodeProof(u, b).value;
              && Some(proof.gamma) == u.curve.decompress(b[..32])
              && proof.c == FromLE(b[32..48]) % L && proof.s == FromLE(b[48..80]) % L
  {
    if |b| == 80 {
      assert b[48..] == b[48..80];
      LEPadding(b[32..48], 16);
    }
  }
}
