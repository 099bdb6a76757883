/** `run_vrf` end to end: what a receiver can check from the reply alone. */
module VrfReply {
  import opened Wrappers
  import opened Bytes
  import opened Ecvrf
  import opened Hex
  import opened Sortition

  datatype Reply = Reply(
    selected: bool,
    promptHash: string,
    randomValue: string,
    verifyPubkey: string,
    proof: string)

  /** The bytes of an ASCII string; the prompt hash is a hexadecimal string. */
  function AsBytes(s: string): (bytes: seq<byte>)
    requires AllHex(s)
    ensures |bytes| == |s| && forall i :: 0 <= i < |s| ==> bytes[i] as char == s[i]
  {
    seq(|s|, i requires 0 <= i < |s| => assert HexDigit(s[i]).Some?; s[i] as nat)
  }

  /** `None` where the source panics or never returns. */
  function RunVrf<P(!new)>(u: Suite<P>, sk: seq<byte>, promptHash: string, precision: nat, threshold: nat)
    : Option<Reply>
    requires LawfulSuite(u) && AllHex(promptHash)
  {
    var proof := Prove(u, sk, AsBytes(promptHash));
    if proof.None? then None else
      var output := Output(u, proof.value.gamma);
      var selected := Selected(output, precision, threshold);
      if selected.None? then None else
        Some(Reply(selected.value, promptHash, HexEncode(output), HexEncode(PublicKey(u, sk)),
                   HexEncode(EncodeProof(u, proof.value))))
  }

  /** A receiver that asked about `promptHash` of the holder of the key `pk`: the reply names both, its
      proof decodes and verifies on the prompt asked about, the random value is the proof's output and
      the decision is that output modulo 16^p against the threshold. */
  ghost predicate Checks<P(!new)>(u: Suite<P>, pk: seq<byte>, promptHash: string, reply: Reply,
                                  precision: nat, threshold: nat)
    requires LawfulSuite(u) && u.curve.decompress(pk).Some? && AllHex(promptHash)
  {
    var bytes, output := HexDecode(reply.proof), HexDecode(reply.randomValue);
    && reply.promptHash == promptHash && reply.verifyPubkey == HexEncode(pk)
    && bytes.Some? && output.Some?
    && var proof := DecodeProof(u, bytes.value);
      && proof.Some?
      && Verify(u, pk, proof.value, AsBytes(promptHash)) == Accept
      && output.value == Output(u, proof.value.gamma)
      && |output.value| == OUTPUT_LENGTH
      && (reply.selected <==> FromBE(output.value) % Pow16(precision) < threshold)
  }

  /** Every reply of `run_vrf` passes that check for the prompt it was given and the caller's own key,
      which reads back from the reply, and there is one exactly for precisions 1 to 128 whenever
      hash-to-curve finds a point. */
  lemma RepliesCheck<P(!new)>(u: Suite<P>, sk: seq<byte>, promptHash: string, precision: nat, threshold: nat)
    requires LawfulSuite(u) && AllHex(promptHash)
    ensures RunVrf(u, sk, promptHash, precision, threshold).Some? <==>
              1 <= precision <= 128 && HashToCurve(u, PublicKey(u, sk), AsBytes(promptHash)).Some?
    ensures u.curve.decompress(PublicKey(u, sk)).Some?
    ensures RunVrf(u, sk, promptHash, precision, threshold).Some? ==>
              var reply := RunVrf(u, sk, promptHash, precision, threshold).value;
              && Checks(u, PublicKey(u, sk), promptHash, reply, precision, threshold)
              && HexDecode(reply.verifyPubkey) == Some(PublicKey(u, sk))
              && Prove(u, sk, AsBytes(promptHash)).Some?
              && HexDecode(reply.proof) == Some(EncodeProof(u, Prove(u, sk, AsBytes(promptHash)).value))
  {
    var alpha := AsBytes(promptHash);
    PublicKeyDecodes(u, sk);
    if Prove(u, sk, alpha).Some? {
      var proof := Prove(u, sk, alpha).value;
      var output := Output(u, proof.gamma);
      SelectionIsModular(output, precision, threshold);
      TransportedProofsVerify(u, sk, alpha);
      HexRoundTrip(output);
      HexRoundTrip(PublicKey(u, sk));
      HexRoundTrip(EncodeProof(u, proof));
    }
  }
}
