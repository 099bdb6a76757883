/** The transaction signature codec of `crates/alloy-wrapper/src/signature.rs`. */
module Signature {
  import opened MachineInts
  import opened Wrappers
  import opened Bytes
  import opened Hex
  import opened Rlp

  datatype Signature = Signature(r: U256, s: U256, oddYParity: bool)

  /** `v` in u64 arithmetic: EIP-155 with a chain id, 27 or 28 without. */
  function V(sig: Signature, chainId: Option<u64>): u64 {
    var parity := if sig.oddYParity then 1 else 0;
    if chainId.Some? then (parity + chainId.value * 2 + 35) % U64_RANGE else parity + 27
  }

  /** The EIP-155 value before it is cut to a u64. */
  function ExactV(sig: Signature, chainId: Option<u64>): nat {
    var parity := if sig.oddYParity then 1 else 0;
    if chainId.Some? then parity + chainId.value * 2 + 35 else parity + 27
  }

  function ExtractChainId(v: u64): Result<(bool, Option<u64>), DecodeError> {
    if v < 35 then
      if v != 27 && v != 28 then Err(InvalidV) else Ok((v == 28, None))
    else
      Ok(((v - 35) % 2 != 0, Some((v - 35) / 2)))
  }

  function EncodeEip155(sig: Signature, chainId: Option<u64>): seq<byte> {
    EncodeInt(V(sig, chainId)) + EncodeInt(sig.r) + EncodeInt(sig.s)
  }

  function PayloadLenEip155(sig: Signature, chainId: Option<u64>): nat {
    IntLength(V(sig, chainId)) + IntLength(sig.r) + IntLength(sig.s)
  }

  function DecodeU256(buf: seq<byte>): (r: Result<Decoded<U256>, DecodeError>)
    ensures r.Ok? ==> |r.value.rest| < |buf|
  {
    var d := DecodeInt(buf, U256_WIDTH);
    if d.Err? then Err(d.error)
    else IntIsCanonical(buf, U256_WIDTH); Ok(Decoded(d.value.value, d.value.rest))
  }

  function DecodeU64(buf: seq<byte>): (r: Result<Decoded<u64>, DecodeError>)
    ensures r.Ok? ==> |r.value.rest| < |buf|
  {
    var d := DecodeInt(buf, 8);
    if d.Err? then Err(d.error)
    else IntIsCanonical(buf, 8); Pow256Values(); Ok(Decoded(d.value.value, d.value.rest))
  }

  datatype Parsed = Parsed(sig: Signature, chainId: Option<u64>, rest: seq<byte>)

  function DecodeEip155(buf: seq<byte>): Result<Parsed, DecodeError> {
    var v :- DecodeU64(buf);
    var r :- DecodeU256(v.rest);
    var s :- DecodeU256(r.rest);
    var extracted :- ExtractChainId(v.value);
    Ok(Parsed(Signature(r.value, s.value, extracted.0), extracted.1, s.rest))
  }

  function ParityInt(odd: bool): U256 {
    if odd then 1 else 0
  }

  function Encode(sig: Signature): seq<byte> {
    EncodeInt(ParityInt(sig.oddYParity)) + EncodeInt(sig.r) + EncodeInt(sig.s)
  }

  function PayloadLen(sig: Signature): nat {
    IntLength(ParityInt(sig.oddYParity)) + IntLength(sig.r) + IntLength(sig.s)
  }

  /** A bool is a one-byte integer that must be 0 or 1. */
  function DecodeBool(buf: seq<byte>): (r: Result<Decoded<bool>, DecodeError>)
    ensures r.Ok? ==> |r.value.rest| < |buf|
  {
    var d := DecodeInt(buf, 1);
    if d.Err? then Err(d.error)
    else if d.value.value == 0 then Ok(Decoded(false, d.value.rest))
    else if d.value.value == 1 then Ok(Decoded(true, d.value.rest))
    else Err(InvalidBool)
  }

  function Decode(buf: seq<byte>): Result<Decoded<Signature>, DecodeError> {
    var parity :- DecodeBool(buf);
    var r :- DecodeU256(parity.rest);
    var s :- DecodeU256(r.rest);
    Ok(Decoded(Signature(r.value, s.value, parity.value), s.rest))
  }

  // ---------------------------------------------------------------- the buffers

  lemma Append(before: seq<byte>, a: seq<byte>, b: seq<byte>, c: seq<byte>)
    ensures before + a + b + c == before + (a + b + c)
  {}

  class OutBuffer {
    var bytes: seq<byte>

    constructor ()
      ensures bytes == []
    {
      bytes := [];
    }

    method PutInt(n: U256)
      modifies this
      ensures bytes == old(bytes) + EncodeInt(n)
    {
      if n == 0 {
        bytes := bytes + [EMPTY_STRING];
      } else if n < 0x80 {
        bytes := bytes + [n];
      } else {
        WidthOfU256(n);
        bytes := bytes + [EMPTY_STRING + |BigEndian(n)| as byte];
        bytes := bytes + BigEndian(n);
      }
    }

    method PutThree(first: U256, r: U256, s: U256)
      modifies this
      ensures bytes == old(bytes) + (EncodeInt(first) + EncodeInt(r) + EncodeInt(s))
    {
      Append(bytes, EncodeInt(first), EncodeInt(r), EncodeInt(s));
      PutInt(first);
      PutInt(r);
      PutInt(s);
    }

    method PutSignatureEip155(sig: Signature, chainId: Option<u64>)
      modifies this
      ensures bytes == old(bytes) + EncodeEip155(sig, chainId)
      ensures |bytes| == |old(bytes)| + PayloadLenEip155(sig, chainId)
    {
      EncodedLengths(sig, chainId);
      PutThree(V(sig, chainId), sig.r, sig.s);
    }

    method PutSignature(sig: Signature)
      modifies this
      ensures bytes == old(bytes) + Encode(sig)
      ensures |bytes| == |old(bytes)| + PayloadLen(sig)
    {
      EncodedLengths(sig, None);
      PutThree(ParityInt(sig.oddYParity), sig.r, sig.s);
    }
  }

  /** A byte slice that decoding advances.  After an error its position is not specified. */
  class Cursor {
    var rest: seq<byte>

    constructor (bytes: seq<byte>)
      ensures rest == bytes
    {
      rest := bytes;
    }

    method TakeU64() returns (r: Result<u64, DecodeError>)
      modifies this
      ensures r.Ok? <==> DecodeU64(old(rest)).Ok?
      ensures r.Ok? ==> DecodeU64(old(rest)).value == Decoded(r.value, rest)
      ensures r.Err? ==> r.error == DecodeU64(old(rest)).error
    {
      match DecodeU64(rest) {
        case Ok(d) =>
          rest := d.rest;
          r := Ok(d.value);
        case Err(e) => r := Err(e);
      }
    }

    method TakeU256() returns (r: Result<U256, DecodeError>)
      modifies this
      ensures r.Ok? <==> DecodeU256(old(rest)).Ok?
      ensures r.Ok? ==> DecodeU256(old(rest)).value == Decoded(r.value, rest)
      ensures r.Err? ==> r.error == DecodeU256(old(rest)).error
    {
      match DecodeU256(rest) {
        case Ok(d) =>
          rest := d.rest;
          r := Ok(d.value);
        case Err(e) => r := Err(e);
      }
    }

    method TakeBool() returns (r: Result<bool, DecodeError>)
      modifies this
      ensures r.Ok? <==> DecodeBool(old(rest)).Ok?
      ensures r.Ok? ==> DecodeBool(old(rest)).value == Decoded(r.value, rest)
      ensures r.Err? ==> r.error == DecodeBool(old(rest)).error
    {
      match DecodeBool(rest) {
        case Ok(d) =>
          rest := d.rest;
          r := Ok(d.value);
        case Err(e) => r := Err(e);
      }
    }

    method TakeSignature() returns (r: Result<Signature, DecodeError>)
      modifies this
      ensures r.Ok? <==> Decode(old(rest)).Ok?
      ensures r.Ok? ==> Decode(old(rest)).value == Decoded(r.value, rest)
      ensures r.Err? ==> r.error == Decode(old(rest)).error
    {
      var odd :- TakeBool();
      var x :- TakeU256();
      var s :- TakeU256();
      r := Ok(Signature(x, s, odd));
    }

    method TakeSignatureEip155() returns (r: Result<(Signature, Option<u64>), DecodeError>)
      modifies this
      ensures r.Ok? <==> DecodeEip155(old(rest)).Ok?
      ensures r.Ok? ==> DecodeEip155(old(rest)).value == Parsed(r.value.0, r.value.1, rest)
      ensures r.Err? ==> r.error == DecodeEip155(old(rest)).error
    {
      var v :- TakeU64();
      var x :- TakeU256();
      var s :- TakeU256();
      var extracted :- ExtractChainId(v);
      r := Ok((Signature(x, s, extracted.0), extracted.1));
    }
  }

  // ---------------------------------------------------------------- the codec's laws

  lemma EncodedLengths(sig: Signature, chainId: Option<u64>)
    ensures |EncodeEip155(sig, chainId)| == PayloadLenEip155(sig, chainId)
    ensures |Encode(sig)| == PayloadLen(sig)
  {
    EncodedLength(V(sig, chainId));
    EncodedLength(ParityInt(sig.oddYParity));
    EncodedLength(sig.r);
    EncodedLength(sig.s);
  }

  /** `v` determines parity and chain id exactly while the EIP-155 value fits a u64. */
  lemma ExtractInvertsV(sig: Signature, chainId: Option<u64>)
    ensures ExtractChainId(V(sig, chainId)) == Ok((sig.oddYParity, chainId))
            <==> ExactV(sig, chainId) < U64_RANGE
  {
    if chainId.Some? {
      var exact, v := ExactV(sig, chainId), V(sig, chainId);
      if exact >= U64_RANGE {
        assert v < exact;
      } else {
        assert v == exact;
      }
    }
  }

  lemma VInvertsExtract(v: u64, sig: Signature, chainId: Option<u64>)
    requires ExtractChainId(v) == Ok((sig.oddYParity, chainId))
    ensures V(sig, chainId) == v && ExactV(sig, chainId) == v
  {}

  lemma TakeU256Back(n: U256, tail: seq<byte>)
    ensures DecodeU256(EncodeInt(n) + tail) == Ok(Decoded(n, tail))
  {
    Pow256Values();
    IntRoundTrip(n, U256_WIDTH, tail);
  }

  lemma TakeU64Back(n: u64, tail: seq<byte>)
    ensures DecodeU64(EncodeInt(n) + tail) == Ok(Decoded(n, tail))
  {
    Pow256Values();
    IntRoundTrip(n, 8, tail);
  }

  /** Decoding the EIP-155 encoding, whatever follows it, gives back signature, chain id and exactly
      the bytes that followed, if and only if parity + 2·id + 35 fits a u64. */
  lemma Eip155RoundTrip(sig: Signature, chainId: Option<u64>, tail: seq<byte>)
    ensures DecodeEip155(EncodeEip155(sig, chainId) + tail) == Ok(Parsed(sig, chainId, tail))
            <==> ExactV(sig, chainId) < U64_RANGE
  {
    var v := V(sig, chainId);
    var afterR := EncodeInt(sig.s) + tail;
    var afterV := EncodeInt(sig.r) + afterR;
    assert EncodeEip155(sig, chainId) + tail == EncodeInt(v) + afterV;
    TakeU64Back(v, afterV);
    TakeU256Back(sig.r, afterR);
    TakeU256Back(sig.s, tail);
    ExtractInvertsV(sig, chainId);
  }

  lemma TookU256(buf: seq<byte>)
    requires DecodeU256(buf).Ok?
    ensures buf == EncodeInt(DecodeU256(buf).value.value) + DecodeU256(buf).value.rest
  {
    IntIsCanonical(buf, U256_WIDTH);
  }

  lemma TookU64(buf: seq<byte>)
    requires DecodeU64(buf).Ok?
    ensures buf == EncodeInt(DecodeU64(buf).value.value) + DecodeU64(buf).value.rest
  {
    IntIsCanonical(buf, 8);
  }

  lemma Join(a: seq<byte>, b: seq<byte>, c: seq<byte>, rest: seq<byte>)
    ensures a + (b + (c + rest)) == a + b + c + rest
  {}

  /** Whatever decodes is the encoding of what it decodes to, followed by the rest. */
  lemma Eip155IsCanonical(buf: seq<byte>)
    requires DecodeEip155(buf).Ok?
    ensures var Parsed(sig, chainId, rest) := DecodeEip155(buf).value;
      buf == EncodeEip155(sig, chainId) + rest && ExactV(sig, chainId) < U64_RANGE
  {
    var Parsed(sig, chainId, rest) := DecodeEip155(buf).value;
    var v := DecodeU64(buf).value;
    var r := DecodeU256(v.rest).value;
    TookU64(buf);
    TookU256(v.rest);
    TookU256(r.rest);
    VInvertsExtract(v.value, sig, chainId);
    Join(EncodeInt(v.value), EncodeInt(sig.r), EncodeInt(sig.s), rest);
  }

  lemma PlainRoundTrip(sig: Signature, tail: seq<byte>)
    ensures Decode(Encode(sig) + tail) == Ok(Decoded(sig, tail))
  {
    var parity := ParityInt(sig.oddYParity);
    var afterR := EncodeInt(sig.s) + tail;
    var afterParity := EncodeInt(sig.r) + afterR;
    assert Encode(sig) + tail == EncodeInt(parity) + afterParity;
    IntRoundTrip(parity, 1, afterParity);
    assert Pow256(1) == 256;
    TakeU256Back(sig.r, afterR);
    TakeU256Back(sig.s, tail);
  }

  lemma PlainIsCanonical(buf: seq<byte>)
    requires Decode(buf).Ok?
    ensures var Decoded(sig, rest) := Decode(buf).value; buf == Encode(sig) + rest
  {
    var Decoded(sig, rest) := Decode(buf).value;
    var parity := DecodeBool(buf).value;
    var r := DecodeU256(parity.rest).value;
    IntIsCanonical(buf, 1);
    TookU256(parity.rest);
    TookU256(r.rest);
    Join(EncodeInt(ParityInt(sig.oddYParity)), EncodeInt(sig.r), EncodeInt(sig.s), rest);
  }

  // ---------------------------------------------------------------- the fields on the wire

  /** The buffer starts with three integers, the first of at most `width` bytes. */
  ghost predicate ReadsAs(buf: seq<byte>, width: nat, first: nat, r: nat, s: nat, rest: seq<byte>)
    requires width <= 32
  {
    exists afterFirst: seq<byte>, afterR: seq<byte> ::
      && DecodeInt(buf, width) == Ok(Decoded(first, afterFirst))
      && DecodeInt(afterFirst, 32) == Ok(Decoded(r, afterR))
      && DecodeInt(afterR, 32) == Ok(Decoded(s, rest))
  }

  lemma ThreeInts(first: U256, width: nat, r: U256, s: U256, tail: seq<byte>)
    requires width <= 32 && first < Pow256(width)
    ensures ReadsAs(EncodeInt(first) + (EncodeInt(r) + (EncodeInt(s) + tail)), width, first, r, s, tail)
  {
    Pow256Values();
    IntRoundTrip(first, width, EncodeInt(r) + (EncodeInt(s) + tail));
    IntRoundTrip(r, 32, EncodeInt(s) + tail);
    IntRoundTrip(s, 32, tail);
  }

  lemma VValue(sig: Signature, chainId: Option<u64>, v: u64)
    requires v == V(sig, chainId)
    ensures v < Pow256(8)
    ensures var parity := if sig.oddYParity then 1 else 0;
      v == if chainId.None? then 27 + parity else (parity + 2 * chainId.value + 35) % 0x1_0000_0000_0000_0000
  {
    Pow256Values();
  }

  /** The EIP-155 form is v, r, s in this order, where v is 27 or 28 without a chain id and
      parity + 2·id + 35 in u64 arithmetic with one. */
  lemma Eip155Layout(sig: Signature, chainId: Option<u64>, tail: seq<byte>) returns (v: u64)
    ensures ReadsAs(EncodeEip155(sig, chainId) + tail, 8, v, sig.r, sig.s, tail)
    ensures var parity := if sig.oddYParity then 1 else 0;
      v == if chainId.None? then 27 + parity else (parity + 2 * chainId.value + 35) % 0x1_0000_0000_0000_0000
  {
    v := V(sig, chainId);
    VValue(sig, chainId, v);
    Join(EncodeInt(v), EncodeInt(sig.r), EncodeInt(sig.s), tail);
    ThreeInts(v, 8, sig.r, sig.s, tail);
  }

  /** The other form is the parity as 0 or 1, then r, then s. */
  lemma PlainLayout(sig: Signature, tail: seq<byte>)
    ensures ReadsAs(Encode(sig) + tail, 1, if sig.oddYParity then 1 else 0, sig.r, sig.s, tail)
  {
    var parity := ParityInt(sig.oddYParity);
    Join(EncodeInt(parity), EncodeInt(sig.r), EncodeInt(sig.s), tail);
    assert Pow256(1) == 256;
    ThreeInts(parity, 1, sig.r, sig.s, tail);
  }

  lemma TakesU256(buf: seq<byte>, n: nat, rest: seq<byte>)
    requires DecodeInt(buf, 32) == Ok(Decoded(n, rest))
    ensures n < TWO_256 && DecodeU256(buf) == Ok(Decoded(n, rest))
  {
    IntIsCanonical(buf, 32);
  }

  lemma TakesU64(buf: seq<byte>, n: nat, rest: seq<byte>)
    requires DecodeInt(buf, 8) == Ok(Decoded(n, rest))
    ensures n < 0x1_0000_0000_0000_0000 && DecodeU64(buf) == Ok(Decoded(n, rest))
  {
    IntIsCanonical(buf, 8);
    Pow256Values();
  }

  lemma TakesTwo(buf: seq<byte>, width: nat, first: nat, r: nat, s: nat, rest: seq<byte>)
    returns (afterFirst: seq<byte>, afterR: seq<byte>)
    requires width <= 32 && ReadsAs(buf, width, first, r, s, rest)
    ensures DecodeInt(buf, width) == Ok(Decoded(first, afterFirst))
    ensures r < TWO_256 && DecodeU256(afterFirst) == Ok(Decoded(r, afterR))
    ensures s < TWO_256 && DecodeU256(afterR) == Ok(Decoded(s, rest))
  {
    afterFirst, afterR :|
      && DecodeInt(buf, width) == Ok(Decoded(first, afterFirst))
      && DecodeInt(afterFirst, 32) == Ok(Decoded(r, afterR))
      && DecodeInt(afterR, 32) == Ok(Decoded(s, rest));
    TakesU256(afterFirst, r, afterR);
    TakesU256(afterR, s, rest);
  }

  /** What a buffer of three integers decodes to: v must be 27, 28 or at least 35. */
  lemma Eip155Verdict(buf: seq<byte>, v: nat, r: nat, s: nat, rest: seq<byte>)
    requires ReadsAs(buf, 8, v, r, s, rest)
    ensures r < TWO_256 && s < TWO_256 && v < 0x1_0000_0000_0000_0000
    ensures DecodeEip155(buf)
            == if v == 27 then Ok(Parsed(Signature(r, s, false), None, rest))
               else if v == 28 then Ok(Parsed(Signature(r, s, true), None, rest))
               else if v >= 35 then Ok(Parsed(Signature(r, s, v % 2 == 0), Some((v - 35) / 2), rest))
               else Err(InvalidV)
  {
    var afterV, afterR := TakesTwo(buf, 8, v, r, s, rest);
    TakesU64(buf, v, afterV);
  }

  /** Anything else is malformed. */
  lemma Eip155Malformed(buf: seq<byte>)
    ensures DecodeEip155(buf) == Err(Malformed)
            <==> forall v: nat, r: nat, s: nat, rest: seq<byte> :: !ReadsAs(buf, 8, v, r, s, rest)
  {
    if v: nat, r: nat, s: nat, rest: seq<byte> :| ReadsAs(buf, 8, v, r, s, rest) {
      Eip155Verdict(buf, v, r, s, rest);
    } else if DecodeEip155(buf) != Err(Malformed) {
      var v := DecodeU64(buf).value;
      var r := DecodeU256(v.rest).value;
      var s := DecodeU256(r.rest).value;
      assert ReadsAs(buf, 8, v.value, r.value, s.value, s.rest);
    }
  }

  /** What the parity form decodes to: the first integer is the parity. */
  lemma PlainVerdict(buf: seq<byte>, parity: nat, r: nat, s: nat, rest: seq<byte>)
    requires ReadsAs(buf, 1, parity, r, s, rest)
    ensures r < TWO_256 && s < TWO_256
    ensures Decode(buf) == if parity <= 1 then Ok(Decoded(Signature(r, s, parity == 1), rest)) else Err(InvalidBool)
  {
    var afterParity, afterR := TakesTwo(buf, 1, parity, r, s, rest);
  }

  lemma PlainMalformed(buf: seq<byte>)
    ensures Decode(buf) == Err(InvalidBool) <==> DecodeInt(buf, 1).Ok? && DecodeInt(buf, 1).value.value > 1
    ensures Decode(buf).Ok? <==>
              exists parity: nat, r: nat, s: nat, rest: seq<byte> :: parity <= 1 && ReadsAs(buf, 1, parity, r, s, rest)
    ensures Decode(buf).Err? ==> Decode(buf).error in {Malformed, InvalidBool}
  {
    if Decode(buf).Ok? {
      var parity := DecodeInt(buf, 1).value;
      var r := DecodeU256(parity.rest).value;
      var s := DecodeU256(r.rest).value;
      assert ReadsAs(buf, 1, parity.value, r.value, s.value, s.rest);
    }
    if parity: nat, r: nat, s: nat, rest: seq<byte> :| parity <= 1 && ReadsAs(buf, 1, parity, r, s, rest) {
      PlainVerdict(buf, parity, r, s, rest);
    }
  }

  // ---------------------------------------------------------------- the 65-byte form

  function ToBytes(sig: Signature): seq<byte> {
    ToBE(sig.r, 32) + ToBE(sig.s, 32) + [if sig.oddYParity then 28 else 27]
  }

  /** r and s big-endian in 32 bytes each, then 27 plus the parity. */
  lemma BytesLayout(sig: Signature)
    ensures var b := ToBytes(sig);
      && |b| == 65 && b[64] == (if sig.oddYParity then 28 else 27)
      && FromBE(b[..32]) == sig.r && FromBE(b[32..64]) == sig.s
  {
    var b := ToBytes(sig);
    assert b[..32] == ToBE(sig.r, 32) && b[32..64] == ToBE(sig.s, 32);
    Pow256Values();
    BEInverse(sig.r, 32);
    BEInverse(sig.s, 32);
  }

  method FillBytes(sig: Signature) returns (bytes: seq<byte>)
    ensures bytes == ToBytes(sig) && |bytes| == 65
  {
    var out := new byte[65](_ => 0);
    var r, s := ToBE(sig.r, 32), ToBE(sig.s, 32);
    forall i | 0 <= i < 32 {
      out[i] := r[i];
    }
    forall i | 32 <= i < 64 {
      out[i] := s[i - 32];
    }
    out[64] := (if sig.oddYParity then 1 else 0) + 27;
    bytes := out[..];
    assert bytes == r + s + [out[64]];
  }

  /** `from_hex_str`, with u8 subtraction wrapping; `None` where it panics on bad or short input. */
  function FromHexStr(s: string): Option<Signature> {
    var decoded := HexDecode(StripPrefix(s));
    if decoded.None? || |decoded.value| < 65 then None
    else
      var bytes := decoded.value;
      var odd := if bytes[64] > 1 then (bytes[64] as int - 27) % 256 == 1 else bytes[64] == 1;
      FromBEFits(bytes[..32]);
      FromBEFits(bytes[32..64]);
      Some(Signature(FromBE(bytes[..32]), FromBE(bytes[32..64]), odd))
  }

  lemma FromBEFits(bytes: seq<byte>)
    requires |bytes| == 32
    ensures FromBE(bytes) < TWO_256
  {
    FromBEBound(bytes);
    Pow256Values();
  }

  /** The hexadecimal 65-byte form reads back as the same signature, bare or as `to_hex_bytes` prints
      it, with a leading 0x. */
  lemma HexRoundTripOfSignature(sig: Signature)
    ensures FromHexStr(HexEncode(ToBytes(sig))) == Some(sig)
    ensures FromHexStr("0x" + HexEncode(ToBytes(sig))) == Some(sig)
  {
    var bytes := ToBytes(sig);
    HexRoundTrip(bytes);
    StripsBothForms(HexEncode(bytes));
    BytesLayout(sig);
  }

  /** What is read: at least 65 bytes of hexadecimal digits; r and s are the first two words and the
      parity is odd for the bytes 1 and 28 only, so both conventions are taken. */
  lemma HexParity(s: string)
    ensures FromHexStr(s).Some? <==> HexDecode(StripPrefix(s)).Some? && |HexDecode(StripPrefix(s)).value| >= 65
    ensures FromHexStr(s).Some? ==>
              var sig, bytes := FromHexStr(s).value, HexDecode(StripPrefix(s)).value;
              && sig.r == FromBE(bytes[..32]) && sig.s == FromBE(bytes[32..64])
              && (sig.oddYParity <==> bytes[64] in {1, 28})
  {}
}
