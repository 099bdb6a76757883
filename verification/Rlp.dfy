/** RLP integers: the canonical strings of Appendix B of the Ethereum Yellow Paper, which
    `alloy_rlp` writes and is strict about when it reads. */
module Rlp {
  import opened Wrappers
  import opened Bytes

  const EMPTY_STRING: byte := 0x80
  const U256_WIDTH: nat := 32

  datatype DecodeError = Malformed | InvalidV | InvalidBool

  /** Big-endian bytes without leading zeros. */
  function BigEndian(n: nat): seq<byte> {
    if n == 0 then [] else BigEndian(n / 256) + [n % 256]
  }

  type U256 = n: nat | n < TWO_256

  function EncodeInt(n: U256): seq<byte> {
    if n == 0 then [EMPTY_STRING]
    else if n < 0x80 then [n]
    else
      WidthOfU256(n);
      [EMPTY_STRING + |BigEndian(n)| as byte] + BigEndian(n)
  }

  function ByteLength(n: nat): nat {
    if n == 0 then 0 else 1 + ByteLength(n / 256)
  }

  /** `Encodable::length` of an unsigned integer. */
  function IntLength(n: nat): nat {
    if n < 0x80 then 1 else 1 + ByteLength(n)
  }

  datatype Decoded<+T> = Decoded(value: T, rest: seq<byte>)

  /** The string payload at the head of the buffer; longer headers and lists are never integers. */
  function DecodeString(buf: seq<byte>): (r: Result<Decoded<seq<byte>>, DecodeError>)
    ensures r.Err? ==> r.error.Malformed?
  {
    if buf == [] then Err(Malformed)
    else if buf[0] < EMPTY_STRING then Ok(Decoded([buf[0]], buf[1..]))
    else if buf[0] <= 0xb7 then
      var len := buf[0] - EMPTY_STRING;
      if |buf| < 1 + len then Err(Malformed)
      else if len == 1 && buf[1] < EMPTY_STRING then Err(Malformed)
      else Ok(Decoded(buf[1..1 + len], buf[1 + len..]))
    else Err(Malformed)
  }

  /** `Decodable::decode` of an unsigned integer of `width` bytes: no leading zero, no overflow. */
  function DecodeInt(buf: seq<byte>, width: nat): (r: Result<Decoded<nat>, DecodeError>)
    requires width <= U256_WIDTH
    ensures r.Ok? ==> |r.value.rest| < |buf|
    ensures r.Err? ==> r.error.Malformed?
  {
    var payload := DecodeString(buf);
    if payload.Err? then Err(payload.error)
    else
      var Decoded(bytes, rest) := payload.value;
      if |bytes| > width || (bytes != [] && bytes[0] == 0) then Err(Malformed)
      else Ok(Decoded(FromBE(bytes), rest))
  }

  // ---------------------------------------------------------------- big-endian strings

  lemma {:induction false} BigEndianValue(n: nat)
    ensures FromBE(BigEndian(n)) == n
    ensures |BigEndian(n)| == ByteLength(n)
    ensures n > 0 ==> BigEndian(n) != [] && BigEndian(n)[0] != 0
  {
    if n == 0 {
    } else {
      BigEndianValue(n / 256);
      assert BigEndian(n)[..|BigEndian(n)| - 1] == BigEndian(n / 256);
    }
  }

  lemma {:induction false} LeadingByteCounts(s: seq<byte>)
    requires s != [] && s[0] != 0
    ensures FromBE(s) > 0
  {
    if |s| == 1 {
    } else {
      LeadingByteCounts(s[..|s| - 1]);
    }
  }

  lemma {:induction false} BigEndianOf(s: seq<byte>)
    requires s == [] || s[0] != 0
    ensures BigEndian(FromBE(s)) == s
  {
    if s == [] {
    } else {
      var init := s[..|s| - 1];
      BigEndianOf(init);
      LeadingByteCounts(s);
      assert s == init + [s[|s| - 1]];
      assert FromBE(s) / 256 == FromBE(init) && FromBE(s) % 256 == s[|s| - 1];
    }
  }

  /** A value fits `width` bytes exactly when its string does. */
  lemma {:induction false} BigEndianWidth(n: nat, width: nat)
    ensures |BigEndian(n)| <= width <==> n < Pow256(width)
  {
    if n == 0 || width == 0 {
    } else {
      BigEndianWidth(n / 256, width - 1);
    }
  }

  // ---------------------------------------------------------------- the codec

  lemma WidthOfU256(n: nat)
    ensures |BigEndian(n)| <= U256_WIDTH <==> n < TWO_256
  {
    Pow256Values();
    BigEndianWidth(n, U256_WIDTH);
  }

  lemma OneByte(n: nat)
    requires 0 < n < 256
    ensures BigEndian(n) == [n]
  {
    assert BigEndian(n / 256) == [];
  }

  /** The payload read back is the big-endian string itself, in all three forms of the encoding. */
  lemma PayloadRoundTrip(n: U256, tail: seq<byte>)
    ensures DecodeString(EncodeInt(n) + tail) == Ok(Decoded(BigEndian(n), tail))
  {
    if n == 0 {
      assert ([EMPTY_STRING] + tail)[1..1] == [] && ([EMPTY_STRING] + tail)[1..] == tail;
    } else if n < 0x80 {
      OneByte(n);
      assert ([n] + tail)[1..] == tail;
    } else {
      WidthOfU256(n);
      LongPayload(BigEndian(n), tail);
      if n < 256 {
        OneByte(n);
      } else {
        AtLeastTwoBytes(n);
      }
    }
  }

  lemma AtLeastTwoBytes(n: nat)
    requires n >= 256
    ensures |BigEndian(n)| >= 2
  {
    assert BigEndian(n / 256) != [];
  }

  lemma SmallIsShort(n: nat)
    requires n < 0x80
    ensures |BigEndian(n)| <= 1
  {
    assert BigEndian(n / 256) == [];
  }

  lemma LongPayload(bytes: seq<byte>, tail: seq<byte>)
    requires 1 <= |bytes| <= U256_WIDTH && (|bytes| == 1 ==> bytes[0] >= 0x80)
    ensures DecodeString([EMPTY_STRING + |bytes| as byte] + bytes + tail) == Ok(Decoded(bytes, tail))
  {
    var buf: seq<byte> := [EMPTY_STRING + |bytes| as byte] + bytes + tail;
    assert buf[1..1 + |bytes|] == bytes;
    assert buf[1 + |bytes|..] == tail;
  }

  /** Reading back an encoded integer, whatever follows it, works exactly at the widths it fits. */
  lemma IntRoundTrip(n: U256, width: nat, tail: seq<byte>)
    requires width <= U256_WIDTH
    ensures DecodeInt(EncodeInt(n) + tail, width) == Ok(Decoded(n, tail)) <==> n < Pow256(width)
  {
    PayloadRoundTrip(n, tail);
    BigEndianWidth(n, width);
    BigEndianValue(n);
  }

  /** Only canonical strings decode: what was consumed is the encoding of the value. */
  lemma IntIsCanonical(buf: seq<byte>, width: nat)
    requires width <= U256_WIDTH && DecodeInt(buf, width).Ok?
    ensures var Decoded(n, rest) := DecodeInt(buf, width).value;
      n < Pow256(width) && n < TWO_256 && buf == EncodeInt(n) + rest
  {
    var Decoded(bytes, rest) := DecodeString(buf).value;
    BigEndianOf(bytes);
    BigEndianWidth(FromBE(bytes), width);
    WidthOfU256(FromBE(bytes));
    if buf[0] < EMPTY_STRING {
      assert FromBE([buf[0]]) == buf[0];
      assert buf == [buf[0]] + buf[1..];
    } else if bytes != [] {
      assert buf == [buf[0]] + bytes + rest;
      if |bytes| == 1 {
        assert FromBE(bytes) == bytes[0];
      } else {
        assert FromBE(bytes) >= 0x80 by {
          if FromBE(bytes) < 0x80 {
            SmallIsShort(FromBE(bytes));
          }
        }
      }
    } else {
      assert buf == [EMPTY_STRING] + rest;
    }
  }

  /** The bytes themselves: 128 for zero, the byte itself below 128, and otherwise 128 plus the length
      followed by the shortest big-endian form. */
  lemma IntLayout(n: U256)
    ensures var e := EncodeInt(n);
      && (n == 0 ==> e == [128])
      && (0 < n < 128 ==> e == [n])
      && (n >= 128 ==> 2 <= |e| <= 33 && e[0] == 127 + |e| && e[1] != 0 && FromBE(e[1..]) == n)
  {
    BigEndianValue(n);
    WidthOfU256(n);
    if n >= 128 {
      assert EncodeInt(n)[1..] == BigEndian(n);
    }
  }

  lemma EncodedLength(n: U256)
    ensures |EncodeInt(n)| == IntLength(n)
  {
    BigEndianValue(n);
  }
}
