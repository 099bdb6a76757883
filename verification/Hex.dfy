/** Hexadecimal strings, as the `hex` crate writes and reads them. */
module Hex {
  import opened Wrappers
  import opened Bytes

  function HexChar(d: nat): char
    requires d < 16
  {
    if d < 10 then '0' + d as char else 'a' + (d - 10) as char
  }

  function HexDigit(c: char): Option<nat> {
    if '0' <= c <= '9' then Some(c as nat - '0' as nat)
    else if 'a' <= c <= 'f' then Some(c as nat - 'a' as nat + 10)
    else if 'A' <= c <= 'F' then Some(c as nat - 'A' as nat + 10)
    else None
  }

  predicate AllHex(s: string) {
    forall i :: 0 <= i < |s| ==> HexDigit(s[i]).Some?
  }

  /** `hex::encode`. */
  function HexEncode(bytes: seq<byte>): (s: string)
    ensures |s| == 2 * |bytes| && AllHex(s)
  {
    if bytes == [] then ""
    else var b := bytes[|bytes| - 1];
         HexEncode(bytes[..|bytes| - 1]) + [HexChar(b / 16), HexChar(b % 16)]
  }

  function HexValue(s: string): nat
    requires AllHex(s)
  {
    if s == "" then 0 else 16 * HexValue(s[..|s| - 1]) + HexDigit(s[|s| - 1]).value
  }

  /** Decoding pairs of hexadecimal digits, as a receiver of a reply does. */
  function HexDecode(s: string): Option<seq<byte>> {
    if s == "" then Some([])
    else if |s| == 1 then None
    else
      var init, hi, lo := HexDecode(s[..|s| - 2]), HexDigit(s[|s| - 2]), HexDigit(s[|s| - 1]);
      if init.Some? && hi.Some? && lo.Some? && 16 * hi.value + lo.value < 256
      then Some(init.value + [16 * hi.value + lo.value])
      else None
  }

  const HEX_PREFIX := "0x"

  /** The Ethereum libraries print a leading 0x and accept input with or without it. */
  function StripPrefix(s: string): string {
    if HEX_PREFIX <= s then s[2..] else s
  }

  lemma StripsBothForms(s: string)
    requires AllHex(s)
    ensures StripPrefix(s) == s && StripPrefix("0x" + s) == s
  {
    assert |s| >= 2 ==> HexDigit(s[1]).Some? && s[1] != 'x';
  }

  /** The digits: lower case when written, either case when read. */
  lemma HexAlphabet(d: nat, c: char)
    requires d < 16
    ensures HexChar(d) == "0123456789abcdef"[d]
    ensures HexDigit(c) == Some(d) <==> c == "0123456789abcdef"[d] || c == "0123456789ABCDEF"[d]
    ensures HexDigit(c).Some? ==> HexDigit(c).value < 16
  {}

  lemma HexCharDigit(d: nat)
    requires d < 16
    ensures HexDigit(HexChar(d)) == Some(d)
  {}

  lemma {:induction false} HexRoundTrip(bytes: seq<byte>)
    ensures HexDecode(HexEncode(bytes)) == Some(bytes)
  {
    if bytes == [] {
    } else {
      var s, init, b := HexEncode(bytes), bytes[..|bytes| - 1], bytes[|bytes| - 1];
      HexRoundTrip(init);
      assert s[..|s| - 2] == HexEncode(init);
      HexCharDigit(b / 16);
      HexCharDigit(b % 16);
      assert init + [b] == bytes;
    }
  }

  /** Byte `i` becomes the two characters at 2i, high digit first. */
  lemma {:induction false} HexAt(bytes: seq<byte>, i: nat)
    requires i < |bytes|
    ensures HexEncode(bytes)[2 * i] == HexChar(bytes[i] / 16)
    ensures HexEncode(bytes)[2 * i + 1] == HexChar(bytes[i] % 16)
  {
    if i == |bytes| - 1 {
    } else {
      HexAt(bytes[..|bytes| - 1], i);
    }
  }

  /** What decodes: an even number of digits, each pair one byte, high digit first. */
  lemma {:induction false} HexDecodes(s: string)
    ensures HexDecode(s).Some? <==> |s| % 2 == 0 && AllHex(s)
    ensures HexDecode(s).Some? ==>
              |s| == 2 * |HexDecode(s).value|
              && forall i :: 0 <= i < |HexDecode(s).value| ==> PairAt(s, i, HexDecode(s).value[i])
    decreases |s|
  {
    if |s| < 2 {
    } else {
      var init := s[..|s| - 2];
      HexDecodes(init);
      HexAlphabet(0, s[|s| - 2]);
      HexAlphabet(0, s[|s| - 1]);
      assert AllHex(s) <==> AllHex(init) && HexDigit(s[|s| - 2]).Some? && HexDigit(s[|s| - 1]).Some? by {
        assert s == init + [s[|s| - 2], s[|s| - 1]];
      }
      if HexDecode(s).Some? {
        var b := HexDecode(s).value;
        assert b[..|b| - 1] == HexDecode(init).value;
        forall i | 0 <= i < |b| ensures PairAt(s, i, b[i]) {
          assert i < |b| - 1 ==> PairAt(init, i, b[..|b| - 1][i]);
        }
      }
    }
  }

  predicate PairAt(s: string, i: nat, b: byte) {
    2 * i + 1 < |s| && HexDigit(s[2 * i]) == Some(b / 16) && HexDigit(s[2 * i + 1]) == Some(b % 16)
  }

  lemma {:induction false} HexValueIsBigEndian(bytes: seq<byte>)
    ensures HexValue(HexEncode(bytes)) == FromBE(bytes)
  {
    if bytes == [] {
    } else {
      var s, init, b := HexEncode(bytes), bytes[..|bytes| - 1], bytes[|bytes| - 1];
      HexValueIsBigEndian(init);
      HexCharDigit(b / 16);
      HexCharDigit(b % 16);
      var t := s[..|s| - 1];
      assert t[..|t| - 1] == HexEncode(init);
      assert t[|t| - 1] == HexChar(b / 16);
      assert s[|s| - 1] == HexChar(b % 16);
    }
  }
}
