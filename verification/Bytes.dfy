/** Bytes and the fixed-width little- and big-endian integers built from them. */
module Bytes {
  import opened Arithmetic
  import opened MachineInts

  type byte = b: nat | b < 256

  function Pow256(width: nat): (r: nat)
    ensures r > 0
  {
    if width == 0 then 1 else 256 * Pow256(width - 1)
  }

  function ToLE(n: nat, width: nat): (r: seq<byte>)
    ensures |r| == width
  {
    if width == 0 then [] else [n % 256] + ToLE(n / 256, width - 1)
  }

  function FromLE(s: seq<byte>): nat {
    if s == [] then 0 else s[0] + 256 * FromLE(s[1..])
  }

  function ToBE(n: nat, width: nat): (r: seq<byte>)
    ensures |r| == width
  {
    if width == 0 then [] else ToBE(n / 256, width - 1) + [n % 256]
  }

  function FromBE(s: seq<byte>): nat {
    if s == [] then 0 else 256 * FromBE(s[..|s| - 1]) + s[|s| - 1]
  }

  const TWO_128: nat := 0x1_0000000000000000_0000000000000000
  const TWO_248: nat := 0x1_00000000000000_0000000000000000_0000000000000000_0000000000000000
  const TWO_256: nat := 0x1_0000000000000000_0000000000000000_0000000000000000_0000000000000000

  lemma Pow256Values()
    ensures Pow256(4) == U32_RANGE && Pow256(8) == U64_RANGE && Pow256(16) == TWO_128
    ensures Pow256(31) == TWO_248 && Pow256(32) == TWO_256
  {
    assert Pow256(8) == U64_RANGE;
    assert Pow256(16) == TWO_128;
    assert Pow256(24) == U64_RANGE * TWO_128;
    assert Pow256(31) == TWO_248;
  }

  /** Byte `i` of the little-endian form is the digit of weight 256^i. */
  lemma {:induction false} LEByte(n: nat, width: nat, i: nat)
    requires i < width
    ensures ToLE(n, width)[i] == n / Pow256(i) % 256
  {
    if i == 0 {
    } else {
      LEByte(n / 256, width - 1, i - 1);
      DivideTwice(n, Pow256(i - 1));
    }
  }

  /** The big-endian form is the little-endian one backwards. */
  lemma {:induction false} BEByte(n: nat, width: nat, i: nat)
    requires i < width
    ensures ToBE(n, width)[width - 1 - i] == n / Pow256(i) % 256
  {
    if i == 0 {
    } else {
      BEByte(n / 256, width - 1, i - 1);
      DivideTwice(n, Pow256(i - 1));
    }
  }

  lemma {:induction false} FromLEBound(s: seq<byte>)
    ensures FromLE(s) < Pow256(|s|)
  {
    if s == [] {
    } else {
      FromLEBound(s[1..]);
    }
  }

  lemma {:induction false} LEAppend(low: seq<byte>, high: seq<byte>)
    ensures FromLE(low + high) == FromLE(low) + Pow256(|low|) * FromLE(high)
  {
    if low == [] {
      assert low + high == high;
    } else {
      LEAppend(low[1..], high);
      assert (low + high)[1..] == low[1..] + high;
      assert 256 * (Pow256(|low| - 1) * FromLE(high)) == 256 * Pow256(|low| - 1) * FromLE(high);
    }
  }

  lemma {:induction false} LEInverse(n: nat, width: nat)
    requires n < Pow256(width)
    ensures FromLE(ToLE(n, width)) == n
  {
    if width == 0 {
    } else {
      LEInverse(n / 256, width - 1);
      assert ToLE(n, width)[1..] == ToLE(n / 256, width - 1);
    }
  }

  lemma {:induction false} LEUnique(s: seq<byte>)
    ensures ToLE(FromLE(s), |s|) == s
  {
    if s == [] {
    } else {
      LEUnique(s[1..]);
    }
  }

  /** Dropping zero high bytes does not change the value. */
  lemma {:induction false} LEPadding(s: seq<byte>, zeros: nat)
    ensures FromLE(s + seq(zeros, _ => 0)) == FromLE(s)
    decreases |s|, zeros
  {
    var z: seq<byte> := seq(zeros, _ => 0);
    if s != [] {
      assert (s + z)[1..] == s[1..] + z;
      LEPadding(s[1..], zeros);
    } else if zeros > 0 {
      var y: seq<byte> := seq(zeros - 1, _ => 0);
      assert ([] + z)[1..] == [] + y;
      LEPadding([], zeros - 1);
      assert ([] + z)[0] == 0;
    }
  }

  /** A value below 256^k has only zeros above its first k little-endian bytes. */
  lemma {:induction false} LETruncation(n: nat, k: nat, width: nat)
    requires k <= width && n < Pow256(k)
    ensures ToLE(n, width) == ToLE(n, k) + seq(width - k, _ => 0)
    decreases k, width
  {
    if k > 0 {
      LETruncation(n / 256, k - 1, width - 1);
    } else if width > 0 {
      LETruncation(0, 0, width - 1);
      assert ToLE(0, width)[1..] == ToLE(0, width - 1);
      assert ToLE(0, 0) + seq(width, _ => 0) == [0] + (ToLE(0, 0) + seq(width - 1, _ => 0));
    }
  }

  lemma {:induction false} FromBEBound(s: seq<byte>)
    ensures FromBE(s) < Pow256(|s|)
  {
    if s == [] {
    } else {
      FromBEBound(s[..|s| - 1]);
    }
  }

  lemma {:induction false} BEInverse(n: nat, width: nat)
    requires n < Pow256(width)
    ensures FromBE(ToBE(n, width)) == n
  {
    if width == 0 {
    } else {
      BEInverse(n / 256, width - 1);
      assert ToBE(n, width)[..width - 1] == ToBE(n / 256, width - 1);
    }
  }

  lemma {:induction false} BEUnique(s: seq<byte>)
    ensures ToBE(FromBE(s), |s|) == s
  {
    if s == [] {
    } else {
      BEUnique(s[..|s| - 1]);
    }
  }
}
