/** The bytes a clock feeds to its digest: `DigestHash::hash` over the derived `Hash` of the
    `BTreeMap`, written through `ImplHasher` into a `DigestHasher` (here the `Vec<u8>` one). */
module ClockDigest {
  import opened Bytes
  import opened MachineInts
  import opened OrdinaryClock

  /** The entries of `c` at `keys`, in key order: u64 key, u32 counter, both little-endian. */
  function Entries(c: Clock, keys: set<KeyId>): seq<byte>
    requires keys <= c.Keys
    decreases |keys|
  {
    if keys == {} then []
    else var k := Min(keys); ToLE(k, 8) + ToLE(c[k], 4) + Entries(c, keys - {k})
  }

  function Preimage(c: Clock): seq<byte> {
    ToLE(|c|, 8) + Entries(c, c.Keys)
  }

  lemma FirstEntry(c: Clock, keys: set<KeyId>, before: seq<byte>)
    requires keys <= c.Keys && keys != {}
    ensures var k := Min(keys);
      before + Entries(c, keys) == before + ToLE(k, 8) + ToLE(c[k], 4) + Entries(c, keys - {k})
  {
    var k := Min(keys);
    var x, y, z := ToLE(k, 8), ToLE(c[k], 4), Entries(c, keys - {k});
    assert before + (x + y + z) == before + x + y + z;
  }

  class DigestBuffer {
    var data: seq<byte>

    constructor ()
      ensures data == []
    {
      data := [];
    }

    method Write(bytes: seq<byte>)
      modifies this
      ensures data == old(data) + bytes
    {
      data := data + bytes;
    }

    method WriteU32(i: u32)
      modifies this
      ensures data == old(data) + ToLE(i, 4)
    {
      Write(ToLE(i, 4));
    }

    method WriteU64(i: KeyId)
      modifies this
      ensures data == old(data) + ToLE(i, 8)
    {
      Write(ToLE(i, 8));
    }

    /** A collection length is a `usize`. */
    method HashClock(c: Clock)
      requires |c| < U64_RANGE
      modifies this
      ensures data == old(data) + Preimage(c)
    {
      ghost var before := data;
      WriteU64(|c|);
      var rest := c.Keys;
      while rest != {}
        invariant rest <= c.Keys
        invariant data + Entries(c, rest) == before + Preimage(c)
        decreases |rest|
      {
        ghost var start := data;
        var k := Min(rest);
        WriteU64(k);
        WriteU32(c[k]);
        FirstEntry(c, rest, start);
        rest := rest - {k};
      }
      assert data + Entries(c, {}) == data;
    }
  }

  lemma SamePrefix(x: seq<byte>, y: seq<byte>, t: seq<byte>, u: seq<byte>)
    requires |x| == |y| && x + t == y + u
    ensures x == y && t == u
  {
    assert x == (x + t)[..|x|] && y == (y + u)[..|y|];
    assert t == (x + t)[|x|..] && u == (y + u)[|y|..];
  }

  lemma SameChunks(a: seq<byte>, b: seq<byte>, c: seq<byte>, d: seq<byte>, t: seq<byte>, u: seq<byte>)
    requires |a| == |c| && |b| == |d| && a + b + t == c + d + u
    ensures a == c && b == d && t == u
  {
    assert a + b + t == a + (b + t) && c + d + u == c + (d + u);
    SamePrefix(a, c, b + t, d + u);
    SamePrefix(b, d, t, u);
  }

  lemma Regroup(a: seq<byte>, b: seq<byte>, c: seq<byte>, t: seq<byte>)
    ensures a + b + c + t == a + b + (c + t)
  {}

  lemma LEInjective(m: nat, n: nat, width: nat)
    requires m < Pow256(width) && n < Pow256(width) && ToLE(m, width) == ToLE(n, width)
    ensures m == n
  {
    LEInverse(m, width);
    LEInverse(n, width);
  }

  lemma SameEntry(m: KeyId, n: KeyId, x: u32, y: u32)
    requires ToLE(m, 8) == ToLE(n, 8) && ToLE(x, 4) == ToLE(y, 4)
    ensures m == n && x == y
  {
    Pow256Values();
    LEInjective(m, n, 8);
    LEInjective(x, y, 4);
  }

  lemma {:induction false} EntriesDetermineClock(a: Clock, ka: set<KeyId>, b: Clock, kb: set<KeyId>,
                                                 t: seq<byte>, u: seq<byte>)
    requires ka <= a.Keys && kb <= b.Keys && |ka| == |kb|
    requires Entries(a, ka) + t == Entries(b, kb) + u
    ensures ka == kb && (forall k :: k in ka ==> a[k] == b[k]) && t == u
    decreases |ka|
  {
    if ka == {} {
      assert Entries(a, ka) + t == t && Entries(b, kb) + u == u;
    } else {
      var m, n := Min(ka), Min(kb);
      var ta, tb := Entries(a, ka - {m}), Entries(b, kb - {n});
      Regroup(ToLE(m, 8), ToLE(a[m], 4), ta, t);
      Regroup(ToLE(n, 8), ToLE(b[n], 4), tb, u);
      SameChunks(ToLE(m, 8), ToLE(a[m], 4), ToLE(n, 8), ToLE(b[n], 4), ta + t, tb + u);
      SameEntry(m, n, a[m], b[n]);
      EntriesDetermineClock(a, ka - {m}, b, kb - {n}, t, u);
      assert ka == ka - {m} + {m} && kb == kb - {n} + {n};
    }
  }

  /** The preimage is injective and prefix-free: whatever follows it, the clock can be read off. */
  lemma PreimageIsInjective(a: Clock, b: Clock, t: seq<byte>, u: seq<byte>)
    requires |a| < U64_RANGE && |b| < U64_RANGE
    ensures Preimage(a) + t == Preimage(b) + u <==> a == b && t == u
  {
    if Preimage(a) + t == Preimage(b) + u {
      var ta, tb := Entries(a, a.Keys) + t, Entries(b, b.Keys) + u;
      assert Preimage(a) + t == ToLE(|a|, 8) + ta;
      assert Preimage(b) + u == ToLE(|b|, 8) + tb;
      Pow256Values();
      SamePrefix(ToLE(|a|, 8), ToLE(|b|, 8), ta, tb);
      LEInjective(|a|, |b|, 8);
      EntriesDetermineClock(a, a.Keys, b, b.Keys, t, u);
      assert a == b;
    }
  }

  ghost function Rank(keys: set<KeyId>, k: KeyId): nat {
    |set j | j in keys && j < k|
  }

  lemma {:induction false} EntriesLayout(c: Clock, keys: set<KeyId>, k: KeyId)
    requires keys <= c.Keys
    ensures |Entries(c, keys)| == 12 * |keys|
    ensures k in keys ==>
              var at := 12 * Rank(keys, k);
              && at + 12 <= |Entries(c, keys)|
              && Entries(c, keys)[at..at + 8] == ToLE(k, 8) && Entries(c, keys)[at + 8..at + 12] == ToLE(c[k], 4)
    decreases |keys|
  {
    if keys == {} {
    } else {
      var m := Min(keys);
      var rest := keys - {m};
      EntriesLayout(c, rest, k);
      assert |keys| == |rest| + 1;
      if k == m {
        assert (set j | j in keys && j < k) == {};
      } else if k in keys {
        assert (set j | j in keys && j < k) == (set j | j in rest && j < k) + {m};
        assert Rank(keys, k) == Rank(rest, k) + 1;
        Shifted(ToLE(m, 8) + ToLE(c[m], 4), Entries(c, rest), 12 * Rank(rest, k));
        assert Entries(c, keys) == ToLE(m, 8) + ToLE(c[m], 4) + Entries(c, rest);
      }
    }
  }

  lemma Shifted(front: seq<byte>, s: seq<byte>, at: nat)
    requires |front| == 12 && at + 12 <= |s|
    ensures (front + s)[12 + at..12 + at + 8] == s[at..at + 8]
    ensures (front + s)[12 + at + 8..12 + at + 12] == s[at + 8..at + 12]
  {}

  /** The preimage byte by byte: the number of entries in eight bytes, then twelve bytes an entry in key
      order, eight for the key and four for the counter, each with the low byte first. */
  lemma PreimageLayout(c: Clock, k: KeyId, i: nat)
    requires k in c
    ensures |Preimage(c)| == 8 + 12 * |c|
    ensures i < 8 ==> Preimage(c)[i] == |c| / Pow256(i) % 256
    ensures var at := 8 + 12 * Rank(c.Keys, k);
      && at + 12 <= |Preimage(c)|
      && (i < 8 ==> Preimage(c)[at + i] == k / Pow256(i) % 256)
      && (i < 4 ==> Preimage(c)[at + 8 + i] == c[k] / Pow256(i) % 256)
  {
    EntriesLayout(c, c.Keys, k);
    assert |c| == |c.Keys|;
    var at, entries := 12 * Rank(c.Keys, k), Entries(c, c.Keys);
    if i < 8 {
      LEByte(|c|, 8, i);
      LEByte(k, 8, i);
      assert Preimage(c)[8 + at + i] == entries[at..at + 8][i];
    }
    if i < 4 {
      LEByte(c[k], 4, i);
      assert Preimage(c)[8 + at + 8 + i] == entries[at + 8..at + 12][i];
    }
  }
}
