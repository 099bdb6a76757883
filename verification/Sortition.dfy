/** Sortition: `VRFPrivKey::run_vrf` (`operator/runer/src/api/vrf_key.rs`) with the sampler of
    `crates/vrf/src/sample.rs`. */
module Sortition {
  import opened Wrappers
  import opened Arithmetic
  import opened Bytes
  import opened Hex

  const OUTPUT_LENGTH: nat := 64

  // ---------------------------------------------------------------- selection

  /** `Sampler::hex_to_biguint`; `None` is its panic on a string that is no number. */
  function HexToBigUint(s: string): Option<nat> {
    if s == "" || !AllHex(s) then None else Some(HexValue(s))
  }

  function MeetsThreshold(output: nat, threshold: nat): bool {
    output < threshold
  }

  /** The decision of `run_vrf` for one VRF output.  `None` where it panics: the slice start
      128 - precision underflows, or the suffix is empty and does not parse. */
  function Selected(output: seq<byte>, precision: nat, threshold: nat): Option<bool>
    requires |output| == OUTPUT_LENGTH
  {
    if precision > OUTPUT_LENGTH * 2 then None
    else
      var random := HexEncode(output);
      var number := HexToBigUint(random[OUTPUT_LENGTH * 2 - precision..OUTPUT_LENGTH * 2]);
      if number.None? then None else Some(MeetsThreshold(number.value, threshold))
  }

  function Pow16(n: nat): (r: nat)
    ensures r > 0
  {
    if n == 0 then 1 else 16 * Pow16(n - 1)
  }

  lemma ModScale(v: nat, d: nat, m: nat)
    requires m > 0 && d < 16
    ensures (16 * v + d) % (16 * m) == 16 * (v % m) + d
  {
    var q, r := v / m, v % m;
    assert v == m * q + r;
    assert 16 * v + d == (16 * m) * q + (16 * r + d) by {
      assert 16 * (m * q) == (16 * m) * q;
    }
    RemainderOf(16 * v + d, 16 * m, q, 16 * r + d);
  }

  lemma {:induction false} SuffixValue(s: string, p: nat)
    requires AllHex(s) && p <= |s|
    ensures HexValue(s[|s| - p..]) == HexValue(s) % Pow16(p)
    decreases p
  {
    if p == 0 {
    } else {
      var init, suffix := s[..|s| - 1], s[|s| - p..];
      SuffixValue(init, p - 1);
      assert suffix[..p - 1] == init[|init| - (p - 1)..];
      assert suffix[p - 1] == s[|s| - 1];
      ModScale(HexValue(init), HexDigit(s[|s| - 1]).value, Pow16(p - 1));
    }
  }

  /** `run_vrf` selects exactly when the big-endian output modulo 16^precision is below the
      threshold, and panics exactly when the precision is 0 or above 128. */
  lemma SelectionIsModular(output: seq<byte>, precision: nat, threshold: nat)
    requires |output| == OUTPUT_LENGTH
    ensures Selected(output, precision, threshold)
            == if precision == 0 || precision > 128 then None
               else Some(FromBE(output) % Pow16(precision) < threshold)
  {
    if 0 < precision <= 128 {
      var random := HexEncode(output);
      HexValueIsBigEndian(output);
      SuffixValue(random, precision);
      assert random[128 - precision..128] == random[|random| - precision..];
    }
  }

  // ---------------------------------------------------------------- how many outputs are selected

  function Min(a: nat, b: nat): nat {
    if a <= b then a else b
  }

  function Interval(from: nat, size: nat): (s: set<nat>)
    ensures |s| == size
    ensures forall n :: n in s <==> from <= n < from + size
  {
    if size == 0 then {} else Interval(from, size - 1) + {from + size - 1}
  }

  ghost function Hits(m: nat, threshold: nat, bound: nat): set<nat>
    requires m > 0
  {
    set n | 0 <= n < bound && n % m < threshold
  }

  lemma {:induction false} HitsSize(m: nat, threshold: nat, blocks: nat)
    requires m > 0
    ensures |Hits(m, threshold, m * blocks)| == Min(threshold, m) * blocks
    decreases blocks
  {
    if blocks == 0 {
      assert Hits(m, threshold, 0) == {};
    } else {
      HitsSize(m, threshold, blocks - 1);
      LastBlock(m, threshold, blocks - 1);
    }
  }

  lemma LastBlock(m: nat, threshold: nat, blocks: nat)
    requires m > 0
    ensures |Hits(m, threshold, m * (blocks + 1))| == |Hits(m, threshold, m * blocks)| + Min(threshold, m)
  {
    var start := m * blocks;
    assert m * (blocks + 1) == start + m;
    forall n | start <= n < start + m ensures n % m == n - start {
      RemainderOf(n, m, blocks, n - start);
    }
    OneMoreBlock(m, threshold, start);
  }

  lemma OneMoreBlock(m: nat, threshold: nat, start: nat)
    requires m > 0 && forall n :: start <= n < start + m ==> n % m == n - start
    ensures |Hits(m, threshold, start + m)| == |Hits(m, threshold, start)| + Min(threshold, m)
  {
    var before, last := Hits(m, threshold, start), Interval(start, Min(threshold, m));
    assert Hits(m, threshold, start + m) == before + last;
    assert before !! last;
  }

  ghost function Outputs(numbers: set<nat>): set<seq<byte>> {
    set n | n in numbers :: ToBE(n, OUTPUT_LENGTH)
  }

  lemma {:induction false} OutputsSize(numbers: set<nat>)
    requires forall n :: n in numbers ==> n < Pow256(OUTPUT_LENGTH)
    ensures |Outputs(numbers)| == |numbers|
    decreases |numbers|
  {
    if numbers == {} {
    } else {
      var n :| n in numbers;
      var rest := numbers - {n};
      OutputsSize(rest);
      assert numbers == rest + {n};
      assert Outputs(numbers) == Outputs(rest) + {ToBE(n, OUTPUT_LENGTH)};
      if ToBE(n, OUTPUT_LENGTH) in Outputs(rest) {
        var k :| k in rest && ToBE(k, OUTPUT_LENGTH) == ToBE(n, OUTPUT_LENGTH);
        BEInverse(n, OUTPUT_LENGTH);
        BEInverse(k, OUTPUT_LENGTH);
      }
    }
  }

  ghost function SelectedOutputs(precision: nat, threshold: nat): set<seq<byte>> {
    Outputs(Hits(Pow16(precision), threshold, Pow256(OUTPUT_LENGTH)))
  }

  lemma {:induction false} Pow16Add(a: nat, b: nat)
    ensures Pow16(a + b) == Pow16(a) * Pow16(b)
  {
    if a == 0 {
    } else {
      Pow16Add(a - 1, b);
      assert 16 * (Pow16(a - 1) * Pow16(b)) == 16 * Pow16(a - 1) * Pow16(b);
    }
  }

  lemma {:induction false} Pow256IsPow16(n: nat)
    ensures Pow256(n) == Pow16(2 * n)
  {
    if n == 0 {
    } else {
      Pow256IsPow16(n - 1);
      assert Pow16(2 * n) == 16 * Pow16(2 * n - 1) == 16 * (16 * Pow16(2 * n - 2));
    }
  }

  /** Exactly min(threshold, 16^p) · 16^(128 − p) of the 64-byte outputs are selected. */
  lemma SelectionProbability(precision: nat, threshold: nat)
    requires 1 <= precision <= 128
    ensures forall o: seq<byte> :: o in SelectedOutputs(precision, threshold) <==>
              |o| == OUTPUT_LENGTH && Selected(o, precision, threshold) == Some(true)
    ensures |SelectedOutputs(precision, threshold)|
            == Min(threshold, Pow16(precision)) * Pow16(128 - precision)
  {
    var numbers := Hits(Pow16(precision), threshold, Pow256(OUTPUT_LENGTH));
    forall o: seq<byte>
      ensures o in SelectedOutputs(precision, threshold) <==>
              |o| == OUTPUT_LENGTH && Selected(o, precision, threshold) == Some(true)
    {
      if o in SelectedOutputs(precision, threshold) {
        var n :| n in numbers && ToBE(n, OUTPUT_LENGTH) == o;
        BEInverse(n, OUTPUT_LENGTH);
        SelectionIsModular(o, precision, threshold);
      }
      if |o| == OUTPUT_LENGTH && Selected(o, precision, threshold) == Some(true) {
        SelectionIsModular(o, precision, threshold);
        FromBEBound(o);
        BEUnique(o);
        assert FromBE(o) in numbers;
      }
    }
    OutputsSize(numbers);
    Pow256IsPow16(OUTPUT_LENGTH);
    Pow16Add(precision, 128 - precision);
    HitsSize(Pow16(precision), threshold, Pow16(128 - precision));
  }

  /** A larger threshold keeps every selected output selected. */
  lemma SelectionIsMonotone(output: seq<byte>, precision: nat, narrow: nat, wide: nat)
    requires |output| == OUTPUT_LENGTH && narrow <= wide
    ensures Selected(output, precision, narrow) == Some(true) ==> Selected(output, precision, wide) == Some(true)
  {}
}
