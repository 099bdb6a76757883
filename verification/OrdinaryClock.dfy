/** The vector clock of `crates/common/src/ordinary_clock.rs`.

    A clock maps process ids (u64) to counters (u32).  Arithmetic wraps, as in a release build. */
module OrdinaryClock {
  import opened MachineInts
  import opened Wrappers

  type KeyId = u64
  type Clock = map<KeyId, u32>

  datatype Ordering = Less | Equal | Greater

  // A missing entry counts as zero everywhere in the order.
  function Get(c: Clock, k: KeyId): u32 {
    if k in c then c[k] else 0
  }

  predicate IsGenesis(c: Clock) {
    forall k <- c.Keys :: c[k] == 0
  }

  // ---------------------------------------------------------------- merge and update

  function Max(a: u32, b: u32): u32 {
    if a <= b then b else a
  }

  function Merge(a: Clock, b: Clock): Clock {
    map k | k in a.Keys + b.Keys ::
      if k in a && k in b then Max(a[k], b[k]) else if k in a then a[k] else b[k]
  }

  function FoldMerge(c: Clock, others: seq<Clock>): Clock
    decreases |others|
  {
    if others == [] then c else FoldMerge(Merge(c, others[0]), others[1..])
  }

  /** The clock of a new event: everything seen so far, with the own entry one further. */
  function Updated(c: Clock, others: seq<Clock>, id: KeyId): Clock {
    var merged := FoldMerge(c, others);
    merged[id := (Get(merged, id) + 1) % U32_RANGE]
  }

  lemma {:induction false} FoldMergeSnoc(c: Clock, others: seq<Clock>, last: Clock)
    ensures FoldMerge(c, others + [last]) == Merge(FoldMerge(c, others), last)
    decreases |others|
  {
    if others == [] {
      assert FoldMerge(c, [last]) == FoldMerge(Merge(c, last), []);
    } else {
      assert (others + [last])[1..] == others[1..] + [last];
      FoldMergeSnoc(Merge(c, others[0]), others[1..], last);
    }
  }

  method Update(self: Clock, others: seq<Clock>, id: KeyId) returns (updated: Clock)
    ensures updated == Updated(self, others, id)
  {
    updated := self;
    for i := 0 to |others|
      invariant updated == FoldMerge(self, others[..i])
    {
      FoldMergeSnoc(self, others[..i], others[i]);
      assert others[..i + 1] == others[..i] + [others[i]];
      updated := Merge(updated, others[i]);
    }
    assert others[..|others|] == others;
    if id !in updated {
      updated := updated[id := 0];
    }
    updated := updated[id := (updated[id] + 1) % U32_RANGE];
  }

  // ---------------------------------------------------------------- the order

  ghost predicate Leq(a: Clock, b: Clock) {
    forall k: KeyId :: Get(a, k) <= Get(b, k)
  }

  ghost function Compare(a: Clock, b: Clock): Option<Ordering> {
    if Leq(b, a) then Some(if Leq(a, b) then Equal else Greater)
    else if Leq(a, b) then Some(Less)
    else None
  }

  lemma {:induction false} MinExists(s: set<KeyId>) returns (m: KeyId)
    requires s != {}
    ensures m in s && forall o :: o in s ==> m <= o
    decreases |s|
  {
    var x :| x in s;
    var rest := s - {x};
    m := x;
    if rest == {} {
    } else {
      var least := MinExists(rest);
      m := if x <= least then x else least;
    }
    forall o | o in s ensures m <= o {
      assert o == x || o in rest;
    }
  }

  /** The next key of a `BTreeMap` iteration over the keys not visited yet. */
  function Min(s: set<KeyId>): (m: KeyId)
    requires s != {}
    ensures m in s && forall o :: o in s ==> m <= o
  {
    assert exists m :: m in s && forall o :: o in s ==> m <= o by {
      var m := MinExists(s);
    }
    var m :| m in s && forall o :: o in s ==> m <= o;
    m
  }

  /** `ge` inside `partial_cmp`: an early-returning loop over the entries of the other clock. */
  method Ge(clock: Clock, other: Clock) returns (r: bool)
    ensures r <==> Leq(other, clock)
  {
    var rest := other.Keys;
    while rest != {}
      invariant rest <= other.Keys
      invariant forall k: KeyId :: k !in rest ==> Get(other, k) <= Get(clock, k)
      decreases |rest|
    {
      var k := Min(rest);
      rest := rest - {k};
      if other[k] == 0 {
        continue;
      }
      if k !in clock {
        assert Get(clock, k) < Get(other, k);
        return false;
      }
      if clock[k] < other[k] {
        assert Get(clock, k) < Get(other, k);
        return false;
      }
    }
    return true;
  }

  method PartialCmp(self: Clock, other: Clock) returns (r: Option<Ordering>)
    ensures r == Compare(self, other)
  {
    var fwd := Ge(self, other);
    var bwd := Ge(other, self);
    match (fwd, bwd)
    case (true, true) => r := Some(Equal);
    case (true, false) => r := Some(Greater);
    case (false, true) => r := Some(Less);
    case (false, false) => r := None;
  }

  function DepCmp(self: Clock, other: Clock, id: KeyId): Ordering {
    if id !in self && id in other then Less
    else if id in self && id !in other then Greater
    else if id !in self then Equal
    else if self[id] < other[id] then Less
    else if self[id] == other[id] then Equal
    else Greater
  }

  /** `dep_cmp` orders by one entry, a missing one before every present one. */
  lemma DepCmpByEntry(a: Clock, b: Clock, id: KeyId)
    ensures DepCmp(a, b, id) != Greater <==> (id in a ==> id in b && a[id] <= b[id])
    ensures DepCmp(a, b, id) != Less <==> (id in b ==> id in a && b[id] <= a[id])
  {}

  function NonZero(c: Clock): Clock {
    map k | k in c && c[k] != 0 :: c[k]
  }

  lemma NonZeroGet(c: Clock, k: KeyId)
    ensures Get(NonZero(c), k) == Get(c, k)
  {}

  /** `partial_cmp` is a preorder whose equivalence is "same clock up to zero entries". */
  lemma PartialCmpIsPreorder(a: Clock, b: Clock, c: Clock)
    ensures Compare(a, a) == Some(Equal)
    ensures Compare(a, b) == Some(Equal) <==> NonZero(a) == NonZero(b)
    ensures Compare(a, b) == Some(Less) <==> Compare(b, a) == Some(Greater)
    ensures Compare(a, b) == None <==> Compare(b, a) == None
    ensures Leq(a, b) && Leq(b, c) ==> Leq(a, c)
  {
    if Compare(a, b) == Some(Equal) {
      forall k: KeyId ensures k in NonZero(a) <==> k in NonZero(b) {
        assert Get(a, k) <= Get(b, k) && Get(b, k) <= Get(a, k);
      }
      forall k | k in NonZero(a) ensures NonZero(a)[k] == NonZero(b)[k] {
        assert Get(a, k) <= Get(b, k) && Get(b, k) <= Get(a, k);
      }
    }
    if NonZero(a) == NonZero(b) {
      forall k: KeyId ensures Get(a, k) == Get(b, k) {
        NonZeroGet(a, k);
        NonZeroGet(b, k);
      }
    }
  }

  /** The genesis clocks are exactly the bottom elements of the order. */
  lemma GenesisIsBottom(g: Clock)
    ensures IsGenesis(g) <==> forall c: Clock :: Leq(g, c)
  {
    if forall c: Clock :: Leq(g, c) {
      assert Leq(g, map[]);
      forall k | k in g ensures g[k] == 0 {
        assert Get(g, k) <= Get(map[], k);
      }
    }
  }

  // ---------------------------------------------------------------- merge is a join

  lemma MergeGet(a: Clock, b: Clock, k: KeyId)
    ensures Get(Merge(a, b), k) == Max(Get(a, k), Get(b, k))
  {}

  lemma MergeIsLeastUpperBound(a: Clock, b: Clock, bound: Clock)
    ensures Merge(a, b).Keys == a.Keys + b.Keys
    ensures Leq(a, Merge(a, b)) && Leq(b, Merge(a, b))
    ensures Leq(a, bound) && Leq(b, bound) <==> Leq(Merge(a, b), bound)
  {
    forall k: KeyId ensures Get(Merge(a, b), k) == Max(Get(a, k), Get(b, k)) {
      MergeGet(a, b, k);
    }
    if Leq(Merge(a, b), bound) {
      forall k: KeyId ensures Get(a, k) <= Get(bound, k) && Get(b, k) <= Get(bound, k) {
        assert Get(Merge(a, b), k) <= Get(bound, k);
      }
    }
  }

  /** Entry by entry the fold is the maximum over the start clock and all the others. */
  lemma {:induction false} FoldMergeIsMaximum(c: Clock, others: seq<Clock>, k: KeyId)
    ensures Get(c, k) <= Get(FoldMerge(c, others), k)
    ensures forall o :: o in others ==> Get(o, k) <= Get(FoldMerge(c, others), k)
    ensures Get(FoldMerge(c, others), k) == Get(c, k)
            || exists o :: o in others && Get(FoldMerge(c, others), k) == Get(o, k)
    ensures k in FoldMerge(c, others) <==> k in c || exists o :: o in others && k in o
    decreases |others|
  {
    if others == [] {
    } else {
      var head, tail := others[0], others[1..];
      assert forall o :: o in others <==> o == head || o in tail;
      MergeGet(c, head, k);
      FoldMergeIsMaximum(Merge(c, head), tail, k);
    }
  }

  lemma FoldMergeSetOnly(c: Clock, xs: seq<Clock>, ys: seq<Clock>)
    requires forall o :: o in xs <==> o in ys
    ensures FoldMerge(c, xs) == FoldMerge(c, ys)
  {
    var x, y := FoldMerge(c, xs), FoldMerge(c, ys);
    forall k: KeyId ensures (k in x <==> k in y) && Get(x, k) == Get(y, k) {
      FoldMergeIsMaximum(c, xs, k);
      FoldMergeIsMaximum(c, ys, k);
    }
    assert x.Keys == y.Keys;
    forall k | k in x ensures x[k] == y[k] {
      assert Get(x, k) == Get(y, k);
    }
  }

  ghost predicate StrictlyAbove(u: Clock, c: Clock) {
    Compare(c, u) == Some(Less)
  }

  /** Only the own entry differs from the merged clock, by one. */
  lemma UpdatedGet(c: Clock, others: seq<Clock>, id: KeyId, p: KeyId)
    requires Get(FoldMerge(c, others), id) + 1 < U32_RANGE
    ensures Get(Updated(c, others, id), p) == Get(FoldMerge(c, others), p) + if p == id then 1 else 0
  {}

  lemma UpdateIsAbove(c: Clock, others: seq<Clock>, id: KeyId, o: Clock)
    requires o == c || o in others
    requires Get(FoldMerge(c, others), id) != U32_RANGE - 1
    ensures StrictlyAbove(Updated(c, others, id), o)
  {
    var u := Updated(c, others, id);
    forall k: KeyId ensures Get(o, k) <= Get(u, k) {
      FoldMergeIsMaximum(c, others, k);
    }
    FoldMergeIsMaximum(c, others, id);
    assert Get(u, id) > Get(o, id);
  }

  lemma UpdateWraps(c: Clock, others: seq<Clock>, id: KeyId) returns (o: Clock)
    requires Get(FoldMerge(c, others), id) == U32_RANGE - 1
    ensures (o == c || o in others) && !Leq(o, Updated(c, others, id))
  {
    FoldMergeIsMaximum(c, others, id);
    if Get(c, id) == U32_RANGE - 1 {
      o := c;
    } else {
      o :| o in others && Get(o, id) == U32_RANGE - 1;
    }
    assert Get(o, id) > 0 == Get(Updated(c, others, id), id);
  }

  /** The result of `update` is strictly above the own clock and every received one if and only if the
      merged own counter is not at `u32::MAX`, where it wraps to zero. */
  lemma UpdateIsStrictlyAbove(c: Clock, others: seq<Clock>, id: KeyId)
    ensures (StrictlyAbove(Updated(c, others, id), c)
             && forall o :: o in others ==> StrictlyAbove(Updated(c, others, id), o))
            <==> Get(FoldMerge(c, others), id) != U32_RANGE - 1
  {
    if Get(FoldMerge(c, others), id) != U32_RANGE - 1 {
      forall o | o == c || o in others ensures StrictlyAbove(Updated(c, others, id), o) {
        UpdateIsAbove(c, others, id, o);
      }
    } else {
      var o := UpdateWraps(c, others, id);
    }
  }

  /** The order of the received clocks and their repetitions do not matter. */
  /** Entry by entry: the keys are all keys seen and the own id; every other entry is the largest one
      seen, and the own entry is the largest one seen plus one, in u32 arithmetic. */
  lemma UpdateEntry(c: Clock, others: seq<Clock>, id: KeyId, k: KeyId) returns (most: u32)
    ensures Get(c, k) <= most && forall o :: o in others ==> Get(o, k) <= most
    ensures most == Get(c, k) || exists o :: o in others && most == Get(o, k)
    ensures k in Updated(c, others, id) <==> k == id || k in c || exists o :: o in others && k in o
    ensures k != id ==> Get(Updated(c, others, id), k) == most
    ensures k == id ==> Get(Updated(c, others, id), k) == if most == 0xffff_ffff then 0 else most + 1
  {
    most := Get(FoldMerge(c, others), k);
    FoldMergeIsMaximum(c, others, k);
  }

  lemma UpdateSetOnly(c: Clock, xs: seq<Clock>, ys: seq<Clock>, id: KeyId)
    requires forall o :: o in xs <==> o in ys
    ensures Updated(c, xs, id) == Updated(c, ys, id)
  {
    FoldMergeSetOnly(c, xs, ys);
  }

  // ---------------------------------------------------------------- reduce

  function SumOver(c: Clock, keys: set<KeyId>): nat
    decreases |keys|
  {
    if keys == {} then 0
    else var k := Min(keys); Get(c, k) + SumOver(c, keys - {k})
  }

  function Total(c: Clock): nat {
    SumOver(c, c.Keys)
  }

  /** The u32 sum of the counters; it wraps when they exceed a u32. */
  function Reduce(c: Clock): u32 {
    Total(c) % U32_RANGE
  }

  lemma {:induction false} SumOverRemove(c: Clock, keys: set<KeyId>, x: KeyId)
    requires x in keys
    ensures SumOver(c, keys) == Get(c, x) + SumOver(c, keys - {x})
    decreases |keys|
  {
    var k := Min(keys);
    if k != x {
      assert keys - {k} - {x} == keys - {x} - {k};
      SumOverRemove(c, keys - {k}, x);
      assert keys - {x} != {} by { assert k in keys - {x}; }
      assert Min(keys - {x}) == k;
    }
  }

  lemma {:induction false} SumOverExtend(c: Clock, keys: set<KeyId>, extra: set<KeyId>)
    requires forall k :: k in extra ==> Get(c, k) == 0
    ensures SumOver(c, keys + extra) == SumOver(c, keys)
    decreases |extra|
  {
    if extra == {} {
      assert keys + extra == keys;
    } else {
      var x :| x in extra;
      SumOverExtend(c, keys, extra - {x});
      if x in keys {
        assert keys + extra == keys + (extra - {x});
      } else {
        SumOverRemove(c, keys + extra, x);
        assert keys + extra - {x} == keys + (extra - {x});
      }
    }
  }

  lemma {:induction false} SumOverMonotone(a: Clock, b: Clock, keys: set<KeyId>)
    requires Leq(a, b)
    ensures SumOver(a, keys) <= SumOver(b, keys)
    ensures (exists k :: k in keys && Get(a, k) < Get(b, k)) ==> SumOver(a, keys) < SumOver(b, keys)
    decreases |keys|
  {
    if keys == {} {
    } else {
      var m := Min(keys);
      assert Get(a, m) <= Get(b, m);
      SumOverMonotone(a, b, keys - {m});
      if exists k :: k in keys && Get(a, k) < Get(b, k) {
        var k :| k in keys && Get(a, k) < Get(b, k);
        assert k == m || k in keys - {m};
      }
    }
  }

  /** Along the order the sum grows strictly, whatever the key sets; equivalent clocks reduce alike. */
  lemma ReduceIsStrictlyMonotone(a: Clock, b: Clock)
    ensures Compare(a, b) == Some(Equal) ==> Total(a) == Total(b) && Reduce(a) == Reduce(b)
    ensures Compare(a, b) == Some(Less) ==> Total(a) < Total(b)
    ensures Compare(a, b) == Some(Less) && Total(b) < U32_RANGE ==> Reduce(a) < Reduce(b)
  {
    var keys := a.Keys + b.Keys;
    SumOverExtend(a, a.Keys, b.Keys - a.Keys);
    SumOverExtend(b, b.Keys, a.Keys - b.Keys);
    assert a.Keys + (b.Keys - a.Keys) == keys == b.Keys + (a.Keys - b.Keys);
    if Leq(a, b) {
      SumOverMonotone(a, b, keys);
      if Leq(b, a) {
        SumOverMonotone(b, a, keys);
      } else {
        var k: KeyId :| Get(a, k) < Get(b, k);
        assert k in keys;
      }
    }
  }

  lemma {:induction false} SumOverSame(a: Clock, b: Clock, keys: set<KeyId>)
    requires forall k :: k in keys ==> Get(a, k) == Get(b, k)
    ensures SumOver(a, keys) == SumOver(b, keys)
    decreases |keys|
  {
    if keys == {} {
    } else {
      SumOverSame(a, b, keys - {Min(keys)});
    }
  }

  lemma TotalWith(c: Clock, k: KeyId, n: u32)
    requires k !in c
    ensures Total(c[k := n]) == n + Total(c)
  {
    var d := c[k := n];
    SumOverRemove(d, d.Keys, k);
    assert d.Keys - {k} == c.Keys;
    SumOverSame(d, c, c.Keys);
  }

  /** Below a clock there is a clock of every smaller sum. */
  lemma {:induction false} TrimTo(b: Clock, sum: nat) returns (a: Clock)
    requires sum <= Total(b)
    ensures a.Keys <= b.Keys && Leq(a, b) && Total(a) == sum
    decreases |b|
  {
    if sum == Total(b) {
      a := b;
    } else {
      assert b.Keys != {};
      var k :| k in b.Keys;
      var rest := b - {k};
      assert b == rest[k := b[k]];
      assert |b| == |b.Keys| && |rest| == |rest.Keys| && rest.Keys == b.Keys - {k};
      TotalWith(rest, k, b[k]);
      var kept := if sum <= b[k] then sum else b[k];
      a := TrimTo(rest, sum - kept);
      assert a.Keys <= rest.Keys && k !in a;
      TotalWith(a, k, kept);
      forall o: KeyId ensures Get(a[k := kept], o) <= Get(b, o) {
        assert Get(a, o) <= Get(rest, o);
      }
      a := a[k := kept];
    }
  }

  /** A clock whose sum exceeds a u32 has a strictly smaller clock that does not reduce to less. */
  lemma ReduceWraps(b: Clock)
    requires Total(b) >= U32_RANGE
    ensures exists a: Clock :: Compare(a, b) == Some(Less) && Reduce(a) >= Reduce(b)
  {
    var a := TrimTo(b, U32_RANGE - 1);
    ReduceIsStrictlyMonotone(b, a);
    assert !Leq(b, a);
    assert Compare(a, b) == Some(Less) && Reduce(a) == U32_RANGE - 1;
  }

  /** `reduce` respects the order below a clock if and only if its sum fits a u32. */
  lemma ReduceIsMonotoneIffSumFits(b: Clock)
    ensures (forall a: Clock :: Compare(a, b) == Some(Less) ==> Reduce(a) < Reduce(b)) <==> Total(b) < U32_RANGE
  {
    if Total(b) < U32_RANGE {
      forall a: Clock | Compare(a, b) == Some(Less) ensures Reduce(a) < Reduce(b) {
        ReduceIsStrictlyMonotone(a, b);
      }
    } else {
      ReduceWraps(b);
    }
  }
}
