/** Whole distributed runs of the vector clock.

    A run lists its events in one order compatible with causality.  Every clock in it comes from
    `update` on the process's own last clock (or its genesis clock) and on received clocks.  The
    clocks then decide Lamport's happens-before, and `reduce` counts the causal past. */
module ClockRun {
  import opened FiniteSets
  import opened MachineInts
  import opened Wrappers
  import opened OrdinaryClock

  /** `start` is the genesis clock the process would begin from; `received` lists the events whose
      clocks the update consumed, in the order of its iterator. */
  datatype Event = Event(id: KeyId, start: Clock, received: seq<nat>, clock: Clock)

  type Run = seq<Event>

  /** The latest event of process `p` among the first `n`. */
  function Last(run: Run, p: KeyId, n: nat): (r: Option<nat>)
    requires n <= |run|
    ensures r.Some? ==> r.value < n && run[r.value].id == p
    ensures forall k :: (if r.Some? then r.value + 1 else 0) <= k < n ==> run[k].id != p
  {
    if n == 0 then None
    else if run[n - 1].id == p then Some(n - 1)
    else Last(run, p, n - 1)
  }

  function OwnClock(run: Run, i: nat): Clock
    requires i < |run|
  {
    var last := Last(run, run[i].id, i);
    if last.Some? then run[last.value].clock else run[i].start
  }

  function ReceivedClocks(run: Run, i: nat): seq<Clock>
    requires i < |run|
    requires forall r :: r in run[i].received ==> r < |run|
  {
    seq(|run[i].received|, j requires 0 <= j < |run[i].received| =>
      assert run[i].received[j] in run[i].received; run[run[i].received[j]].clock)
  }

  ghost predicate IsRun(run: Run) {
    forall i :: 0 <= i < |run| ==> ValidEvent(run, i)
  }

  /** Of the first `n` events no process has 2^32, so that no counter has overflowed. */
  ghost predicate Fits(run: Run, n: nat)
    requires n <= |run|
  {
    forall p: KeyId :: Count(run, p, n) < U32_RANGE
  }

  ghost predicate ValidRun(run: Run) {
    IsRun(run) && Fits(run, |run|)
  }

  /** The event begins from a genesis clock and receives earlier events only. */
  ghost predicate Placed(run: Run, i: nat)
    requires i < |run|
  {
    IsGenesis(run[i].start) && forall r :: r in run[i].received ==> r < i
  }

  ghost predicate ValidEvent(run: Run, i: nat)
    requires i < |run|
  {
    Placed(run, i) && run[i].clock == Updated(OwnClock(run, i), ReceivedClocks(run, i), run[i].id)
  }

  // ---------------------------------------------------------------- happens-before

  /** `i` is the own predecessor of `j`, or `j` received `i`'s clock. */
  predicate Edge(run: Run, i: nat, j: nat)
    requires i < |run| && j < |run|
  {
    i < j && (Last(run, run[j].id, j) == Some(i) || i in run[j].received)
  }

  ghost predicate IsPath(run: Run, path: seq<nat>) {
    && (forall m :: 0 <= m < |path| ==> path[m] < |run|)
    && forall m :: 0 <= m < |path| - 1 ==> Edge(run, path[m], path[m + 1])
  }

  ghost predicate HappensBefore(run: Run, i: nat, j: nat) {
    exists path :: |path| >= 2 && path[0] == i && path[|path| - 1] == j && IsPath(run, path)
  }

  ghost predicate InPast(run: Run, i: nat, j: nat)
    requires j < |run|
    decreases j
  {
    i == j || exists e :: 0 <= e < j && Edge(run, e, j) && InPast(run, i, e)
  }

  ghost function Past(run: Run, j: nat): set<nat>
    requires j < |run|
  {
    set i | 0 <= i < |run| && InPast(run, i, j)
  }

  lemma {:induction false} InPastHasPath(run: Run, i: nat, j: nat) returns (path: seq<nat>)
    requires j < |run| && InPast(run, i, j)
    ensures |path| >= 1 && path[0] == i && path[|path| - 1] == j && IsPath(run, path)
    ensures i != j ==> |path| >= 2
    ensures i <= j
    decreases j
  {
    if i == j {
      path := [i];
    } else {
      var e :| 0 <= e < j && Edge(run, e, j) && InPast(run, i, e);
      var prefix := InPastHasPath(run, i, e);
      path := prefix + [j];
    }
  }

  lemma {:induction false} PathIsInPast(run: Run, path: seq<nat>)
    requires |path| >= 1 && IsPath(run, path)
    ensures InPast(run, path[0], path[|path| - 1])
    ensures |path| >= 2 ==> path[0] < path[|path| - 1]
    decreases |path|
  {
    if |path| == 1 {
    } else {
      var prefix := path[..|path| - 1];
      var e, j := prefix[|prefix| - 1], path[|path| - 1];
      assert e == path[|path| - 2];
      assert Edge(run, path[|path| - 2], path[|path| - 2 + 1]);
      assert IsPath(run, prefix) by {
        forall m | 0 <= m < |prefix| - 1 ensures Edge(run, prefix[m], prefix[m + 1]) {
          assert Edge(run, path[m], path[m + 1]);
        }
      }
      PathIsInPast(run, prefix);
    }
  }

  /** The recursive causal past is the reflexive closure of happens-before. */
  lemma PastIsHappensBefore(run: Run, i: nat, j: nat)
    requires i < |run| && j < |run|
    ensures InPast(run, i, j) <==> i == j || HappensBefore(run, i, j)
    ensures HappensBefore(run, i, j) ==> i < j
  {
    if InPast(run, i, j) && i != j {
      var path := InPastHasPath(run, i, j);
    }
    if HappensBefore(run, i, j) {
      var path :| |path| >= 2 && path[0] == i && path[|path| - 1] == j && IsPath(run, path);
      PathIsInPast(run, path);
    }
  }

  lemma {:induction false} InPastTransitive(run: Run, i: nat, j: nat, k: nat)
    requires j < |run| && k < |run| && InPast(run, i, j) && InPast(run, j, k)
    ensures InPast(run, i, k)
    decreases k
  {
    if j == k {
    } else {
      var e :| 0 <= e < k && Edge(run, e, k) && InPast(run, j, e);
      InPastTransitive(run, i, j, e);
    }
  }

  // ---------------------------------------------------------------- counting a process's events

  function Count(run: Run, p: KeyId, n: nat): nat
    requires n <= |run|
  {
    if n == 0 then 0 else Count(run, p, n - 1) + if run[n - 1].id == p then 1 else 0
  }

  lemma {:induction false} CountMonotone(run: Run, p: KeyId, m: nat, n: nat)
    requires m <= n <= |run|
    ensures Count(run, p, m) <= Count(run, p, n) <= Count(run, p, m) + (n - m)
    ensures (forall k :: m <= k < n ==> run[k].id != p) ==> Count(run, p, m) == Count(run, p, n)
    decreases n
  {
    if m == n {
    } else {
      CountMonotone(run, p, m, n - 1);
    }
  }

  /** Events of one process are told apart by how many came up to and including them. */
  lemma CountIncreases(run: Run, i: nat, j: nat)
    requires i < |run| && j < |run| && run[i].id == run[j].id
    ensures Count(run, run[i].id, i + 1) <= Count(run, run[i].id, j + 1) <==> i <= j
  {
    if i < j {
      CountMonotone(run, run[i].id, i + 1, j + 1);
    } else if j < i {
      CountMonotone(run, run[i].id, j + 1, i);
    }
  }

  lemma CountAtLast(run: Run, p: KeyId, n: nat)
    requires n <= |run|
    ensures Last(run, p, n).Some? ==> Count(run, p, Last(run, p, n).value + 1) == Count(run, p, n)
    ensures Last(run, p, n).None? ==> Count(run, p, n) == 0
  {
    var last := Last(run, p, n);
    CountMonotone(run, p, if last.Some? then last.value + 1 else 0, n);
  }

  // ---------------------------------------------------------------- the clock knows its past

  ghost predicate CountsUpTo(run: Run, j: nat, p: KeyId)
    requires j < |run|
  {
    Get(run[j].clock, p) <= Count(run, p, j + 1)
  }

  /** The own entry is the number of own events, and no entry runs ahead. */
  ghost predicate Counts(run: Run, j: nat)
    requires j < |run|
  {
    && Get(run[j].clock, run[j].id) == Count(run, run[j].id, j + 1)
    && forall p: KeyId :: CountsUpTo(run, j, p)
  }

  /** An event lies in the past exactly when its number is within the entry of its process. */
  ghost predicate Tracks(run: Run, j: nat)
    requires j < |run|
  {
    forall i :: 0 <= i < |run| ==> (InPast(run, i, j) <==> Knows(run, i, j))
  }

  ghost predicate Knows(run: Run, i: nat, j: nat)
    requires i < |run| && j < |run|
  {
    Count(run, run[i].id, i + 1) <= Get(run[j].clock, run[i].id)
  }

  function Merged(run: Run, j: nat): Clock
    requires j < |run|
    requires forall r :: r in run[j].received ==> r < |run|
  {
    FoldMerge(OwnClock(run, j), ReceivedClocks(run, j))
  }

  /** The merged clock is entrywise the largest clock over the incoming edges of `j`. */
  lemma MergedFromEdges(run: Run, j: nat, p: KeyId)
    requires j < |run| && Placed(run, j)
    ensures forall e :: 0 <= e < j && Edge(run, e, j) ==> Get(run[e].clock, p) <= Get(Merged(run, j), p)
    ensures Get(Merged(run, j), p) == 0
            || exists e :: 0 <= e < j && Edge(run, e, j) && Get(run[e].clock, p) == Get(Merged(run, j), p)
  {
    var own, clocks := OwnClock(run, j), ReceivedClocks(run, j);
    var last := Last(run, run[j].id, j);
    FoldMergeIsMaximum(own, clocks, p);
    forall e | 0 <= e < j && Edge(run, e, j) ensures Get(run[e].clock, p) <= Get(Merged(run, j), p) {
      if last != Some(e) {
        var x :| 0 <= x < |run[j].received| && run[j].received[x] == e;
        assert clocks[x] == run[e].clock && clocks[x] in clocks;
      }
    }
    if Get(Merged(run, j), p) != 0 {
      if Get(Merged(run, j), p) == Get(own, p) {
        assert last.Some?;
        assert Edge(run, last.value, j);
      } else {
        var o :| o in clocks && Get(Merged(run, j), p) == Get(o, p);
        var x :| 0 <= x < |clocks| && clocks[x] == o;
        var e := run[j].received[x];
        assert e in run[j].received;
        assert Edge(run, e, j);
      }
    }
  }

  lemma MergedIsBounded(run: Run, j: nat, p: KeyId)
    requires j < |run| && Placed(run, j)
    requires forall e :: 0 <= e < j ==> Counts(run, e)
    ensures Get(Merged(run, j), p) <= Count(run, p, j)
  {
    var entry := Get(Merged(run, j), p);
    if entry != 0 {
      var e := MergedSource(run, j, p);
      assert Get(run[e].clock, p) <= Count(run, p, e + 1) by {
        assert Counts(run, e) && CountsUpTo(run, e, p);
      }
      CountMonotone(run, p, e + 1, j);
    }
  }

  lemma MergedSource(run: Run, j: nat, p: KeyId) returns (e: nat)
    requires j < |run| && Placed(run, j) && Get(Merged(run, j), p) != 0
    ensures e < j && Edge(run, e, j) && Get(run[e].clock, p) == Get(Merged(run, j), p)
  {
    MergedFromEdges(run, j, p);
    e :| 0 <= e < j && Edge(run, e, j) && Get(run[e].clock, p) == Get(Merged(run, j), p);
  }

  lemma MergedDominates(run: Run, j: nat, p: KeyId, e: nat)
    requires j < |run| && Placed(run, j) && e < j && Edge(run, e, j)
    ensures Get(run[e].clock, p) <= Get(Merged(run, j), p)
  {
    MergedFromEdges(run, j, p);
  }

  lemma OwnPredecessorCounts(run: Run, j: nat, e: nat)
    requires j < |run| && Placed(run, j) && e < j
    requires Last(run, run[j].id, j) == Some(e) && Counts(run, e)
    ensures Count(run, run[j].id, e + 1) <= Get(Merged(run, j), run[j].id)
  {
    MergedDominates(run, j, run[j].id, e);
  }

  lemma OwnEntryAtLeast(run: Run, j: nat, last: Option<nat>)
    requires j < |run| && Placed(run, j) && last == Last(run, run[j].id, j)
    requires last.Some? ==> Counts(run, last.value)
    ensures Count(run, run[j].id, j) <= Get(Merged(run, j), run[j].id)
  {
    CountAtLast(run, run[j].id, j);
    if last.Some? {
      OwnPredecessorCounts(run, j, last.value);
    }
  }

  /** The own entry of the merged clock is the number of own events so far. */
  lemma OwnEntry(run: Run, j: nat)
    requires j < |run| && Placed(run, j)
    requires forall e :: 0 <= e < j ==> Counts(run, e)
    ensures Get(Merged(run, j), run[j].id) == Count(run, run[j].id, j)
  {
    MergedIsBounded(run, j, run[j].id);
    OwnEntryAtLeast(run, j, Last(run, run[j].id, j));
  }

  /** The increment does not wrap: the process has too few events. */
  lemma EntryOf(run: Run, j: nat, p: KeyId)
    requires j < |run| && ValidEvent(run, j) && Count(run, run[j].id, j + 1) < U32_RANGE
    requires forall e :: 0 <= e < j ==> Counts(run, e)
    ensures Get(run[j].clock, p) == Get(Merged(run, j), p) + if p == run[j].id then 1 else 0
    ensures CountsUpTo(run, j, p)
  {
    MergedIsBounded(run, j, p);
    MergedIsBounded(run, j, run[j].id);
    UpdatedGet(OwnClock(run, j), ReceivedClocks(run, j), run[j].id, p);
  }

  lemma FitsBefore(run: Run, m: nat, n: nat)
    requires m <= n <= |run| && Fits(run, n)
    ensures Fits(run, m)
  {
    forall p: KeyId ensures Count(run, p, m) < U32_RANGE {
      CountMonotone(run, p, m, n);
    }
  }

  lemma {:induction false} EveryClockCounts(run: Run, n: nat)
    requires IsRun(run) && n <= |run| && Fits(run, n)
    ensures forall j :: 0 <= j < n ==> Counts(run, j)
    decreases n
  {
    if n == 0 {
    } else {
      var j := n - 1;
      FitsBefore(run, j, n);
      EveryClockCounts(run, j);
      assert ValidEvent(run, j);
      OwnEntry(run, j);
      EntryOf(run, j, run[j].id);
      forall p: KeyId ensures CountsUpTo(run, j, p) {
        EntryOf(run, j, p);
      }
    }
  }

  lemma PastIsKnown(run: Run, i: nat, j: nat)
    requires ValidRun(run) && i < |run| && j < |run| && InPast(run, i, j)
    requires forall e :: 0 <= e < j ==> Tracks(run, e)
    ensures Knows(run, i, j)
  {
    var p := run[i].id;
    EveryClockCounts(run, |run|);
    assert ValidEvent(run, j) && Counts(run, j);
    FitsBefore(run, j + 1, |run|);
    if i != j {
      EntryOf(run, j, p);
      var e :| 0 <= e < j && Edge(run, e, j) && InPast(run, i, e);
      assert Tracks(run, e) && Knows(run, i, e);
      MergedDominates(run, j, p, e);
    }
  }

  lemma OwnKnownIsPast(run: Run, i: nat, j: nat)
    requires ValidRun(run) && i < |run| && j < |run| && Knows(run, i, j) && run[i].id == run[j].id
    requires forall e :: 0 <= e < j ==> Tracks(run, e)
    ensures InPast(run, i, j)
  {
    EveryClockCounts(run, |run|);
    assert Counts(run, j);
    CountIncreases(run, i, j);
    if i < j {
      var e := Last(run, run[i].id, j).value;
      assert Counts(run, e);
      CountIncreases(run, i, e);
      assert Tracks(run, e) && Knows(run, i, e);
      assert Edge(run, e, j);
    }
  }

  lemma KnownIsPast(run: Run, i: nat, j: nat)
    requires ValidRun(run) && i < |run| && j < |run| && Knows(run, i, j)
    requires forall e :: 0 <= e < j ==> Tracks(run, e)
    ensures InPast(run, i, j)
  {
    var p := run[i].id;
    if p == run[j].id {
      OwnKnownIsPast(run, i, j);
    } else {
      EveryClockCounts(run, |run|);
      assert ValidEvent(run, j);
      FitsBefore(run, j + 1, |run|);
      EntryOf(run, j, p);
      var e := MergedSource(run, j, p);
      assert Tracks(run, e) && Knows(run, i, e);
    }
  }

  lemma {:induction false} EveryClockTracks(run: Run, n: nat)
    requires ValidRun(run) && n <= |run|
    ensures forall j :: 0 <= j < n ==> Tracks(run, j)
    decreases n
  {
    if n == 0 {
    } else {
      var j := n - 1;
      EveryClockTracks(run, j);
      forall i | 0 <= i < |run| ensures InPast(run, i, j) <==> Knows(run, i, j) {
        if InPast(run, i, j) {
          PastIsKnown(run, i, j);
        }
        if Knows(run, i, j) {
          KnownIsPast(run, i, j);
        }
      }
    }
  }

  // ---------------------------------------------------------------- cardinalities

  /** The first `n` events of process `p` whose number is at most `c`. */
  function Numbered(run: Run, p: KeyId, c: nat, n: nat): set<nat>
    requires n <= |run|
  {
    set i | 0 <= i < n && run[i].id == p && Count(run, p, i + 1) <= c
  }

  lemma {:induction false} NumberedSize(run: Run, p: KeyId, c: nat, n: nat)
    requires n <= |run|
    ensures |Numbered(run, p, c, n)| == if c <= Count(run, p, n) then c else Count(run, p, n)
    decreases n
  {
    if n == 0 {
      assert Numbered(run, p, c, n) == {};
    } else {
      NumberedSize(run, p, c, n - 1);
      if run[n - 1].id == p && Count(run, p, n) <= c {
        assert Numbered(run, p, c, n) == Numbered(run, p, c, n - 1) + {n - 1};
      } else {
        assert Numbered(run, p, c, n) == Numbered(run, p, c, n - 1);
      }
    }
  }

  /** Entry `p` of an event's clock is the number of `p`'s events in its causal past. */
  lemma EntryCountsPast(run: Run, j: nat, p: KeyId)
    requires ValidRun(run) && j < |run|
    ensures Get(run[j].clock, p) == |set i | i in Past(run, j) && run[i].id == p|
  {
    EveryClockCounts(run, |run|);
    EveryClockTracks(run, |run|);
    assert Counts(run, j) && CountsUpTo(run, j, p) && Tracks(run, j);
    CountMonotone(run, p, j + 1, |run|);
    NumberedSize(run, p, Get(run[j].clock, p), |run|);
    var mine := set i | i in Past(run, j) && run[i].id == p;
    forall i | 0 <= i < |run| ensures i in mine <==> i in Numbered(run, p, Get(run[j].clock, p), |run|) {
      assert InPast(run, i, j) <==> Knows(run, i, j);
    }
    assert mine == Numbered(run, p, Get(run[j].clock, p), |run|);
  }

  lemma {:induction false} SumCountsPast(run: Run, j: nat, keys: set<KeyId>)
    requires ValidRun(run) && j < |run|
    ensures SumOver(run[j].clock, keys) == |set i | i in Past(run, j) && run[i].id in keys|
    decreases |keys|
  {
    if keys == {} {
      assert (set i | i in Past(run, j) && run[i].id in keys) == {};
    } else {
      var k := Min(keys);
      SumCountsPast(run, j, keys - {k});
      EntryCountsPast(run, j, k);
      var all := set i | i in Past(run, j) && run[i].id in keys;
      var here := set i | i in Past(run, j) && run[i].id == k;
      var rest := set i | i in Past(run, j) && run[i].id in keys - {k};
      assert all == here + rest && here !! rest;
    }
  }

  /** The counters of an event's clock sum to the size of its causal past, the event included, and
      `reduce` is that size in u32 arithmetic. */
  lemma ReduceCountsPast(run: Run, j: nat)
    requires ValidRun(run) && j < |run|
    ensures Total(run[j].clock) == |Past(run, j)|
    ensures Reduce(run[j].clock) == |Past(run, j)| % U32_RANGE
  {
    var clock := run[j].clock;
    SumCountsPast(run, j, clock.Keys);
    forall i | i in Past(run, j) ensures run[i].id in clock {
      EveryClockTracks(run, |run|);
      assert Tracks(run, j) && InPast(run, i, j) && Knows(run, i, j);
      CountIncreases(run, i, i);
      CountMonotone(run, run[i].id, 0, i);
    }
    assert Past(run, j) == set i | i in Past(run, j) && run[i].id in clock.Keys;
  }

  // ---------------------------------------------------------------- the order theorems

  lemma LeqIsInPast(run: Run, i: nat, j: nat)
    requires ValidRun(run) && i < |run| && j < |run|
    ensures Leq(run[i].clock, run[j].clock) <==> InPast(run, i, j)
    ensures InPast(run, i, j) <==> Get(run[i].clock, run[i].id) <= Get(run[j].clock, run[i].id)
  {
    EveryClockCounts(run, |run|);
    EveryClockTracks(run, |run|);
    assert Counts(run, i) && Tracks(run, j);
    assert InPast(run, i, j) <==> Knows(run, i, j);
    if InPast(run, i, j) {
      forall p: KeyId ensures Get(run[i].clock, p) <= Get(run[j].clock, p) {
        var mine := set e | e in Past(run, i) && run[e].id == p;
        var other := set e | e in Past(run, j) && run[e].id == p;
        EntryCountsPast(run, i, p);
        EntryCountsPast(run, j, p);
        forall e | e in mine ensures e in other {
          InPastTransitive(run, e, i, j);
        }
        SubsetSize(mine, other);
      }
    }
  }

  /** In every run `partial_cmp` of two events' clocks decides happens-before exactly. */
  lemma ClockOrderIsHappensBefore(run: Run, i: nat, j: nat)
    requires ValidRun(run) && i < |run| && j < |run|
    ensures Compare(run[i].clock, run[j].clock) == Some(Less) <==> HappensBefore(run, i, j)
    ensures Compare(run[i].clock, run[j].clock) == Some(Greater) <==> HappensBefore(run, j, i)
    ensures Compare(run[i].clock, run[j].clock) == Some(Equal) <==> i == j
    ensures Compare(run[i].clock, run[j].clock) == None
            <==> i != j && !HappensBefore(run, i, j) && !HappensBefore(run, j, i)
  {
    LeqIsInPast(run, i, j);
    LeqIsInPast(run, j, i);
    PastIsHappensBefore(run, i, j);
    PastIsHappensBefore(run, j, i);
  }

  /** The one-entry test `dep_cmp` at the first event's own id refines the full comparison; it compares
      how many of that process's events the two pasts hold. */
  lemma DepCmpRefinesPartialCmp(run: Run, i: nat, j: nat)
    requires ValidRun(run) && i < |run| && j < |run|
    ensures DepCmp(run[i].clock, run[j].clock, run[i].id) != Greater
            <==> Compare(run[i].clock, run[j].clock) in {Some(Less), Some(Equal)}
    ensures var p := run[i].id;
      var mine := |set e | e in Past(run, i) && run[e].id == p|;
      var other := |set e | e in Past(run, j) && run[e].id == p|;
      DepCmp(run[i].clock, run[j].clock, p) == if mine < other then Less else if mine == other then Equal else Greater
  {
    LeqIsInPast(run, i, j);
    EntryCountsPast(run, i, run[i].id);
    EntryCountsPast(run, j, run[i].id);
    EveryClockCounts(run, |run|);
    assert Counts(run, i);
    CountMonotone(run, run[i].id, 0, i);
    assert Get(run[i].clock, run[i].id) > 0;
  }

  /** The clock order decides causality for every pair of events. */
  ghost predicate OrderIsExact(run: Run) {
    forall i, j :: 0 <= i < |run| && 0 <= j < |run| ==>
      (Compare(run[i].clock, run[j].clock) == Some(Less) <==> HappensBefore(run, i, j))
  }

  /** The first events of a run until some process has its 2^32nd. */
  lemma {:induction false} FirstOverflow(run: Run, n: nat) returns (j: nat)
    requires n <= |run| && !Fits(run, n)
    ensures j < n && Fits(run, j) && Count(run, run[j].id, j) == U32_RANGE - 1
    decreases n
  {
    if n == 0 {
    } else if Fits(run, n - 1) {
      j := n - 1;
      var p: KeyId :| Count(run, p, n) >= U32_RANGE;
      assert Count(run, p, n - 1) < U32_RANGE;
    } else {
      j := FirstOverflow(run, n - 1);
    }
  }

  /** The 2^32nd event of a process wraps its entry to zero, below that of its own predecessor. */
  lemma OverflowBreaksOrder(run: Run, j: nat) returns (e: nat)
    requires IsRun(run) && j < |run| && Fits(run, j) && Count(run, run[j].id, j) == U32_RANGE - 1
    ensures e < j && HappensBefore(run, e, j) && Get(run[j].clock, run[j].id) == 0
    ensures !Leq(run[e].clock, run[j].clock)
  {
    var p := run[j].id;
    EveryClockCounts(run, j);
    assert ValidEvent(run, j);
    OwnEntry(run, j);
    CountAtLast(run, p, j);
    e := Last(run, p, j).value;
    assert Counts(run, e) && Get(run[e].clock, p) == U32_RANGE - 1;
    assert IsPath(run, [e, j]);
    assert [e, j][0] == e && [e, j][|[e, j]| - 1] == j;
  }

  /** In every run whatever, the clock order is exactly happens-before if and only if no process has
      2^32 events. */
  lemma OrderIsExactIffNoOverflow(run: Run)
    requires IsRun(run)
    ensures OrderIsExact(run) <==> Fits(run, |run|)
  {
    if Fits(run, |run|) {
      forall i, j | 0 <= i < |run| && 0 <= j < |run|
        ensures Compare(run[i].clock, run[j].clock) == Some(Less) <==> HappensBefore(run, i, j)
      {
        ClockOrderIsHappensBefore(run, i, j);
      }
    } else {
      var j := FirstOverflow(run, |run|);
      var e := OverflowBreaksOrder(run, j);
      assert Compare(run[e].clock, run[j].clock) != Some(Less) && HappensBefore(run, e, j);
    }
  }

  /** Logical time respects causality: the past grows along happens-before, and `reduce` with it
      for as long as the later event's past is below 2^32. */
  lemma LamportClockCondition(run: Run, i: nat, j: nat)
    requires ValidRun(run) && i < |run| && j < |run| && HappensBefore(run, i, j)
    ensures |Past(run, i)| < |Past(run, j)|
    ensures |Past(run, j)| < U32_RANGE ==> Reduce(run[i].clock) < Reduce(run[j].clock)
  {
    ClockOrderIsHappensBefore(run, i, j);
    ReduceIsStrictlyMonotone(run[i].clock, run[j].clock);
    ReduceCountsPast(run, i);
    ReduceCountsPast(run, j);
  }
}
