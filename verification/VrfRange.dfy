/** The range adjustment of `compute_vrf` (`operator/runer/src/api/msg_handler.rs`).

    The source computes in f64.  `fl` rounds a real to a float; every float operation is the exact one
    followed by `fl`, and of `fl` only what holds of each IEEE 754 rounding mode is used.  The `as u64`
    casts truncate and saturate. */
module VrfRange {
  import opened Bytes
  import opened MachineInts
  import opened Sortition
  import opened Wrappers

  type Rounding = real -> real

  ghost predicate Ordered(fl: Rounding, x: real, y: real) {
    x <= y ==> fl(x) <= fl(y)
  }

  /** Rounding is monotone, keeps zero, and keeps what is a float already. */
  ghost predicate Rounds(fl: Rounding) {
    && fl(0.0) == 0.0
    && (forall x, y :: Ordered(fl, x, y))
    && (forall x :: fl(fl(x)) == fl(x))
  }

  /** `x as u64`. */
  function ToU64(x: real): u64 {
    if x <= 0.0 then 0
    else if x >= U64_RANGE as real then U64_RANGE - 1
    else x.Floor
  }

  datatype Range = Range(start: u64, end: u64)

  function Times(fl: Rounding, m: real, share: real): real {
    fl(m * fl(share))
  }

  function Plus(fl: Rounding, x: real, y: real): real {
    fl(x + y)
  }

  function Below(fl: Rounding, x: real, m: real, share: real): u64 {
    ToU64(Plus(fl, x, -Times(fl, m, share)))
  }

  function Above(fl: Rounding, x: real, m: real, share: real): u64 {
    ToU64(Plus(fl, x, Times(fl, m, share)))
  }

  /** The error carries the unsupported position. */
  function AdjustRange(fl: Rounding, tag: string, position: string, start: u64, end: u64, maxRange: u64)
    : Result<Range, string>
  {
    var s, e, m := fl(start as real), fl(end as real), fl(maxRange as real);
    if tag == "suspicion" then Ok(Range(Below(fl, s, m, 0.03), Above(fl, e, m, 0.03)))
    else if tag == "malicious" then
      if position == "before" then Ok(Range(Below(fl, s, m, 0.1), Above(fl, e, m, 0.1)))
      else if position == "after" then Ok(Range(Below(fl, s, m, 0.03), Above(fl, e, m, 0.03)))
      else Err(position)
    else Ok(Range(ToU64(s), ToU64(e)))
  }

  /** `range.1 - range.0`, wrapping when it underflows. */
  function Threshold(r: Range): u64 {
    (r.end - r.start) % U64_RANGE
  }

  /** How far a tag widens the range at each end, as a share of the maximum range. */
  function Margin(tag: string, position: string): Option<real> {
    if tag == "suspicion" || (tag == "malicious" && position == "after") then Some(0.03)
    else if tag == "malicious" then if position == "before" then Some(0.1) else None
    else Some(0.0)
  }

  /** A u64 that went through a float. */
  function ThroughFloat(fl: Rounding, n: u64): u64 {
    ToU64(fl(n as real))
  }

  lemma ToU64Monotone(x: real, y: real)
    requires x <= y
    ensures ToU64(x) <= ToU64(y)
  {}

  /** Not rounded down, nor up to the next integer; the largest u64 may go up, as it saturates. */
  predicate Unchanged(fl: Rounding, n: u64) {
    n as real <= fl(n as real) && (fl(n as real) < (n + 1) as real || n == U64_RANGE - 1)
  }

  lemma ExactThroughFloat(fl: Rounding, n: u64)
    requires Rounds(fl)
    ensures ThroughFloat(fl, n) == n <==> Unchanged(fl, n)
  {
    assert Ordered(fl, 0.0, n as real);
  }

  lemma ThroughFloatMonotone(fl: Rounding, m: u64, n: u64)
    requires Rounds(fl) && m <= n
    ensures ThroughFloat(fl, m) <= ThroughFloat(fl, n)
  {
    assert Ordered(fl, m as real, n as real);
    ToU64Monotone(fl(m as real), fl(n as real));
  }

  lemma NothingAdded(fl: Rounding, x: real, m: real, share: real)
    requires Rounds(fl) && share == 0.0 && fl(x) == x
    ensures Times(fl, m, share) == 0.0
    ensures Plus(fl, x, Times(fl, m, share)) == x == Plus(fl, x, -Times(fl, m, share))
  {
    assert m * fl(share) == 0.0;
    assert x + Times(fl, m, share) == x && x - Times(fl, m, share) == x;
  }

  lemma Untouched(fl: Rounding, n: u64, m: real, share: real)
    requires Rounds(fl) && share == 0.0
    ensures Below(fl, fl(n as real), m, share) == ThroughFloat(fl, n) == Above(fl, fl(n as real), m, share)
  {
    NothingAdded(fl, fl(n as real), m, share);
  }

  /** Every tag and position widens both ends by its share of the maximum range, or is refused. */
  lemma AdjustedByMargin(fl: Rounding, tag: string, position: string, start: u64, end: u64, maxRange: u64)
    requires Rounds(fl)
    ensures AdjustRange(fl, tag, position, start, end, maxRange)
            == var margin, m := Margin(tag, position), fl(maxRange as real);
               if margin.None? then Err(position)
               else Ok(Range(Below(fl, fl(start as real), m, margin.value),
                             Above(fl, fl(end as real), m, margin.value)))
  {
    var margin := Margin(tag, position);
    if margin == Some(0.0) {
      Untouched(fl, start, fl(maxRange as real), margin.value);
      Untouched(fl, end, fl(maxRange as real), margin.value);
    }
  }

  lemma Widened(fl: Rounding, x: real, m: real, share: real)
    ensures Below(fl, x, m, share) == ToU64(fl(x - fl(m * fl(share))))
    ensures Above(fl, x, m, share) == ToU64(fl(x + fl(m * fl(share))))
  {
    var t := Times(fl, m, share);
    assert x + -t == x - t;
  }

  /** By name: "suspicion" and "malicious"/"after" widen both ends by 0.03 of the maximum range,
      "malicious"/"before" by 0.1, any other position of "malicious" is refused and any other tag changes
      nothing; every float operation is rounded once. */
  lemma AdjustedByTag(fl: Rounding, tag: string, position: string, start: u64, end: u64, maxRange: u64,
                      s: real, e: real, m: real, share: real)
    requires s == fl(start as real) && e == fl(end as real) && m == fl(maxRange as real)
    requires share == if tag == "malicious" && position == "before" then 0.1 else 0.03
    ensures AdjustRange(fl, tag, position, start, end, maxRange)
            == if tag == "malicious" && position != "before" && position != "after" then Err(position)
               else if tag == "suspicion" || tag == "malicious" then
                 Ok(Range(ToU64(fl(s - fl(m * fl(share)))), ToU64(fl(e + fl(m * fl(share))))))
               else Ok(Range(ToU64(s), ToU64(e)))
  {
    Widened(fl, s, m, share);
    Widened(fl, e, m, share);
  }

  /** Truncation, and saturation at both ends, of a number of hundredths. */
  lemma Hundredths(x: real, n: int)
    requires 100.0 * x == n as real
    ensures ToU64(x) == if n / 100 < 0 then 0
                        else if n / 100 >= 0x1_0000_0000_0000_0000 then 0x1_0000_0000_0000_0000 - 1
                        else n / 100
  {
    var q, r := n / 100, n % 100;
    assert n == 100 * q + r;
    assert q as real <= x < (q + 1) as real;
  }

  /** In whole numbers, when nothing is rounded but the result: start − 3%, end + 3% of the maximum range
      (or 10%), rounded down, not below zero and not above the largest u64. */
  lemma AdjustedInIntegers(fl: Rounding, tag: string, position: string, start: u64, end: u64, maxRange: u64)
    requires forall x :: fl(x) == x
    requires tag == "suspicion" || (tag == "malicious" && position in {"before", "after"})
    ensures var percent := if tag == "malicious" && position == "before" then 10 else 3;
      var low, high := (100 * start - percent * maxRange) / 100, (100 * end + percent * maxRange) / 100;
      AdjustRange(fl, tag, position, start, end, maxRange)
      == Ok(Range(if low < 0 then 0 else low,
                  if high >= 0x1_0000_0000_0000_0000 then 0x1_0000_0000_0000_0000 - 1 else high))
  {
    var s, e, m := start as real, end as real, maxRange as real;
    AdjustedByTag(fl, tag, position, start, end, maxRange, s, e, m,
                  if tag == "malicious" && position == "before" then 0.1 else 0.03);
    if tag == "malicious" && position == "before" {
      Hundredths(s - m * 0.1, 100 * start - 10 * maxRange);
      Hundredths(e + m * 0.1, 100 * end + 10 * maxRange);
    } else {
      Hundredths(s - m * 0.03, 100 * start - 3 * maxRange);
      Hundredths(e + m * 0.03, 100 * end + 3 * maxRange);
    }
  }

  lemma Scaled(m: real, a: real, b: real)
    requires 0.0 <= m && a <= b
    ensures m * a <= m * b
  {
    assert m * (b - a) >= 0.0;
  }

  /** A larger share moves both ends further out. */
  lemma WiderIsWider(fl: Rounding, x: real, m: real, a: real, b: real)
    requires Rounds(fl) && 0.0 <= m && a <= b
    ensures Below(fl, x, m, b) <= Below(fl, x, m, a)
    ensures Above(fl, x, m, a) <= Above(fl, x, m, b)
  {
    assert Ordered(fl, a, b);
    Scaled(m, fl(a), fl(b));
    assert Ordered(fl, m * fl(a), m * fl(b));
    var p, q := Times(fl, m, a), Times(fl, m, b);
    assert Ordered(fl, x - q, x - p) && Ordered(fl, x + p, x + q);
    ToU64Monotone(Plus(fl, x, -q), Plus(fl, x, -p));
    ToU64Monotone(Plus(fl, x, p), Plus(fl, x, q));
  }

  /** With the contract's start ≤ end no tag makes the subtraction underflow, and of two tags the one
      with the larger margin gives the enclosing range and the larger threshold, whatever the rounding. */
  lemma RangesNest(fl: Rounding, tag: string, position: string, tag': string, position': string,
                   start: u64, end: u64, maxRange: u64)
    requires Rounds(fl) && start <= end
    requires Margin(tag, position).Some? && Margin(tag', position').Some?
    requires Margin(tag, position).value <= Margin(tag', position').value
    ensures var narrow := AdjustRange(fl, tag, position, start, end, maxRange);
      var wide := AdjustRange(fl, tag', position', start, end, maxRange);
      var s, e := ThroughFloat(fl, start), ThroughFloat(fl, end);
      && narrow.Ok? && wide.Ok?
      && wide.value.start <= narrow.value.start <= s <= e <= narrow.value.end <= wide.value.end
      && Threshold(narrow.value) == narrow.value.end - narrow.value.start
      && e - s <= Threshold(narrow.value) <= Threshold(wide.value)
  {
    AdjustedByMargin(fl, tag, position, start, end, maxRange);
    AdjustedByMargin(fl, tag', position', start, end, maxRange);
    var a, b, m := Margin(tag, position).value, Margin(tag', position').value, fl(maxRange as real);
    assert Ordered(fl, 0.0, maxRange as real);
    forall n: u64
      ensures Below(fl, fl(n as real), m, b) <= Below(fl, fl(n as real), m, a) <= ThroughFloat(fl, n)
      ensures ThroughFloat(fl, n) <= Above(fl, fl(n as real), m, a) <= Above(fl, fl(n as real), m, b)
    {
      Untouched(fl, n, m, 0.0);
      WiderIsWider(fl, fl(n as real), m, 0.0, a);
      WiderIsWider(fl, fl(n as real), m, a, b);
    }
    ThroughFloatMonotone(fl, start, end);
  }

  ghost predicate Within(inner: Range, outer: Range) {
    outer.start <= inner.start <= inner.end <= outer.end
  }

  /** By name, for start ≤ end and any rounding: default inside "suspicion", which is
      "malicious"/"after", inside "malicious"/"before". */
  lemma TagsNest(fl: Rounding, tag: string, position: string, start: u64, end: u64, maxRange: u64)
    requires Rounds(fl) && start <= end && tag != "suspicion" && tag != "malicious"
    ensures var default := AdjustRange(fl, tag, position, start, end, maxRange);
      var suspicion := AdjustRange(fl, "suspicion", position, start, end, maxRange);
      var after := AdjustRange(fl, "malicious", "after", start, end, maxRange);
      var before := AdjustRange(fl, "malicious", "before", start, end, maxRange);
      && default.Ok? && suspicion.Ok? && after == suspicion && before.Ok?
      && Within(default.value, suspicion.value) && Within(suspicion.value, before.value)
      && Threshold(default.value) <= Threshold(suspicion.value) <= Threshold(before.value)
  {
    RangesNest(fl, tag, position, "suspicion", position, start, end, maxRange);
    RangesNest(fl, "suspicion", position, "malicious", "before", start, end, maxRange);
  }

  /** The threshold is the length of the range in u64 arithmetic. */
  lemma ThresholdIsLength(r: Range)
    ensures r.start + Threshold(r) == if r.start <= r.end then r.end else r.end + 0x1_0000_0000_0000_0000
  {}

  /** For the default tag the subtraction is exact if and only if the rounded ends are in order, and the
      range is the contract's own if and only if both ends come through a float unchanged. */
  lemma DefaultUnderflow(fl: Rounding, tag: string, position: string, start: u64, end: u64, maxRange: u64)
    requires Rounds(fl) && Margin(tag, position) == Some(0.0)
    ensures var s, e := ThroughFloat(fl, start), ThroughFloat(fl, end);
      var r := AdjustRange(fl, tag, position, start, end, maxRange);
      && r.Ok?
      && (Threshold(r.value) == e - s <==> s <= e) && (start <= end ==> s <= e)
      && (r == Ok(Range(start, end)) <==> Unchanged(fl, start) && Unchanged(fl, end))
  {
    ExactThroughFloat(fl, start);
    ExactThroughFloat(fl, end);
    if start <= end {
      ThroughFloatMonotone(fl, start, end);
    }
  }

  /** An operator selected under a narrower tag stays selected under a wider one. */
  lemma WiderTagKeepsSelection(fl: Rounding, tag: string, position: string, tag': string, position': string,
                               start: u64, end: u64, maxRange: u64, output: seq<byte>, precision: nat)
    requires Rounds(fl) && start <= end && |output| == OUTPUT_LENGTH
    requires Margin(tag, position).Some? && Margin(tag', position').Some?
    requires Margin(tag, position).value <= Margin(tag', position').value
    ensures var narrow := AdjustRange(fl, tag, position, start, end, maxRange);
      var wide := AdjustRange(fl, tag', position', start, end, maxRange);
      && narrow.Ok? && wide.Ok?
      && (Selected(output, precision, Threshold(narrow.value)) == Some(true)
          ==> Selected(output, precision, Threshold(wide.value)) == Some(true))
  {
    RangesNest(fl, tag, position, tag', position', start, end, maxRange);
    var narrow := AdjustRange(fl, tag, position, start, end, maxRange).value;
    var wide := AdjustRange(fl, tag', position', start, end, maxRange).value;
    SelectionIsMonotone(output, precision, Threshold(narrow), Threshold(wide));
  }

  /** Exact arithmetic is one of the roundings. */
  lemma ExactRounds()
    ensures Rounds(x => x)
  {
    var fl: Rounding := x => x;
    forall x, y ensures Ordered(fl, x, y) {}
  }
}
