/** Decimal strings: `u64::to_string` and `str::parse::<u32>`. */
module Decimal {
  import opened MachineInts
  import opened Wrappers

  function Digit(d: nat): char
    requires d < 10
  {
    '0' + d as char
  }

  function ToString(n: nat): (s: string)
    ensures |s| > 0 && forall i :: 0 <= i < |s| ==> '0' <= s[i] <= '9'
  {
    if n < 10 then [Digit(n)] else ToString(n / 10) + [Digit(n % 10)]
  }

  predicate AllDigits(s: string) {
    forall i :: 0 <= i < |s| ==> '0' <= s[i] <= '9'
  }

  function ValueOf(s: string): nat
    requires AllDigits(s)
  {
    if s == "" then 0
    else 10 * ValueOf(s[..|s| - 1]) + (s[|s| - 1] as int - '0' as int)
  }

  /** A leading plus sign is accepted; an empty digit string or a value beyond u32 is not. */
  function ParseU32(s: string): Option<nat> {
    var digits := if s != "" && s[0] == '+' then s[1..] else s;
    if digits != "" && AllDigits(digits) && ValueOf(digits) < U32_RANGE
    then Some(ValueOf(digits))
    else None
  }

  lemma {:induction false} ValueOfToString(n: nat)
    ensures ValueOf(ToString(n)) == n
  {
    if n >= 10 {
      ValueOfToString(n / 10);
      assert ToString(n)[..|ToString(n)| - 1] == ToString(n / 10);
    } else {
      assert ToString(n)[..0] == "";
    }
  }

  /** Small numbers are single digits, and a further digit goes to the right. */
  lemma DigitByDigit(n: nat, d: nat)
    requires d < 10
    ensures ToString(d) == ["0123456789"[d]]
    ensures n > 0 ==> ToString(10 * n + d) == ToString(n) + ["0123456789"[d]]
  {
    assert "0123456789"[d] == '0' + d as char;
  }

  lemma ToStringInjective(m: nat, n: nat)
    ensures ToString(m) == ToString(n) <==> m == n
  {
    ValueOfToString(m);
    ValueOfToString(n);
  }

  /** A printed number behind some zeros. */
  function Padded(zeros: nat, n: nat): string {
    if zeros == 0 then ToString(n) else "0" + Padded(zeros - 1, n)
  }

  ghost predicate IsNumeral(s: string, n: nat) {
    exists zeros: nat :: s == Padded(zeros, n)
  }

  lemma {:induction false} PaddedDigit(zeros: nat, n: nat, d: nat)
    requires d < 10
    ensures n > 0 ==> Padded(zeros, n) + ["0123456789"[d]] == Padded(zeros, 10 * n + d)
    ensures n == 0 ==> Padded(zeros, n) + ["0123456789"[d]] == Padded(zeros + 1, d)
  {
    DigitByDigit(n, d);
    if zeros == 0 {
      DigitByDigit(0, 0);
      assert Padded(1, d) == "0" + Padded(0, d);
    } else {
      PaddedDigit(zeros - 1, n, d);
      assert Padded(zeros, n) + ["0123456789"[d]] == "0" + (Padded(zeros - 1, n) + ["0123456789"[d]]);
    }
  }

  lemma LastDigit(s: string, d: nat)
    requires s != "" && AllDigits(s) && d == s[|s| - 1] as nat - '0' as nat
    ensures d < 10 && s == s[..|s| - 1] + ["0123456789"[d]]
    ensures ValueOf(s) == 10 * ValueOf(s[..|s| - 1]) + d
    ensures |s| == 1 ==> s == Padded(0, d) && ValueOf(s) == d
  {
    DigitByDigit(0, d);
    assert Digit(d) == s[|s| - 1];
  }

  lemma {:induction false} DigitsAreNumeral(s: string) returns (zeros: nat)
    requires s != "" && AllDigits(s)
    ensures s == Padded(zeros, ValueOf(s))
  {
    var init, d := s[..|s| - 1], s[|s| - 1] as nat - '0' as nat;
    LastDigit(s, d);
    if init == "" {
      zeros := 0;
    } else {
      zeros := DigitsAreNumeral(init);
      PaddedDigit(zeros, ValueOf(init), d);
      zeros := if ValueOf(init) == 0 then zeros + 1 else zeros;
    }
  }

  lemma ValueOfAppend(s: string, d: nat)
    requires AllDigits(s) && d < 10
    ensures AllDigits(s + [Digit(d)]) && ValueOf(s + [Digit(d)]) == 10 * ValueOf(s) + d
  {
    assert (s + [Digit(d)])[..|s|] == s;
  }

  lemma {:induction false} ZeroInFront(s: string)
    requires AllDigits(s)
    ensures AllDigits("0" + s) && ValueOf("0" + s) == ValueOf(s)
    decreases |s|
  {
    if s == "" {
      assert "0" + s == "" + [Digit(0)];
      ValueOfAppend("", 0);
    } else {
      var init, d := s[..|s| - 1], s[|s| - 1] as nat - '0' as nat;
      ZeroInFront(init);
      assert s == init + [Digit(d)] && "0" + s == ("0" + init) + [Digit(d)];
      ValueOfAppend("0" + init, d);
    }
  }

  lemma {:induction false} NumeralIsDigits(zeros: nat, n: nat)
    ensures var s := Padded(zeros, n); s != "" && AllDigits(s) && ValueOf(s) == n
  {
    if zeros == 0 {
      ValueOfToString(n);
    } else {
      NumeralIsDigits(zeros - 1, n);
      ZeroInFront(Padded(zeros - 1, n));
    }
  }

  /** What parses as a u32: a decimal numeral below 2^32, with or without leading zeros and one plus
      sign, and nothing else. */
  lemma ParsesNumerals(s: string, n: nat)
    ensures ParseU32(s) == Some(n) <==>
              n < U32_RANGE && (IsNumeral(s, n) || (s != "" && s[0] == '+' && IsNumeral(s[1..], n)))
  {
    var digits := if s != "" && s[0] == '+' then s[1..] else s;
    if digits != "" && AllDigits(digits) {
      var zeros := DigitsAreNumeral(digits);
    }
    forall t: string | IsNumeral(t, n) ensures t != "" && AllDigits(t) && ValueOf(t) == n {
      var zeros: nat :| t == Padded(zeros, n);
      NumeralIsDigits(zeros, n);
    }
  }

  lemma ParsePrinted(n: nat)
    ensures ParseU32(ToString(n)) == if n < U32_RANGE then Some(n) else None
  {
    ValueOfToString(n);
  }
}
