/** Decimal renderings of integers: Python's `str(n)` and JavaScript's
    `"" + n` agree on integers, and `mqmMaybeParseInt` accepts exactly the
    strings that are such a rendering. */
module Decimal {

  predicate IsDigit(c: char)
  {
    '0' <= c <= '9'
  }

  function DigitChar(d: int): (c: char)
    requires 0 <= d < 10
    ensures IsDigit(c)
  {
    ('0' as int + d) as char
  }

  function DigitValue(c: char): (d: int)
    requires IsDigit(c)
    ensures 0 <= d < 10 && DigitChar(d) == c
  {
    c as int - '0' as int
  }

  predicate AllDigits(s: string)
  {
    forall i :: 0 <= i < |s| ==> IsDigit(s[i])
  }

  /** The value of a string of digits. */
  function DigitsValue(s: string): nat
    requires AllDigits(s)
  {
    if |s| == 0 then 0 else DigitsValue(s[..|s| - 1]) * 10 + DigitValue(s[|s| - 1])
  }

  /** `str(n)` for a non-negative integer. */
  function NatToString(n: nat): (r: string)
    ensures |r| >= 1 && AllDigits(r)
    ensures r[0] == '0' ==> n == 0 && r == "0"
  {
    if n < 10 then [DigitChar(n)] else NatToString(n / 10) + [DigitChar(n % 10)]
  }

  /** `str(i)` / `"" + i`: a minus sign for negative values. */
  function IntToString(i: int): string
  {
    if i < 0 then "-" + NatToString(-i) else NatToString(i)
  }

  /** The digits read back give the number. */
  lemma {:induction false} NatToStringValue(n: nat)
    ensures DigitsValue(NatToString(n)) == n
  {
    if n >= 10 {
      NatToStringValue(n / 10);
      var r := NatToString(n);
      assert r[..|r| - 1] == NatToString(n / 10);
    }
  }

  /** A canonical decimal: "0", or digits without a leading zero, possibly
      after one minus sign ("-0" is not canonical). */
  predicate IsCanonical(s: string)
  {
    (|s| >= 1 && AllDigits(s) && (s[0] == '0' ==> s == "0"))
    || (|s| >= 2 && s[0] == '-' && AllDigits(s[1..]) && s[1] != '0')
  }

  /** The value of a canonical decimal. */
  function CanonicalValue(s: string): int
    requires IsCanonical(s)
  {
    if s[0] == '-' then -(DigitsValue(s[1..]) as int) else DigitsValue(s)
  }

  lemma IntToStringCanonical(i: int)
    ensures IsCanonical(IntToString(i))
    ensures CanonicalValue(IntToString(i)) == i
  {
    if i < 0 {
      var r := NatToString(-i);
      assert ("-" + r)[1..] == r;
      NatToStringValue(-i);
    } else {
      NatToStringValue(i);
    }
  }

  /** Digits without a leading zero are the rendering of their value. */
  lemma {:induction false} DigitsRoundTrip(s: string)
    requires |s| >= 1 && AllDigits(s) && (s[0] == '0' ==> s == "0")
    ensures NatToString(DigitsValue(s)) == s
  {
    if |s| > 1 {
      var p := s[..|s| - 1];
      DigitsRoundTrip(p);
      DigitsValueBound(p);
      var n := DigitsValue(s);
      assert n / 10 == DigitsValue(p) && n % 10 == DigitValue(s[|s| - 1]);
      assert s == p + [s[|s| - 1]];
    }
  }

  /** A digit string of length at least two that starts with a non-zero
      digit is worth at least 10. */
  lemma {:induction false} DigitsValueBound(s: string)
    requires |s| >= 1 && AllDigits(s) && s[0] != '0'
    ensures DigitsValue(s) >= 1
    ensures |s| >= 2 ==> DigitsValue(s) >= 10
  {
    if |s| > 1 {
      DigitsValueBound(s[..|s| - 1]);
    }
  }

  /** Rendering the value of a canonical decimal gives the string back, so
      canonical decimals and integers are in one-to-one correspondence. */
  lemma CanonicalRoundTrip(s: string)
    requires IsCanonical(s)
    ensures IntToString(CanonicalValue(s)) == s
  {
    if s[0] == '-' {
      DigitsRoundTrip(s[1..]);
      DigitsValueBound(s[1..]);
      assert s == "-" + s[1..];
    } else {
      DigitsRoundTrip(s);
    }
  }
}
