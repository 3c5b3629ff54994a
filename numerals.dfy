/** Decimal rendering of integers (Python's `str` on an `int`, as used inside f-strings) and
    the reading of it back. */
module Numerals {
  import opened Text

  function DigitChar(d: nat): (c: char)
    requires d < 10
    ensures IsDigit(c)
  {
    ('0' as int + d) as char
  }

  function DigitValue(c: char): (d: nat)
    requires IsDigit(c)
    ensures d < 10
  {
    c as int - '0' as int
  }

  /** `str(n)` for `n >= 0`: a non-empty string of decimal digits in canonical form, which
      opens with `0` only when it is the single digit of zero. */
  function NatToString(n: nat): (s: string)
    ensures |s| > 0 && AllDigits(s)
    ensures s[0] == '0' <==> n == 0
    ensures |s| == 1 || s[0] != '0'
    decreases n
  {
    if n < 10 then [DigitChar(n)] else NatToString(n / 10) + [DigitChar(n % 10)]
  }

  /** The value of a string of decimal digits (the empty string reads as 0). */
  function ParseNat(s: string): nat
    requires AllDigits(s)
  {
    if |s| == 0 then 0 else ParseNat(s[..|s| - 1]) * 10 + DigitValue(s[|s| - 1])
  }

  /** Reading a rendered number gives the number back. */
  lemma {:induction false} ParseNatToString(n: nat)
    ensures ParseNat(NatToString(n)) == n
    decreases n
  {
    var s := NatToString(n);
    if n >= 10 {
      ParseNatToString(n / 10);
      assert s[..|s| - 1] == NatToString(n / 10);
    }
  }

  /** Digits that open with a non-zero digit have a positive value. */
  lemma {:induction false} ParseNatPositive(s: string)
    requires |s| > 0 && AllDigits(s) && s[0] != '0'
    ensures ParseNat(s) > 0
    decreases |s|
  {
    if |s| > 1 {
      ParseNatPositive(s[..|s| - 1]);
    }
  }

  /** Canonical decimal text is the rendering of its own value, so `NatToString` is the only
      text without a leading zero that reads back as `n`. */
  lemma {:induction false} NatToStringCanonical(s: string)
    requires |s| > 0 && AllDigits(s) && (|s| == 1 || s[0] != '0')
    ensures NatToString(ParseNat(s)) == s
    decreases |s|
  {
    if |s| > 1 {
      var t := s[..|s| - 1];
      ParseNatPositive(t);
      NatToStringCanonical(t);
      assert s == t + [s[|s| - 1]];
    }
  }

  /** `str(i)` for any integer: a minus sign before the digits of a negative value. */
  function IntToString(i: int): string
  {
    if i < 0 then "-" + NatToString(-i) else NatToString(i)
  }

  /** Text of the shape `str` gives an integer: digits, optionally after one minus sign. */
  predicate IsIntText(s: string)
  {
    || (|s| > 0 && AllDigits(s))
    || (|s| > 1 && s[0] == '-' && AllDigits(s[1..]))
  }

  function ParseInt(s: string): int
    requires IsIntText(s)
  {
    if s[0] == '-' then -(ParseNat(s[1..]) as int) else ParseNat(s)
  }

  /** Every rendered integer is integer text, and reading it gives the integer back. */
  lemma IntToStringRoundTrip(i: int)
    ensures IsIntText(IntToString(i))
    ensures ParseInt(IntToString(i)) == i
  {
    if i < 0 {
      ParseNatToString(-i);
      assert IntToString(i)[1..] == NatToString(-i);
    } else {
      ParseNatToString(i);
    }
  }

  /** Length of the run of digits that starts `s`. */
  function LeadingDigits(s: string): (n: nat)
    ensures n <= |s|
  {
    if |s| > 0 && IsDigit(s[0]) then 1 + LeadingDigits(s[1..]) else 0
  }

  /** The characters counted by `LeadingDigits` are digits. */
  lemma {:induction false} LeadingDigitsDigits(s: string)
    ensures AllDigits(s[..LeadingDigits(s)])
  {
    if |s| > 0 && IsDigit(s[0]) {
      LeadingDigitsDigits(s[1..]);
      assert s[..LeadingDigits(s)] == [s[0]] + s[1..][..LeadingDigits(s[1..])];
    }
  }

  /** The digit run that opens `s` is its first `n` characters when the next one is not a digit. */
  lemma {:induction false} LeadingDigitsAt(s: string, n: nat)
    requires n <= |s| && AllDigits(s[..n]) && (n < |s| ==> !IsDigit(s[n]))
    ensures LeadingDigits(s) == n
  {
    if n > 0 {
      assert s[1..][..n - 1] == s[..n][1..];
      LeadingDigitsAt(s[1..], n - 1);
    }
  }

}
