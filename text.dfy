/** The string operations of Python that the program relies on, for ASCII text. */
module Text {

  /** `str.isdigit` on an ASCII character. */
  predicate IsDigit(c: char) { '0' <= c <= '9' }

  predicate AllDigits(s: string) { forall i :: 0 <= i < |s| ==> IsDigit(s[i]) }

  /** `''.join(filter(str.isdigit, s))`: the digits of `s`, in order. What is kept is made of
      digits only and is never longer than the input. */
  function DigitsOnly(s: string): (r: string)
    ensures AllDigits(r) && |r| <= |s|
  {
    if |s| == 0 then ""
    else (if IsDigit(s[0]) then [s[0]] else "") + DigitsOnly(s[1..])
  }

  /** Filtering distributes over concatenation: the digits of `a + b` are those of `a`, then those of `b`. */
  lemma {:induction false} DigitsOnlyConcat(a: string, b: string)
    ensures DigitsOnly(a + b) == DigitsOnly(a) + DigitsOnly(b)
  {
    if |a| > 0 {
      assert (a + b)[1..] == a[1..] + b;
      DigitsOnlyConcat(a[1..], b);
    } else {
      assert a + b == b;
    }
  }

  /** A string made of digits is left as it is. */
  lemma {:induction false} DigitsOnlyOfDigits(s: string)
    requires AllDigits(s)
    ensures DigitsOnly(s) == s
  {
    if |s| > 0 {
      DigitsOnlyOfDigits(s[1..]);
      assert [s[0]] + s[1..] == s;
    }
  }

  /** Filtering twice is filtering once. */
  lemma DigitsOnlyIdempotent(s: string)
    ensures DigitsOnly(DigitsOnly(s)) == DigitsOnly(s)
  {
    DigitsOnlyOfDigits(DigitsOnly(s));
  }

  /** The pieces of the worked example below. */
  lemma DigitsOfPrefix() ensures DigitsOnly("+1 (") == "1" {}
  lemma DigitsOfArea() ensures DigitsOnly("555) ") == "555" {}
  lemma DigitsOfExchange() ensures DigitsOnly("123-") == "123" {}
  lemma DigitsOfLine() ensures DigitsOnly("4567") == "4567" {}

  /** Filtering four consecutive pieces is filtering each of them. */
  lemma DigitsOnlyOfParts(a: string, b: string, c: string, d: string)
    ensures DigitsOnly(a + b + c + d) == DigitsOnly(a) + DigitsOnly(b) + DigitsOnly(c) + DigitsOnly(d)
  {
    DigitsOnlyConcat(a + b + c, d);
    DigitsOnlyConcat(a + b, c);
    DigitsOnlyConcat(a, b);
  }

  lemma DigitsOnlyExampleByParts()
    ensures DigitsOnly("+1 (" + "555) " + "123-" + "4567") == "15551234567"
  {
    DigitsOfPrefix();
    DigitsOfArea();
    DigitsOfExchange();
    DigitsOfLine();
    DigitsOnlyOfParts("+1 (", "555) ", "123-", "4567");
  }

  /** The worked example of the phone normalisation: "+1 (555) 123-4567" becomes "15551234567". */
  lemma DigitsOnlyExample(s: string)
    requires s == "+1 (555) 123-4567"
    ensures DigitsOnly(s) == "15551234567"
  {
    DigitsOnlyExampleByParts();
    assert s == "+1 (" + "555) " + "123-" + "4567";
  }

  /** `str.isspace` on the whitespace characters Python recognises. */
  const SpaceCodes: set<int> := {0x09, 0x0a, 0x0b, 0x0c, 0x0d, 0x1c, 0x1d, 0x1e, 0x1f, 0x20, 0x85, 0xa0, 0x1680,
    0x2000, 0x2001, 0x2002, 0x2003, 0x2004, 0x2005, 0x2006, 0x2007, 0x2008, 0x2009, 0x200a,
    0x2028, 0x2029, 0x202f, 0x205f, 0x3000}
  predicate IsSpace(c: char)
  {
    c as int in SpaceCodes
  }

  predicate AllSpace(s: string) { forall i :: 0 <= i < |s| ==> IsSpace(s[i]) }

  /** `str.strip()` without arguments: whitespace is removed from both ends, one character at a time. */
  function Strip(s: string): (r: string)
    ensures |r| <= |s|
    ensures r == "" || (!IsSpace(r[0]) && !IsSpace(r[|r| - 1]))
    decreases |s|
  {
    if |s| > 0 && IsSpace(s[0]) then Strip(s[1..])
    else if |s| > 0 && IsSpace(s[|s| - 1]) then Strip(s[..|s| - 1])
    else s
  }

  /** Two runs of whitespace make one. */
  lemma AllSpaceConcat(a: string, b: string)
    requires AllSpace(a) && AllSpace(b)
    ensures AllSpace(a + b)
  {
    forall k | 0 <= k < |a + b| ensures IsSpace((a + b)[k]) {
      if k < |a| {
        assert (a + b)[k] == a[k];
      } else {
        assert (a + b)[k] == b[k - |a|];
      }
    }
  }

  /** Stripping keeps the contiguous middle part `s[i..j]`, removes only whitespace around it,
      and leaves no whitespace at either end. */
  lemma {:induction false} StripSpec(s: string) returns (i: nat, j: nat)
    ensures i <= j <= |s| && Strip(s) == s[i..j]
    ensures AllSpace(s[..i]) && AllSpace(s[j..])
    ensures i < j ==> !IsSpace(s[i]) && !IsSpace(s[j - 1])
    decreases |s|, 1
  {
    if |s| > 0 && IsSpace(s[0]) {
      i, j := StripSpecFirst(s);
    } else if |s| > 0 && IsSpace(s[|s| - 1]) {
      i, j := StripSpecLast(s);
    } else {
      i, j := 0, |s|;
    }
  }

  /** `StripSpec` when `s` starts with whitespace. */
  lemma {:induction false} StripSpecFirst(s: string) returns (i: nat, j: nat)
    requires |s| > 0 && IsSpace(s[0])
    ensures i <= j <= |s| && Strip(s) == s[i..j]
    ensures AllSpace(s[..i]) && AllSpace(s[j..])
    ensures i < j ==> !IsSpace(s[i]) && !IsSpace(s[j - 1])
    decreases |s|, 0
  {
    var tail := s[1..];
    var i', j' := StripSpec(tail);
    i, j := i' + 1, j' + 1;
    assert tail[i'..j'] == s[i..j];
    assert s[..i] == [s[0]] + tail[..i'];
    AllSpaceConcat([s[0]], tail[..i']);
    assert s[j..] == tail[j'..];
  }

  /** `StripSpec` when `s` ends with whitespace and does not start with it. */
  lemma {:induction false} StripSpecLast(s: string) returns (i: nat, j: nat)
    requires |s| > 0 && !IsSpace(s[0]) && IsSpace(s[|s| - 1])
    ensures i <= j <= |s| && Strip(s) == s[i..j]
    ensures AllSpace(s[..i]) && AllSpace(s[j..])
    ensures i < j ==> !IsSpace(s[i]) && !IsSpace(s[j - 1])
    decreases |s|, 0
  {
    var init := s[..|s| - 1];
    i, j := StripSpec(init);
    assert init[i..j] == s[i..j];
    assert s[..i] == init[..i];
    assert s[j..] == init[j..] + [s[|s| - 1]];
    AllSpaceConcat(init[j..], [s[|s| - 1]]);
  }

  /** No whitespace character is a digit. */
  lemma SpaceIsNotDigit(c: char)
    requires IsSpace(c)
    ensures !IsDigit(c)
  {
  }

  /** Dropping a final character that is not a digit keeps the same digits. */
  lemma DigitsOnlyDropLast(s: string)
    requires |s| > 0 && !IsDigit(s[|s| - 1])
    ensures DigitsOnly(s) == DigitsOnly(s[..|s| - 1])
  {
    var init, last := s[..|s| - 1], s[|s| - 1];
    DigitsOnlyConcat(init, [last]);
    assert init + [last] == s;
    assert [last][1..] == [];
  }

  /** The laws above determine the filter: any function on strings that distributes over
      concatenation, keeps a single digit and drops a single non-digit is `DigitsOnly`. */
  lemma {:induction false} DigitsOnlyDetermined(f: string -> string, s: string)
    requires forall a: string, b: string {:trigger f(a + b)} :: f(a + b) == f(a) + f(b)
    requires forall c: char {:trigger f([c])} :: IsDigit(c) ==> f([c]) == [c]
    requires forall c: char {:trigger f([c])} :: !IsDigit(c) ==> f([c]) == ""
    ensures f(s) == DigitsOnly(s)
    decreases |s|
  {
    if |s| == 0 {
      assert s + s == s;
      assert |f(s)| == |f(s)| + |f(s)|;
    } else {
      assert s == [s[0]] + s[1..];
      assert f(s) == f([s[0]]) + f(s[1..]);
      DigitsOnlyDetermined(f, s[1..]);
    }
  }

  /** Stripping never changes which digits a cell holds. */
  lemma {:induction false} DigitsOnlyStrip(s: string)
    ensures DigitsOnly(Strip(s)) == DigitsOnly(s)
    decreases |s|
  {
    if |s| > 0 && IsSpace(s[0]) {
      DigitsOnlyStrip(s[1..]);
      SpaceIsNotDigit(s[0]);
    } else if |s| > 0 && IsSpace(s[|s| - 1]) {
      DigitsOnlyStrip(s[..|s| - 1]);
      SpaceIsNotDigit(s[|s| - 1]);
      DigitsOnlyDropLast(s);
    }
  }

  /** `str.lower()` on one ASCII character. */
  function LowerChar(c: char): char
  {
    if 'A' <= c <= 'Z' then (c as int + 32) as char else c
  }

  /** `str.lower()` on ASCII text. */
  function Lower(s: string): string
  {
    seq(|s|, i requires 0 <= i < |s| => LowerChar(s[i]))
  }

  /** `k` occurs in `s` starting at position `i`. */
  predicate OccursAt(s: string, k: string, i: nat)
  {
    i + |k| <= |s| && s[i..i + |k|] == k
  }

  /** Python's `k in s` on strings: `k` is a substring of `s`. */
  predicate Contains(s: string, k: string)
  {
    exists i: nat | i <= |s| :: OccursAt(s, k, i)
  }

  /** Python's slice `s[:n]`: the first `n` characters, or all of `s` when it is shorter. */
  function Take(s: string, n: nat): (r: string)
    ensures |r| == if |s| <= n then |s| else n
    ensures r <= s
    ensures |s| <= n ==> r == s
  {
    if |s| <= n then s else s[..n]
  }
}
