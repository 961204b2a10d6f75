/**
 Decimal text and the integers it denotes: the subset of Python's `str(int)`
 and `int(str)` that the idle monitor relies on when it stores its counter as
 text and when it reads a player count out of a console reply.
 Digits are the ASCII digits '0'..'9'.
 */
module Decimal {
  import opened Wrappers

  predicate IsDigit(c: char) {
    '0' <= c <= '9'
  }

  predicate AllDigits(s: string) {
    forall i :: 0 <= i < |s| ==> IsDigit(s[i])
  }

  /** Python's `str.isdigit` restricted to ASCII: non-empty and all digits. */
  predicate IsDigits(s: string) {
    |s| > 0 && AllDigits(s)
  }

  /** A digit string with no superfluous leading zero, the only form `str` produces. */
  predicate Canonical(s: string) {
    IsDigits(s) && (s[0] == '0' ==> |s| == 1)
  }

  function DigitValue(c: char): (d: nat)
    requires IsDigit(c)
    ensures d < 10
  {
    c as int - '0' as int
  }

  function DigitChar(d: nat): (c: char)
    requires d < 10
    ensures IsDigit(c) && DigitValue(c) == d
  {
    ('0' as int + d) as char
  }

  /** The value of a digit string read most significant digit first. */
  function DigitsValue(s: string): nat
    requires AllDigits(s)
  {
    if |s| == 0 then 0 else DigitsValue(s[..|s| - 1]) * 10 + DigitValue(s[|s| - 1])
  }

  /** `str(n)` for a natural number n. */
  function FormatNat(n: nat): (s: string)
    ensures Canonical(s)
    ensures DigitsValue(s) == n
    ensures |s| == 1 <==> n < 10
  {
    if n < 10 then [DigitChar(n)]
    else
      var s := FormatNat(n / 10) + [DigitChar(n % 10)];
      assert s[..|s| - 1] == FormatNat(n / 10);
      s
  }

  /** Every canonical digit string is what `str` prints for its value: FormatNat is onto the canonical strings. */
  lemma {:induction false} FormatDigitsValue(s: string)
    requires Canonical(s)
    ensures FormatNat(DigitsValue(s)) == s
    decreases |s|
  {
    if |s| == 1 {
      assert DigitsValue(s) == DigitValue(s[0]) by {
        assert s[..0] == "";
      }
    } else {
      var p := s[..|s| - 1];
      assert Canonical(p) by {
        assert p[0] == s[0];
        assert forall i :: 0 <= i < |p| ==> p[i] == s[i];
      }
      FormatDigitsValue(p);
      var v := DigitsValue(s);
      assert DigitsValue(p) >= 1 by {
        LeadingDigitPositive(p);
      }
      assert v / 10 == DigitsValue(p) && v % 10 == DigitValue(s[|s| - 1]);
      assert FormatNat(v) == FormatNat(v / 10) + [DigitChar(v % 10)];
      assert DigitChar(DigitValue(s[|s| - 1])) == s[|s| - 1];
      assert s == p + [s[|s| - 1]];
    }
  }

  /** A canonical string of two or more digits starts with a non-zero digit, so its value is positive. */
  lemma {:induction false} LeadingDigitPositive(s: string)
    requires IsDigits(s) && s[0] != '0'
    ensures DigitsValue(s) >= 1
    decreases |s|
  {
    if |s| > 1 {
      var p := s[..|s| - 1];
      assert p[0] == s[0];
      assert IsDigits(p) by {
        assert forall i :: 0 <= i < |p| ==> p[i] == s[i];
      }
      LeadingDigitPositive(p);
    } else {
      assert s[..0] == "";
    }
  }

  /** `str(n)` for any integer n. */
  function FormatInt(n: int): string {
    if n < 0 then "-" + FormatNat(-n) else FormatNat(n)
  }

  /**
   `int(s)` restricted to an optional '-' followed by ASCII digits; None is the
   ValueError Python raises for any other text.
   */
  function ParseInt(s: string): Option<int> {
    if IsDigits(s) then Some(DigitsValue(s))
    else if |s| > 1 && s[0] == '-' && IsDigits(s[1..]) then Some(-(DigitsValue(s[1..]) as int))
    else None
  }

  /** Reading back what was written: `int(str(n)) == n`. */
  lemma ParseFormatInt(n: int)
    ensures ParseInt(FormatInt(n)) == Some(n)
  {
    if n < 0 {
      var s := FormatInt(n);
      assert s[1..] == FormatNat(-n);
      assert !IsDigits(s) by {
        assert !IsDigit(s[0]);
      }
    }
  }

  /** The other direction: a canonical digit string parses, and `str` prints its value back unchanged. */
  lemma FormatParseInt(s: string)
    requires Canonical(s)
    ensures ParseInt(s).Some? && FormatInt(ParseInt(s).value) == s
  {
    FormatDigitsValue(s);
  }
}
