/**
 * Decimal rendering of integers, as `String.format("%d", n)` produces it for a Java `int`
 * (ASCII digits, a leading '-' for negative values, no grouping, no leading zeros),
 * together with the parser that undoes it.
 */
module Decimal {
  import opened Wrappers

  predicate IsDigit(ch: char) {
    '0' <= ch <= '9'
  }

  predicate AllDigits(s: string) {
    forall i :: 0 <= i < |s| ==> IsDigit(s[i])
  }

  function DigitValue(ch: char): (d: nat)
    requires IsDigit(ch)
    ensures d < 10
  {
    ch as int - '0' as int
  }

  function DigitChar(d: nat): (ch: char)
    requires d < 10
    ensures IsDigit(ch) && DigitValue(ch) == d
  {
    ('0' as int + d) as char
  }

  /** The digits of `n`, most significant first; only zero itself starts with '0'. */
  function NatToDigits(n: nat): (s: string)
    ensures |s| > 0 && AllDigits(s)
    ensures s[0] == '0' <==> n == 0
    ensures n < 10 <==> |s| == 1
  {
    if n < 10 then [DigitChar(n)] else NatToDigits(n / 10) + [DigitChar(n % 10)]
  }

  /** The number a string of digits denotes, read most significant digit first. */
  function DigitsValue(s: string): nat
    requires AllDigits(s)
  {
    if |s| == 0 then 0 else DigitsValue(s[..|s| - 1]) * 10 + DigitValue(s[|s| - 1])
  }

  /** `String.format("%d", n)`. */
  function FormatDecimal(n: int): (s: string)
    ensures |s| > 0
    ensures s[0] == '-' <==> n < 0
  {
    if n < 0 then "-" + NatToDigits(-n) else NatToDigits(n)
  }

  /** An optional '-' followed by at least one digit; anything else is rejected. */
  function ParseDecimal(s: string): (r: Option<int>)
    ensures r.Some? <==> (if |s| > 0 && s[0] == '-' then |s| > 1 && AllDigits(s[1..]) else |s| > 0 && AllDigits(s))
  {
    if |s| > 0 && s[0] == '-' then
      if |s| > 1 && AllDigits(s[1..]) then Some(-(DigitsValue(s[1..]) as int)) else None
    else if |s| > 0 && AllDigits(s) then Some(DigitsValue(s))
    else None
  }

  /** The strings FormatDecimal produces: no leading zeros and no negative zero. */
  predicate IsCanonical(s: string) {
    if |s| > 0 && s[0] == '-' then
      |s| > 1 && AllDigits(s[1..]) && s[1] != '0'
    else
      |s| > 0 && AllDigits(s) && (s[0] == '0' ==> |s| == 1)
  }

  lemma {:induction false} DigitsValueOfNatToDigits(n: nat)
    ensures DigitsValue(NatToDigits(n)) == n
  {
    if n >= 10 {
      var s := NatToDigits(n);
      assert s[..|s| - 1] == NatToDigits(n / 10);
      DigitsValueOfNatToDigits(n / 10);
    }
  }

  lemma {:induction false} NatToDigitsOfDigitsValue(s: string)
    requires |s| > 0 && AllDigits(s) && (s[0] == '0' ==> |s| == 1)
    ensures NatToDigits(DigitsValue(s)) == s
  {
    if |s| > 1 {
      var p := s[..|s| - 1];
      assert p[0] == s[0];
      NatToDigitsOfDigitsValue(p);
      DigitsValuePositive(p);
      assert DigitsValue(s) / 10 == DigitsValue(p);
      assert DigitsValue(s) % 10 == DigitValue(s[|s| - 1]);
      assert s == p + [s[|s| - 1]];
    }
  }

  lemma {:induction false} DigitsValuePositive(s: string)
    requires |s| > 0 && AllDigits(s) && s[0] != '0'
    ensures DigitsValue(s) > 0
  {
    if |s| > 1 {
      var p := s[..|s| - 1];
      assert p[0] == s[0];
      DigitsValuePositive(p);
    }
  }

  /** Parsing recovers the number that was formatted. */
  lemma FormatThenParse(n: int)
    ensures ParseDecimal(FormatDecimal(n)) == Some(n)
  {
    var s := FormatDecimal(n);
    if n < 0 {
      var t := NatToDigits(-n);
      assert s[1..] == t;
      DigitsValueOfNatToDigits(-n);
      assert ParseDecimal(s) == Some(-(DigitsValue(t) as int));
    } else {
      DigitsValueOfNatToDigits(n);
      assert ParseDecimal(s) == Some(DigitsValue(s));
    }
  }

  /** Formatting a parsed canonical string gives the string back. */
  lemma ParseThenFormat(s: string)
    requires IsCanonical(s)
    ensures ParseDecimal(s).Some? && FormatDecimal(ParseDecimal(s).value) == s
  {
    if s[0] == '-' {
      var t := s[1..];
      assert t[0] == s[1];
      NatToDigitsOfDigitsValue(t);
      DigitsValuePositive(t);
      assert s == "-" + t;
    } else {
      NatToDigitsOfDigitsValue(s);
    }
  }

  lemma FormatInjective(a: int, b: int)
    requires FormatDecimal(a) == FormatDecimal(b)
    ensures a == b
  {
    FormatThenParse(a);
    FormatThenParse(b);
  }
}
