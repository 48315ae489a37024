/**
  * Decimal text of integers, as Python's `f"{n}"` and JavaScript's `${n}` write
  * an integer, together with a parser that inverts it.
  */
module Decimal {
  import opened Wrappers

  predicate IsDigit(c: char) { '0' <= c <= '9' }

  predicate AllDigits(s: string) { forall k :: 0 <= k < |s| ==> IsDigit(s[k]) }

  function DigitChar(d: nat): (c: char)
    requires d < 10
    ensures IsDigit(c) && c as int - '0' as int == d
  {
    ('0' as int + d) as char
  }

  function DigitValue(c: char): nat
    requires IsDigit(c)
  {
    c as int - '0' as int
  }

  /** Shortest decimal text of `n`: digits only, no leading zero. */
  function NatToString(n: nat): (r: string)
    ensures |r| >= 1 && AllDigits(r)
    ensures |r| > 1 ==> r[0] != '0'
    ensures n < 10 <==> |r| == 1
  {
    if n < 10 then [DigitChar(n)] else NatToString(n / 10) + [DigitChar(n % 10)]
  }

  /** Value of a string of decimal digits, most significant first. */
  function DigitsValue(s: string): nat
    requires AllDigits(s)
  {
    if |s| == 0 then 0 else DigitsValue(s[..|s| - 1]) * 10 + DigitValue(s[|s| - 1])
  }

  /**
    * Decimal text of any integer: a minus sign exactly for a negative value,
    * then the shortest digit string of its magnitude.
    */
  function IntToString(i: int): (r: string)
    ensures r != [] && (r[0] == '-' <==> i < 0)
    ensures var digits := if i < 0 then r[1..] else r;
            digits != [] && AllDigits(digits) && (|digits| > 1 ==> digits[0] != '0')
  {
    if i < 0 then "-" + NatToString(-i) else NatToString(i)
  }

  /** Reads back what `IntToString` writes; rejects everything else. */
  function ParseInt(s: string): Option<int>
  {
    if |s| >= 2 && s[0] == '-' && AllDigits(s[1..]) && s[1] != '0' then Some(0 - DigitsValue(s[1..]) as int)
    else if |s| >= 1 && AllDigits(s) && (|s| == 1 || s[0] != '0') then Some(DigitsValue(s))
    else None
  }

  lemma {:induction false} DigitsOfNatToString(n: nat)
    ensures DigitsValue(NatToString(n)) == n
  {
    if n >= 10 {
      var prefix := NatToString(n / 10);
      var r := prefix + [DigitChar(n % 10)];
      assert r[..|r| - 1] == prefix;
      DigitsOfNatToString(n / 10);
    }
  }

  /** A positive natural's text does not start with '0'. */
  lemma NatToStringLeading(n: nat)
    requires n >= 1
    ensures NatToString(n)[0] != '0'
  {
    if n < 10 {
      assert NatToString(n) == [DigitChar(n)];
    }
  }

  lemma ParseNatText(n: nat)
    ensures ParseInt(NatToString(n)) == Some(n)
  {
    var d := NatToString(n);
    DigitsOfNatToString(n);
    assert !(|d| >= 2 && d[0] == '-') by { assert IsDigit(d[0]); }
  }

  lemma ParseNegativeText(n: nat)
    requires n >= 1
    ensures ParseInt("-" + NatToString(n)) == Some(0 - n)
  {
    var d := NatToString(n);
    var s := "-" + d;
    assert s[1..] == d;
    assert s[1] == d[0];
    NatToStringLeading(n);
    DigitsOfNatToString(n);
  }

  /** `ParseInt` inverts `IntToString`, so distinct integers have distinct texts. */
  lemma IntToStringRoundTrip(i: int)
    ensures ParseInt(IntToString(i)) == Some(i)
  {
    if i < 0 {
      ParseNegativeText(-i);
    } else {
      ParseNatText(i);
    }
  }

  lemma IntToStringInjective(i: int, j: int)
    requires IntToString(i) == IntToString(j)
    ensures i == j
  {
    IntToStringRoundTrip(i);
    IntToStringRoundTrip(j);
  }
}
