/**
 * Decimal text of integers, as Python's `str(int)` writes it: an optional
 * leading '-' followed by the digits, most significant first, without leading zeros.
 */
module Decimal {

  predicate IsDigit(c: char) { '0' <= c <= '9' }

  function DigitChar(d: nat): (c: char)
    requires d < 10
    ensures IsDigit(c) && (c as int) - ('0' as int) == d
  {
    (('0' as int) + d) as char
  }

  function DigitValue(c: char): nat
    requires IsDigit(c)
  {
    (c as int) - ('0' as int)
  }

  predicate AllDigits(s: string) { forall k :: 0 <= k < |s| ==> IsDigit(s[k]) }

  function NatToString(n: nat): (s: string)
    decreases n
  {
    if n < 10 then [DigitChar(n)] else NatToString(n / 10) + [DigitChar(n % 10)]
  }

  /** `str(i)` for a Python int. */
  function IntToString(i: int): (s: string)
    ensures s != [] && (s[0] == '-' <==> i < 0)
    ensures i < 0 ==> AllDigits(s[1..])
    ensures i >= 0 ==> AllDigits(s)
    ensures i >= 0 ==> (s[0] == '0' ==> s == "0")
    ensures i < 0 ==> |s| >= 2 && s[1] != '0'
  {
    if i < 0 then
      NatToStringDigits(-i);
      NoLeadingZero(-i);
      assert ("-" + NatToString(-i))[1..] == NatToString(-i);
      "-" + NatToString(-i)
    else
      NatToStringDigits(i);
      NoLeadingZero(i);
      assert IsDigit(NatToString(i)[0]);
      NatToString(i)
  }


  /** Reads a string of decimal digits back into the number it denotes. */
  function ParseNat(s: string): nat
    requires AllDigits(s)
  {
    if s == [] then 0 else 10 * ParseNat(s[..|s| - 1]) + DigitValue(s[|s| - 1])
  }

  /** Reads the text written by `IntToString`: a leading '-' negates. */
  function ParseInt(s: string): int
    requires s != [] && (if s[0] == '-' then AllDigits(s[1..]) else AllDigits(s))
  {
    if s[0] == '-' then -(ParseNat(s[1..]) as int) else ParseNat(s)
  }

  lemma {:induction false} NatToStringDigits(n: nat)
    ensures NatToString(n) != [] && AllDigits(NatToString(n))
    ensures ParseNat(NatToString(n)) == n
    decreases n
  {
    if n >= 10 {
      NatToStringDigits(n / 10);
      var s := NatToString(n);
      assert s[..|s| - 1] == NatToString(n / 10);
    }
  }

  /** The digits of a natural number start with '0' only when the number is 0, written "0". */
  lemma {:induction false} NoLeadingZero(n: nat)
    ensures NatToString(n) != []
    ensures NatToString(n)[0] == '0' <==> n == 0
    ensures n == 0 ==> NatToString(n) == "0"
    decreases n
  {
    if n >= 10 {
      NoLeadingZero(n / 10);
      assert NatToString(n)[0] == NatToString(n / 10)[0];
    }
  }

  /** The text of an integer reads back as that integer. */
  lemma IntToStringRoundTrip(i: int)
    ensures IntToString(i) != []
    ensures IntToString(i)[0] == '-' ==> AllDigits(IntToString(i)[1..])
    ensures IntToString(i)[0] != '-' ==> AllDigits(IntToString(i))
    ensures ParseInt(IntToString(i)) == i
  {
    if i < 0 {
      NatToStringDigits(-i);
      assert IntToString(i)[1..] == NatToString(-i);
    } else {
      NatToStringDigits(i);
    }
  }

  /**
   * The text of an integer is never one of the operator symbols "+", "-", "*"
   * or "/", and never contains a space.
   */
  lemma IntToStringIsNumeral(i: int)
    ensures IntToString(i) !in {"+", "-", "*", "/"}
    ensures ' ' !in IntToString(i)
  {
    if i < 0 {
      NatToStringDigits(-i);
      assert |IntToString(i)| >= 2;
      assert IntToString(i)[1..] == NatToString(-i);
    } else {
      NatToStringDigits(i);
      assert IsDigit(IntToString(i)[0]);
    }
  }
}
