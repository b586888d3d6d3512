/** Base-10 rendering of integers as Go's `strconv.Itoa` and
    `strconv.FormatInt(x, 10)` produce it, with the parser that undoes it. */
module Decimal {

  predicate IsDigit(c: char)
  {
    '0' <= c <= '9'
  }

  function DigitChar(d: nat): (c: char)
    requires d < 10
    ensures IsDigit(c) && c as int == '0' as int + d
  {
    "0123456789"[d]
  }

  function DigitValue(c: char): (d: nat)
    requires IsDigit(c)
    ensures d < 10
  {
    c as int - '0' as int
  }

  /** The digits of `n` without leading zeros ("0" for zero). */
  function FormatNat(n: nat): (s: string)
    ensures |s| >= 1
    ensures forall i :: 0 <= i < |s| ==> IsDigit(s[i])
    ensures n > 0 ==> s[0] != '0'
    ensures |s| == 1 || s[0] != '0'
  {
    if n < 10 then [DigitChar(n)] else FormatNat(n / 10) + [DigitChar(n % 10)]
  }

  /** `strconv.FormatInt(n, 10)`: a minus sign before the digits of a negative
      value. `strconv.Itoa` is the same rendering. */
  function FormatInt(n: int): (s: string)
    ensures |s| >= 1
    ensures n >= 0 ==> s == FormatNat(n)
    ensures n < 0 ==> s == "-" + FormatNat(-n)
  {
    if n < 0 then "-" + FormatNat(-n) else FormatNat(n)
  }

  /** Reads a run of digits, most significant first. */
  function ParseDigits(s: string): nat
  {
    if |s| == 0 then 0
    else 10 * ParseDigits(s[..|s| - 1]) + (if IsDigit(s[|s| - 1]) then DigitValue(s[|s| - 1]) else 0)
  }

  /** Reads an optionally signed decimal numeral. */
  function ParseInt(s: string): int
  {
    if |s| > 0 && s[0] == '-' then -(ParseDigits(s[1..]) as int) else ParseDigits(s)
  }

  lemma DigitRoundTrip(d: nat)
    requires d < 10
    ensures DigitValue(DigitChar(d)) == d
  {
  }

  lemma {:induction false} ParseFormatNat(n: nat)
    ensures ParseDigits(FormatNat(n)) == n
  {
    DigitRoundTrip(n % 10);
    if n >= 10 {
      var s := FormatNat(n);
      assert s[..|s| - 1] == FormatNat(n / 10);
      ParseFormatNat(n / 10);
    }
  }

  /** Reading back what FormatInt wrote gives the original value. */
  lemma ParseFormatInt(n: int)
    ensures ParseInt(FormatInt(n)) == n
  {
    var s := FormatInt(n);
    if n < 0 {
      var digits := FormatNat(-n);
      assert s[1..] == digits;
      ParseFormatNat(-n);
    } else {
      var digits := FormatNat(n);
      assert IsDigit(digits[0]);
      ParseFormatNat(n);
    }
  }

  /** The rendering is canonical: a sign exactly for negative values, then
      digits with no leading zero ("0" alone for zero, never "-0"). */
  lemma FormatIntCanonical(n: int)
    ensures var s := FormatInt(n);
      && (s[0] == '-' <==> n < 0)
      && (n < 0 ==> |s| >= 2 && s[1] != '0' && forall i :: 1 <= i < |s| ==> IsDigit(s[i]))
      && (n >= 0 ==> (|s| == 1 || s[0] != '0') && forall i :: 0 <= i < |s| ==> IsDigit(s[i]))
  {
    if n < 0 {
      var s, digits := FormatInt(n), FormatNat(-n);
      assert forall i :: 1 <= i < |s| ==> s[i] == digits[i - 1];
    }
  }

  /** Distinct integers render as distinct strings. */
  lemma FormatIntInjective(a: int, b: int)
    requires FormatInt(a) == FormatInt(b)
    ensures a == b
  {
    ParseFormatInt(a);
    ParseFormatInt(b);
  }
}
