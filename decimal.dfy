/**
 * Decimal text of integers, as Python's `str` writes it and as `int` reads a
 * single character back. The multi-display code packs every frame cell with
 * `str(cell)` and the reference decoder reads each cell with `int(ch)`.
 */
module Decimal {

  /** The ASCII decimal digits '0'..'9'. */
  predicate IsDigit(c: char) {
    '0' <= c <= '9'
  }

  /** The character `str(d)` for a single digit d. */
  function DigitChar(d: int): (c: char)
    requires 0 <= d <= 9
    ensures IsDigit(c)
  {
    ('0' as int + d) as char
  }

  /** `int(c)` for a one-character string holding an ASCII digit. */
  function DigitValue(c: char): (d: int)
    requires IsDigit(c)
    ensures 0 <= d <= 9
  {
    c as int - '0' as int
  }

  lemma DigitRoundTrip(d: int)
    requires 0 <= d <= 9
    ensures DigitValue(DigitChar(d)) == d
  {
  }

  /**
   * `str(i)`: the decimal digits of |i|, most significant first and with no
   * leading zero, after a minus sign when i is negative.
   */
  function IntToString(i: int): string
    decreases if i < 0 then 1 - i else i
  {
    if i < 0 then "-" + IntToString(-i)
    else if i < 10 then [DigitChar(i)]
    else IntToString(i / 10) + [DigitChar(i % 10)]
  }

  /** The shape of `str(i)`: a sign only for negatives, then digits without a leading zero. */
  lemma {:induction false} IntToStringShape(i: int)
    decreases if i < 0 then 1 - i else i
    ensures |IntToString(i)| >= 1
    ensures IntToString(i)[0] == '-' <==> i < 0
    ensures i >= 0 ==> forall k :: 0 <= k < |IntToString(i)| ==> IsDigit(IntToString(i)[k])
    ensures i >= 10 ==> IntToString(i)[0] != '0'
    ensures 0 <= i <= 9 ==> IntToString(i) == [DigitChar(i)]
  {
    if i < 0 {
      IntToStringShape(-i);
    } else if i >= 10 {
      IntToStringShape(i / 10);
    }
  }

  /** The value of a string of digits, read most significant first (the reading `int` gives). */
  function DigitsValue(s: string): (n: nat)
    requires forall i :: 0 <= i < |s| ==> IsDigit(s[i])
  {
    if s == [] then 0 else DigitsValue(s[..|s| - 1]) * 10 + DigitValue(s[|s| - 1])
  }

  /** An optional minus sign followed by at least one digit. */
  predicate IsIntText(s: string) {
    && |s| >= 1
    && (s[0] == '-' || IsDigit(s[0]))
    && (s[0] == '-' ==> |s| >= 2)
    && forall k :: 1 <= k < |s| ==> IsDigit(s[k])
  }

  /** The inverse of IntToString, as `int(s)` reads an optionally signed decimal string. */
  function ParseInt(s: string): (i: int)
    requires IsIntText(s)
  {
    if s[0] == '-' then -(DigitsValue(s[1..]) as int) else DigitsValue(s)
  }

  /** Reading back the text of a non-negative integer gives the integer. */
  lemma {:induction false} NonNegativeRoundTrip(n: nat)
    ensures forall k :: 0 <= k < |IntToString(n)| ==> IsDigit(IntToString(n)[k])
    ensures DigitsValue(IntToString(n)) == n
  {
    IntToStringShape(n);
    var s := IntToString(n);
    if n < 10 {
      assert s[..0] == [];
      DigitRoundTrip(n);
    } else {
      NonNegativeRoundTrip(n / 10);
      assert s[..|s| - 1] == IntToString(n / 10);
      DigitRoundTrip(n % 10);
    }
  }

  /** `int(str(i)) == i` for every integer, so distinct integers have distinct texts. */
  lemma IntToStringRoundTrip(i: int)
    ensures IsIntText(IntToString(i)) && ParseInt(IntToString(i)) == i
  {
    IntToStringShape(i);
    if i < 0 {
      NonNegativeRoundTrip(-i);
      assert IntToString(i)[1..] == IntToString(-i);
    } else {
      NonNegativeRoundTrip(i);
    }
  }

  lemma IntToStringInjective(i: int, j: int)
    requires IntToString(i) == IntToString(j)
    ensures i == j
  {
    IntToStringRoundTrip(i);
    IntToStringRoundTrip(j);
  }
}
