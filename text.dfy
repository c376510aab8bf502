/** Decimal rendering of integers, as Python's `str(int)` writes them into f-strings. */
module Text {

  const Digits := "0123456789"

  /** The decimal digits of `n`, most significant first, without leading zeros. */
  function NatToString(n: nat): (s: string)
    ensures |s| >= 1
    ensures forall i :: 0 <= i < |s| ==> s[i] in Digits
    ensures |s| > 1 ==> s[0] != '0'
  {
    if n < 10 then [Digits[n]] else NatToString(n / 10) + [Digits[n % 10]]
  }

  /** `str(i)`: a minus sign in front of the digits of a negative number. */
  function IntToString(i: int): (s: string)
    ensures |s| >= 1
    ensures s[0] == '-' <==> i < 0
  {
    if i < 0 then "-" + NatToString(-i) else NatToString(i)
  }

  /** The value of a decimal digit. */
  function DigitValue(c: char): (d: nat)
    requires c in Digits
    ensures d < 10 && Digits[d] == c
  {
    if c == '0' then 0 else if c == '1' then 1 else if c == '2' then 2 else if c == '3' then 3
    else if c == '4' then 4 else if c == '5' then 5 else if c == '6' then 6 else if c == '7' then 7
    else if c == '8' then 8 else 9
  }

  /** The number a non-empty string of decimal digits denotes. */
  function ParseNat(s: string): (n: nat)
    requires |s| >= 1 && forall i :: 0 <= i < |s| ==> s[i] in Digits
    ensures |s| == 1 ==> n < 10
  {
    if |s| == 1 then DigitValue(s[0])
    else ParseNat(s[..|s| - 1]) * 10 + DigitValue(s[|s| - 1])
  }

  /** The inverse of `IntToString` on what it produces. */
  function ParseInt(s: string): (i: int)
    requires |s| >= 1
    requires s[0] == '-' ==> |s| >= 2 && forall k :: 1 <= k < |s| ==> s[k] in Digits
    requires s[0] != '-' ==> forall k :: 0 <= k < |s| ==> s[k] in Digits
  {
    if s[0] == '-' then -(ParseNat(s[1..]) as int) else ParseNat(s)
  }

  /** Reading back the digits of `n` gives `n`. */
  lemma {:induction false} NatToStringRoundTrip(n: nat)
    ensures ParseNat(NatToString(n)) == n
  {
    var s := NatToString(n);
    if n >= 10 {
      assert s[..|s| - 1] == NatToString(n / 10);
      NatToStringRoundTrip(n / 10);
      DigitValueOf(n % 10);
      assert ParseNat(s) == (n / 10) * 10 + n % 10;
    } else {
      DigitValueOf(n);
    }
  }

  /** Each digit character reads back as the digit it writes. */
  lemma DigitValueOf(d: nat)
    requires d < 10
    ensures DigitValue(Digits[d]) == d
  {
  }

  /** Reading back `str(i)` gives `i`. */
  lemma IntToStringRoundTrip(i: int)
    ensures var s := IntToString(i);
            (s[0] == '-' ==> |s| >= 2 && forall k :: 1 <= k < |s| ==> s[k] in Digits)
            && (s[0] != '-' ==> forall k :: 0 <= k < |s| ==> s[k] in Digits)
            && ParseInt(s) == i
  {
    var s := IntToString(i);
    if i < 0 {
      assert s[1..] == NatToString(-i);
      NatToStringRoundTrip(-i);
    } else {
      assert NatToString(i)[0] in Digits;
      NatToStringRoundTrip(i);
    }
  }

  /** Distinct numbers are written differently. */
  lemma IntToStringInjective(i: int, j: int)
    requires i != j
    ensures IntToString(i) != IntToString(j)
  {
    IntToStringRoundTrip(i);
    IntToStringRoundTrip(j);
  }
}
