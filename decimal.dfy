/** Decimal rendering of integers, as Go's `strconv.Itoa` and the `%d` verb
    of `fmt.Sprintf` produce it: an optional minus sign followed by the
    digits of the magnitude, most significant first, with no leading zero. */
module Decimal {

  predicate IsDigit(c: char) {
    '0' <= c <= '9'
  }

  function DigitChar(d: nat): (c: char)
    requires d < 10
    ensures IsDigit(c) && c as int - '0' as int == d
  {
    ['0', '1', '2', '3', '4', '5', '6', '7', '8', '9'][d]
  }

  /** Reference reading of a digit string: the number it denotes. */
  function DigitsValue(s: string): nat
    requires forall i :: 0 <= i < |s| ==> IsDigit(s[i])
  {
    if s == [] then 0
    else
      assert IsDigit(s[|s| - 1]);
      DigitsValue(s[..|s| - 1]) * 10 + (s[|s| - 1] as int - '0' as int)
  }

  /** Reference reading of a rendered integer: a leading '-' negates. */
  function Value(s: string): int
    requires |s| > 0
    requires forall i :: 0 <= i < |s| ==> IsDigit(s[i]) || (i == 0 && s[i] == '-')
  {
    if s[0] == '-' then -(DigitsValue(s[1..]) as int) else DigitsValue(s)
  }

  /** The digits of a natural number. */
  function NatDigits(n: nat): (s: string)
    ensures |s| > 0
    ensures forall i :: 0 <= i < |s| ==> IsDigit(s[i])
    ensures |s| > 1 ==> s[0] != '0'
    ensures n < 10 <==> |s| == 1
    decreases n
  {
    if n < 10 then [DigitChar(n)] else NatDigits(n / 10) + [DigitChar(n % 10)]
  }

  /** `strconv.Itoa`: an integer as decimal text. */
  function Itoa(n: int): (s: string)
    ensures |s| > 0
    ensures forall i :: 0 <= i < |s| ==> IsDigit(s[i]) || (i == 0 && s[i] == '-')
    ensures s[0] == '-' <==> n < 0
    ensures n < 0 ==> |s| > 1 && s[1] != '0'
    ensures n >= 0 && |s| > 1 ==> s[0] != '0'
    ensures ' ' !in s && '/' !in s
  {
    if n < 0 then "-" + NatDigits(-n) else NatDigits(n)
  }

  lemma {:induction false} NatDigitsValue(n: nat)
    ensures DigitsValue(NatDigits(n)) == n
    decreases n
  {
    if n >= 10 {
      var s := NatDigits(n);
      NatDigitsValue(n / 10);
      assert s[..|s| - 1] == NatDigits(n / 10);
    }
  }

  /** Reading the text back gives the number: `Itoa` loses nothing. */
  lemma ItoaRoundTrip(n: int)
    ensures Value(Itoa(n)) == n
  {
    if n < 0 {
      NatDigitsValue(-n);
      SignedValue(NatDigits(-n));
    } else {
      NatDigitsValue(n);
    }
  }

  /** A minus sign in front of digits negates their value. */
  lemma SignedValue(d: string)
    requires forall i :: 0 <= i < |d| ==> IsDigit(d[i])
    ensures Value("-" + d) == -(DigitsValue(d) as int)
  {
    assert ("-" + d)[1..] == d;
  }

  /** Hence distinct integers render as distinct text. */
  lemma ItoaInjective(m: int, n: int)
    requires Itoa(m) == Itoa(n)
    ensures m == n
  {
    ItoaRoundTrip(m);
    ItoaRoundTrip(n);
  }
}
