/** Decimal rendering of integers, as Go's `strconv.Itoa` does it, and the parser
    `strconv.Atoi` that reads such a rendering back. */
module Strconv {

  import opened Wrappers

  predicate IsDigit(c: char) {
    '0' <= c <= '9'
  }

  predicate AllDigits(s: string) {
    forall i :: 0 <= i < |s| ==> IsDigit(s[i])
  }

  function DigitChar(d: nat): (c: char)
    requires d < 10
    ensures IsDigit(c)
  {
    (('0' as int) + d) as char
  }

  function DigitValue(c: char): (d: nat)
    requires IsDigit(c)
    ensures d < 10 && DigitChar(d) == c
  {
    (c as int) - ('0' as int)
  }

  /** The decimal digits of `n`, most significant first, with no leading zero. */
  function Digits(n: nat): (s: string)
    ensures |s| >= 1 && AllDigits(s)
    ensures s[0] == '0' <==> n == 0
    ensures n == 0 ==> s == "0"
    decreases n
  {
    if n < 10 then [DigitChar(n)] else Digits(n / 10) + [DigitChar(n % 10)]
  }

  /** `strconv.Itoa`: a minus sign for negative values, then the digits of the magnitude. */
  function Itoa(i: int): (s: string)
    ensures |s| >= 1
    ensures i >= 0 ==> AllDigits(s)
    ensures s[0] == '-' <==> i < 0
  {
    if i < 0 then "-" + Digits(-i) else Digits(i)
  }

  /** The value of a string of decimal digits, most significant first. */
  function ParseDigits(s: string): nat
    requires AllDigits(s)
  {
    if s == [] then 0 else ParseDigits(s[..|s| - 1]) * 10 + DigitValue(s[|s| - 1])
  }

  /** `strconv.Atoi` on base 10: an optional sign followed by at least one digit. */
  function Atoi(s: string): Option<int> {
    if |s| >= 2 && (s[0] == '-' || s[0] == '+') && AllDigits(s[1..]) then
      var n: int := ParseDigits(s[1..]);
      Some(if s[0] == '-' then -n else n)
    else if |s| >= 1 && AllDigits(s) then
      Some(ParseDigits(s))
    else
      None
  }

  lemma {:induction false} ParseDigitsOfDigits(n: nat)
    ensures ParseDigits(Digits(n)) == n
    decreases n
  {
    if n >= 10 {
      var s := Digits(n);
      assert s[..|s| - 1] == Digits(n / 10);
      ParseDigitsOfDigits(n / 10);
    }
  }

  /** Reading back what `Itoa` rendered gives the same integer. */
  lemma ItoaRoundTrip(i: int)
    ensures Atoi(Itoa(i)) == Some(i)
  {
    var s := Itoa(i);
    if i < 0 {
      var d := Digits(-i);
      assert s == "-" + d && s[1..] == d;
      ParseDigitsOfDigits(-i);
    } else {
      assert s == Digits(i) && s[0] != '-' && s[0] != '+';
      ParseDigitsOfDigits(i);
    }
  }
}
