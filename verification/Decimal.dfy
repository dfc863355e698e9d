/** Decimal text of integers, as `%d` prints it and `strconv.ParseInt` reads it. */
module Decimal {
  import opened Prelude

  predicate IsDigit(c: char) { '0' <= c <= '9' }

  predicate AllDigits(s: string) { forall i | 0 <= i < |s| :: IsDigit(s[i]) }

  function DigitChar(d: nat): (c: char)
    requires d < 10
    ensures IsDigit(c) && DigitValue(c) == d
  {
    (48 + d) as char
  }

  function DigitValue(c: char): (d: nat)
    requires IsDigit(c)
    ensures d < 10
  {
    c as int - 48
  }

  function PrintNat(n: nat): (s: string)
    ensures |s| > 0 && AllDigits(s)
  {
    if n < 10 then [DigitChar(n)] else PrintNat(n / 10) + [DigitChar(n % 10)]
  }

  /** The value of a run of digits; 0 for the empty run. */
  function DigitsValue(s: string): nat
    requires AllDigits(s)
  {
    if s == "" then 0 else 10 * DigitsValue(s[..|s| - 1]) + DigitValue(s[|s| - 1])
  }

  /** Places count from the right: the first of n digits is worth ten to the n - 1. */
  lemma {:induction false} FirstPlace(s: string)
    requires AllDigits(s) && s != ""
    ensures DigitsValue(s) == (s[0] as int - '0' as int) * Power10(|s| - 1) + DigitsValue(s[1..])
  {
    if |s| > 1 {
      var init := s[..|s| - 1];
      FirstPlace(init);
      assert init[1..] == s[1..][..|s| - 2] && init[0] == s[0];
      Tenfold(s[0] as int - '0' as int, Power10(|s| - 2));
    } else {
      assert s[..0] == "" && s[1..] == "";
    }
  }

  lemma Tenfold(d: int, p: int)
    ensures d * (10 * p) == 10 * (d * p)
  {
  }

  function Power10(n: nat): nat { if n == 0 then 1 else 10 * Power10(n - 1) }

  /** No needless zero in front, and a minus sign exactly for the negative. */
  lemma {:induction false} PrintIsPlain(n: nat)
    ensures PrintNat(n)[0] == '0' ==> n == 0 && PrintNat(n) == "0"
    ensures PrintInt(n) == PrintNat(n) && (n > 0 ==> PrintInt(0 - n) == "-" + PrintNat(n))
  {
    if n >= 10 { PrintIsPlain(n / 10); }
  }

  function PrintInt(i: int): string {
    if i < 0 then "-" + PrintNat(-i) else PrintNat(i)
  }

  /** An optional sign and at least one digit. */
  function ParseInt(s: string): Option<int> {
    if s == "" then None
    else if s[0] == '-' || s[0] == '+' then
      if |s| > 1 && AllDigits(s[1..])
      then Some((if s[0] == '-' then -1 else 1) * DigitsValue(s[1..]))
      else None
    else if AllDigits(s) then Some(DigitsValue(s))
    else None
  }

  lemma {:induction false} PrintNatValue(n: nat)
    ensures DigitsValue(PrintNat(n)) == n
  {
    var s := PrintNat(n);
    if n < 10 {
      assert s[..|s| - 1] == "";
    } else {
      PrintNatValue(n / 10);
      assert s[..|s| - 1] == PrintNat(n / 10);
    }
  }

  /** Printing and reading an integer gives it back. */
  lemma ParsePrint(i: int)
    ensures ParseInt(PrintInt(i)) == Some(i)
  {
    if i < 0 {
      PrintNatValue(-i);
      assert PrintInt(i)[1..] == PrintNat(-i);
    } else {
      PrintNatValue(i);
      assert IsDigit(PrintInt(i)[0]);
    }
  }

  lemma PrintIntInjective(i: int, j: int)
    requires PrintInt(i) == PrintInt(j)
    ensures i == j
  {
    ParsePrint(i);
    ParsePrint(j);
  }

  predicate DecimalChar(c: char) { IsDigit(c) || c == '-' }

  /** Decimal text consists of digits and a minus sign. */
  lemma PrintIntChars(i: int)
    ensures |PrintInt(i)| > 0
    ensures forall k | 0 <= k < |PrintInt(i)| :: DecimalChar(PrintInt(i)[k])
  {
  }
}
