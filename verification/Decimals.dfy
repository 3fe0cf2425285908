/** Decimal digit strings, shared by the JSON and HTTP parsers. */
module Decimals {

  predicate IsDigit(c: char) { '0' <= c <= '9' }

  function DigitValue(c: char): (d: nat)
    requires IsDigit(c)
    ensures d < 10
  {
    (c as int) - ('0' as int)
  }

  function DigitChar(d: nat): (c: char)
    requires d < 10
    ensures IsDigit(c) && DigitValue(c) == d
  {
    (('0' as int) + d) as char
  }

  /** The digits are these ten characters, and the d-th of them has value d. */
  lemma DigitTable(c: char)
    ensures IsDigit(c) <==> c in "0123456789"
    ensures forall d | 0 <= d < 10 :: IsDigit("0123456789"[d]) && DigitValue("0123456789"[d]) == d
  {
    if IsDigit(c) { assert "0123456789"[DigitValue(c)] == c; }
  }

  ghost predicate AllDigits(s: string) { forall i :: 0 <= i < |s| ==> IsDigit(s[i]) }

  /** The number a digit string denotes. */
  function NatOf(s: string): nat
    requires AllDigits(s)
  {
    if s == [] then 0 else NatOf(s[..|s| - 1]) * 10 + DigitValue(s[|s| - 1])
  }

  /** Shortest decimal text of n. */
  function Decimal(n: nat): (s: string)
    ensures s != [] && AllDigits(s) && NatOf(s) == n
    ensures |s| > 1 ==> s[0] != '0'
    ensures n > 0 ==> s[0] != '0'
  {
    if n < 10 then [DigitChar(n)]
    else
      var s := Decimal(n / 10) + [DigitChar(n % 10)];
      assert s[..|s| - 1] == Decimal(n / 10);
      s
  }

  lemma NatOfAppend(s: string)
    requires s != [] && AllDigits(s)
    ensures AllDigits(s[..|s| - 1]) && NatOf(s) == NatOf(s[..|s| - 1]) * 10 + DigitValue(s[|s| - 1])
  {
  }
}
