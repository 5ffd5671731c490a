/**
 * Base-10 rendering of integers, as a JavaScript template literal `${n}`
 * renders an integral number whose magnitude is below 10^21 (larger ones
 * JavaScript writes in exponent form, which is not modelled), and a
 * parser that undoes it for `nat`.
 */
module Decimal {

  predicate IsDigit(c: char) {
    '0' <= c <= '9'
  }

  predicate AllDigits(s: string) {
    forall k :: 0 <= k < |s| ==> IsDigit(s[k])
  }

  function DigitChar(d: nat): (c: char)
    requires d < 10
    ensures IsDigit(c)
  {
    ('0' as int + d) as char
  }

  function DigitValue(c: char): (d: nat)
    requires IsDigit(c)
    ensures d < 10 && DigitChar(d) == c
  {
    c as int - '0' as int
  }

  /** The shortest base-10 spelling of `n`: digits only, no leading zero. */
  function DecimalOfNat(n: nat): (r: string)
    ensures |r| >= 1 && AllDigits(r)
    ensures r[0] == '0' ==> n == 0
    ensures n < 10 <==> |r| == 1
  {
    if n < 10 then [DigitChar(n)] else DecimalOfNat(n / 10) + [DigitChar(n % 10)]
  }

  /** A negative integer is rendered with a leading minus sign. */
  function DecimalOfInt(i: int): (r: string)
    ensures |r| >= 1 && (r[0] == '0' ==> i == 0)
    ensures i < 0 ==> |r| >= 2 && r[1] != '0'
    ensures i >= 0 ==> AllDigits(r) && ParseNat(r) == i
    ensures i < 0 ==> |r| >= 2 && r[0] == '-' && AllDigits(r[1..]) && ParseNat(r[1..]) == -i
  {
    if i < 0 then
      ParseDecimalOfNat(-i);
      assert ("-" + DecimalOfNat(-i))[1..] == DecimalOfNat(-i);
      "-" + DecimalOfNat(-i)
    else
      ParseDecimalOfNat(i);
      DecimalOfNat(i)
  }

  /** Reads a string of digits, most significant first. */
  function ParseNat(s: string): nat
    requires AllDigits(s)
  {
    if s == [] then 0 else ParseNat(s[..|s| - 1]) * 10 + DigitValue(s[|s| - 1])
  }

  /** Rendering a natural number and reading it back gives the number again. */
  lemma {:induction false} ParseDecimalOfNat(n: nat)
    ensures ParseNat(DecimalOfNat(n)) == n
  {
    var r := DecimalOfNat(n);
    if n < 10 {
      assert r[..|r| - 1] == [];
    } else {
      assert r[..|r| - 1] == DecimalOfNat(n / 10);
      ParseDecimalOfNat(n / 10);
    }
  }

  /** Distinct natural numbers have distinct renderings. */
  lemma DecimalOfNatInjective(m: nat, n: nat)
    requires DecimalOfNat(m) == DecimalOfNat(n)
    ensures m == n
  {
    ParseDecimalOfNat(m);
    ParseDecimalOfNat(n);
  }
}
