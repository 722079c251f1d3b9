/** Decimal text of integers: the rendering used by template strings
    (`${value}`) in src/object.ts and the reading done by `parseInt(s, 10)` in
    src/parser.ts, on the digit runs the scanner produces. */
module Decimal {

  predicate IsDigitChar(c: char)
  {
    '0' <= c <= '9'
  }

  function DigitChar(d: nat): (c: char)
    requires d < 10
    ensures IsDigitChar(c) && c as int - '0' as int == d
  {
    (d + '0' as int) as char
  }

  /** The shortest decimal text of a natural number. */
  function NatToDecimal(n: nat): (s: string)
    decreases n
    ensures |s| > 0 && forall i :: 0 <= i < |s| ==> IsDigitChar(s[i])
    ensures |s| > 1 ==> s[0] != '0'
  {
    if n < 10 then [DigitChar(n)] else NatToDecimal(n / 10) + [DigitChar(n % 10)]
  }

  /** The decimal text of an integer, with a leading `-` when negative. */
  function IntToDecimal(n: int): string
  {
    if n < 0 then "-" + NatToDecimal(-n) else NatToDecimal(n)
  }

  /** The value of a run of digits, read left to right. */
  function DigitsValue(s: string): (v: nat)
    requires forall i :: 0 <= i < |s| ==> IsDigitChar(s[i])
    decreases |s|
    ensures |s| > 0 ==> v % 10 == s[|s| - 1] as int - '0' as int
    ensures |s| > 0 && s[0] == '0' ==> v == DigitsValue(s[1..])
  {
    if s == [] then 0
    else
      assert IsDigitChar(s[|s| - 1]);
      var init := s[..|s| - 1];
      assert |s| > 1 ==> init[1..] == s[1..][..|s[1..]| - 1];
      10 * DigitsValue(init) + (s[|s| - 1] as int - '0' as int)
  }

  /** Reading back the rendering of a natural number gives the number. */
  lemma {:induction false} DigitsValueOfNatToDecimal(n: nat)
    ensures DigitsValue(NatToDecimal(n)) == n
    decreases n
  {
    var s := NatToDecimal(n);
    if n >= 10 {
      DigitsValueOfNatToDecimal(n / 10);
      assert s[..|s| - 1] == NatToDecimal(n / 10);
    }
  }
}
