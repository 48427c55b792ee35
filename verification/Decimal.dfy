/** Unsigned decimal strings: `bigint` printing, and the strings the wire format accepts. */
module Decimal {

  function Digit(d: nat): char
    requires d < 10
  {
    ('0' as int + d) as char
  }

  predicate IsDigit(c: char) { '0' <= c <= '9' }

  function DigitValue(c: char): nat
    requires IsDigit(c)
  {
    c as int - '0' as int
  }

  function PrintNat(n: nat): string {
    if n < 10 then [Digit(n)] else PrintNat(n / 10) + [Digit(n % 10)]
  }

  function Print(n: int): string {
    if n < 0 then "-" + PrintNat(-n) else PrintNat(n)
  }

  /** A lone zero, or digits without a leading zero. */
  predicate IsDecimal(s: string) {
    && |s| > 0 && (forall i :: 0 <= i < |s| ==> IsDigit(s[i]))
    && (|s| == 1 || s[0] != '0')
  }

  function Value(s: string): nat
    requires forall i :: 0 <= i < |s| ==> IsDigit(s[i])
  {
    if |s| == 0 then 0 else 10 * Value(s[..|s| - 1]) + DigitValue(s[|s| - 1])
  }

  lemma {:induction false} ValueOfPrint(n: nat)
    ensures IsDecimal(PrintNat(n)) && Value(PrintNat(n)) == n
    ensures n > 0 ==> PrintNat(n)[0] != '0'
  {
    if n >= 10 {
      ValueOfPrint(n / 10);
      var s := PrintNat(n);
      assert s[..|s| - 1] == PrintNat(n / 10);
      assert s[0] == PrintNat(n / 10)[0];
    } else {
      assert PrintNat(n)[..0] == [];
    }
  }

  lemma {:induction false} PrintOfValue(s: string)
    requires IsDecimal(s)
    ensures PrintNat(Value(s)) == s
    ensures s[0] != '0' ==> Value(s) > 0
    decreases |s|
  {
    var front := s[..|s| - 1];
    if |s| > 1 {
      PrintOfValue(front);
      assert front[0] == s[0];
      assert front + [s[|s| - 1]] == s;
    } else {
      assert front == [];
      assert s == [s[0]];
    }
  }

  lemma NegativeIsNotDecimal(n: int)
    requires n < 0
    ensures !IsDecimal(Print(n))
  {
  }
}
