/** Decimal numerals: Go's strconv.Atoi/Itoa and Python's int() on ASCII digits. */
module Decimal {
  predicate IsDigit(c: char) { '0' <= c <= '9' }

  predicate IsNumeral(s: string) {
    s != [] && forall i :: 0 <= i < |s| ==> IsDigit(s[i])
  }

  function Value(s: string): nat
    requires forall i :: 0 <= i < |s| ==> IsDigit(s[i])
  {
    if s == [] then 0
    else
      assert IsDigit(s[|s| - 1]);
      Value(s[..|s| - 1]) * 10 + (s[|s| - 1] as int - '0' as int)
  }

  function Numeral(n: nat): (s: string)
    ensures IsNumeral(s)
  {
    if n < 10 then [(n + '0' as int) as char]
    else Numeral(n / 10) + [(n % 10 + '0' as int) as char]
  }

  lemma {:induction false} NumeralValue(n: nat)
    ensures Value(Numeral(n)) == n
  {
    if n >= 10 {
      NumeralValue(n / 10);
      assert Numeral(n)[..|Numeral(n)| - 1] == Numeral(n / 10);
    } else {
      assert Numeral(n)[..0] == "";
    }
  }
}
