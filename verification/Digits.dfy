// Decimal digits: how Python's str() writes a natural number and how they read back.
module Digits {
  function DigitChar(d: nat): (c: char)
    requires d < 10
    ensures '0' <= c <= '9' && c as int - 48 == d
  {
    (d + 48) as char
  }

  predicate IsDigit(c: char) { '0' <= c <= '9' }

  predicate AllDigits(s: string) { forall i | 0 <= i < |s| :: IsDigit(s[i]) }

  function Value(s: string): (n: nat)
    requires AllDigits(s)
  {
    if |s| == 0 then 0 else Value(s[..|s| - 1]) * 10 + (s[|s| - 1] as int - 48)
  }

  function DigitsOf(n: nat): (s: string) {
    if n < 10 then [DigitChar(n)] else DigitsOf(n / 10) + [DigitChar(n % 10)]
  }

  lemma AppendDigit(s: string, d: nat)
    requires AllDigits(s) && d < 10
    ensures AllDigits(s + [DigitChar(d)]) && Value(s + [DigitChar(d)]) == Value(s) * 10 + d
  {
    assert (s + [DigitChar(d)])[..|s|] == s;
  }

  lemma {:induction false} DigitsOfValue(n: nat)
    ensures |DigitsOf(n)| >= 1 && AllDigits(DigitsOf(n)) && Value(DigitsOf(n)) == n
  {
    if n >= 10 {
      DigitsOfValue(n / 10);
      AppendDigit(DigitsOf(n / 10), n % 10);
    }
  }
}
