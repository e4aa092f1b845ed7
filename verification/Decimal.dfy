/** Decimal digits and the decimal text of an integer. */
module Decimal {

  predicate Digit(c: char) { '0' <= c <= '9' }

  function DigitOf(c: char): (n: nat)
    requires Digit(c)
  {
    c as int - '0' as int
  }

  function DigitChar(n: nat): (c: char)
    requires n < 10
    ensures Digit(c) && DigitOf(c) == n
  {
    "0123456789"[n]
  }

  function Digits(n: nat): (s: string)
    ensures s != [] && forall c | c in s :: Digit(c)
  {
    if n < 10 then [DigitChar(n)] else Digits(n / 10) + [DigitChar(n % 10)]
  }

  function PrintInteger(n: int): (s: string) {
    if n < 0 then ['-'] + Digits(-n) else Digits(n)
  }

  /** No leading zero but that of zero itself. */
  lemma {:induction false} LeadingDigit(n: nat)
    ensures Digits(n)[0] == '0' <==> n == 0
  {
    if n >= 10 {
      LeadingDigit(n / 10);
    }
  }
}
