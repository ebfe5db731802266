/** Decimal numbers as the program prints them. */
module Decimals {
  import opened Lexing
  import opened Parsing

  function Digit(d: nat): char
    requires d < 10
  {
    '0' + d as char
  }

  function DecimalNat(n: nat): string {
    if n < 10 then [Digit(n)] else DecimalNat(n / 10) + [Digit(n % 10)]
  }

  function Decimal(x: int): string {
    if x < 0 then "-" + DecimalNat(-x) else DecimalNat(x)
  }

  lemma {:induction false} DecimalNatValue(n: nat)
    ensures DecimalNat(n) != "" && AllDigits(DecimalNat(n)) && DigitsValue(DecimalNat(n)) == n
  {
    if n < 10 {
      assert DecimalNat(n)[..0] == "";
    } else {
      DecimalNatValue(n / 10);
      var s := DecimalNat(n);
      assert s[..|s| - 1] == DecimalNat(n / 10);
    }
  }

  function Pow10(d: nat): nat {
    if d == 0 then 1 else 10 * Pow10(d - 1)
  }

  lemma {:induction false} DecimalNatShort(n: nat, d: nat)
    requires d > 0 && n < Pow10(d)
    ensures |DecimalNat(n)| <= d
  {
    if n >= 10 {
      DecimalNatShort(n / 10, d - 1);
    }
  }

  lemma {:induction false} DecimalNatLong(n: nat, d: nat)
    requires n >= Pow10(d)
    ensures |DecimalNat(n)| > d
  {
    if d > 0 {
      DecimalNatLong(n / 10, d - 1);
    }
  }
}
