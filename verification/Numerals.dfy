/** Decimal numerals, as an f-string writes them; text stands for its bytes. */
module Numerals {
  import opened Basics

  function Decimal(n: nat): (r: Bytes)
    ensures r != []
  {
    if n < 10 then [48 + n] else Decimal(n / 10) + [48 + n % 10]
  }

  lemma {:induction false} DecimalInjective(m: nat, n: nat)
    requires Decimal(m) == Decimal(n)
    ensures m == n
  {
    var x, y := Decimal(m), Decimal(n);
    assert x[|x| - 1] == 48 + m % 10 && y[|y| - 1] == 48 + n % 10;
    if m >= 10 && n >= 10 {
      assert x[..|x| - 1] == Decimal(m / 10) && y[..|y| - 1] == Decimal(n / 10);
      DecimalInjective(m / 10, n / 10);
    }
  }
}
