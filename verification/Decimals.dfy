/** Decimal text of a natural number, as `strconv` writes it. */
module Decimals {

  function Digit(d: nat): char
    requires d < 10
  {
    '0' + d as char
  }

  predicate IsDigit(c: char) {
    '0' <= c <= '9'
  }

  function Itoa(n: nat): (s: string)
    ensures s != [] && forall i :: 0 <= i < |s| ==> IsDigit(s[i])
  {
    if n < 10 then [Digit(n)] else Itoa(n / 10) + [Digit(n % 10)]
  }

  /** What digits mean, most significant first. */
  function Decimal(digits: string): int {
    if digits == [] then 0 else
      Decimal(digits[..|digits| - 1]) * 10 + (digits[|digits| - 1] as int - '0' as int)
  }

  /** The digits written for a number mean that number. */
  lemma {:induction false} DecimalOfItoa(n: nat)
    ensures Decimal(Itoa(n)) == n
  {
    if n < 10 {
      assert Itoa(n)[..0] == [];
    } else {
      DecimalOfItoa(n / 10);
      assert Itoa(n)[..|Itoa(n)| - 1] == Itoa(n / 10);
    }
  }

  /** No leading zeros: 120 is written as such. */
  lemma OneHundredTwenty()
    ensures Itoa(120) == "120" && Itoa(0) == "0" && Decimal("120") == 120
  {
    assert Itoa(1) == "1" && Itoa(12) == "12";
    assert "120"[..2] == "12" && "12"[..1] == "1" && "1"[..0] == "";
    assert Decimal("1") == 1 && Decimal("12") == 12;
  }
}
