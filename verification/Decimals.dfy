/** Decimal text of unsigned integers. */
module Decimals {
  import opened Common

  predicate IsDigit(b: Byte) {
    48 <= b <= 57
  }

  predicate AllDigits(text: Bytes) {
    forall i | 0 <= i < |text| :: IsDigit(text[i])
  }

  /** The shortest decimal text of `n`. */
  function ToDecimal(n: nat): (text: Bytes)
    ensures text != [] && AllDigits(text)
  {
    if n < 10 then [48 + n] else ToDecimal(n / 10) + [48 + n % 10]
  }

  function FromDecimal(text: Bytes): nat
    requires AllDigits(text)
  {
    if text == [] then 0 else 10 * FromDecimal(text[..|text| - 1]) + (text[|text| - 1] - 48)
  }

  lemma {:induction false} DecimalRoundTrip(n: nat)
    ensures FromDecimal(ToDecimal(n)) == n
  {
    if n >= 10 {
      DecimalRoundTrip(n / 10);
      assert ToDecimal(n)[..|ToDecimal(n)| - 1] == ToDecimal(n / 10);
    }
  }

  /** A digit string that fits in 64 bits; leading zeros are allowed and a sign is not. */
  function ParseU64(text: Bytes): Option<nat> {
    if text == [] || !AllDigits(text) || FromDecimal(text) > U64_MAX then None else Some(FromDecimal(text))
  }
}
