/**
 * Decimal text of unsigned numbers: `std::to_string` on an `unsigned`, and
 * reading such text back as a number.
 */
module Decimal {
  import opened Optional
  import opened Unsigned

  predicate IsDigit(c: char) {
    '0' <= c <= '9'
  }

  predicate AllDigits(s: string) {
    forall i :: 0 <= i < |s| ==> IsDigit(s[i])
  }

  /** The shape `std::to_string` produces: digits only, at least one, no leading zero. */
  predicate Canonical(s: string) {
    s != [] && AllDigits(s) && (|s| > 1 ==> s[0] != '0')
  }

  function DigitChar(d: nat): (c: char)
    requires d < 10
    ensures IsDigit(c) && c as int - '0' as int == d
  {
    ('0' as int + d) as char
  }

  /** `std::to_string(n)`: the shortest decimal spelling of `n`. */
  function ToDecimal(n: nat): (s: string)
    ensures Canonical(s)
    ensures n < 10 <==> |s| == 1
    decreases n
  {
    if n < 10 then [DigitChar(n)] else ToDecimal(n / 10) + [DigitChar(n % 10)]
  }

  /** The number a string of decimal digits spells. */
  function ValueOf(s: string): nat
    requires AllDigits(s)
  {
    if s == [] then 0
    else ValueOf(s[..|s| - 1]) * 10 + (s[|s| - 1] as int - '0' as int)
  }

  /** Reads an `unsigned` from decimal text: digits only, at least one, at most UINT_MAX. */
  function ParseUnsigned(s: string): Option<u32>
  {
    if s != [] && AllDigits(s) && ValueOf(s) <= UINT_MAX then Some(ValueOf(s)) else None
  }

  lemma {:induction false} ValueOfToDecimal(n: nat)
    ensures ValueOf(ToDecimal(n)) == n
    decreases n
  {
    if n >= 10 {
      var s := ToDecimal(n);
      assert s[..|s| - 1] == ToDecimal(n / 10);
      ValueOfToDecimal(n / 10);
    }
  }

  /** Reading back what `std::to_string` wrote gives the same number. */
  lemma ParseToDecimal(n: u32)
    ensures ParseUnsigned(ToDecimal(n)) == Some(n)
  {
    ValueOfToDecimal(n);
  }

  lemma {:induction false} LeadingDigitPositive(s: string)
    requires Canonical(s) && s[0] != '0'
    ensures ValueOf(s) > 0
    decreases |s|
  {
    if |s| > 1 {
      var init := s[..|s| - 1];
      assert init[0] == s[0];
      LeadingDigitPositive(init);
    }
  }

  /** Conversely, every canonical digit string is what `std::to_string` writes for its value. */
  lemma {:induction false} ToDecimalValueOf(s: string)
    requires Canonical(s)
    ensures ToDecimal(ValueOf(s)) == s
    decreases |s|
  {
    if |s| > 1 {
      var init := s[..|s| - 1];
      assert init[0] == s[0];
      LeadingDigitPositive(init);
      ToDecimalValueOf(init);
      var v := ValueOf(s);
      var d := s[|s| - 1] as int - '0' as int;
      assert v == ValueOf(init) * 10 + d && 0 <= d < 10;
      assert v / 10 == ValueOf(init) && v % 10 == d;
      assert DigitChar(d) == s[|s| - 1];
      assert s == init + [s[|s| - 1]];
    }
  }
}
