/**
 * Python's float() on the decimal numerals that occur in lab reports:
 * an optional sign, then digits with an optional decimal point, at least one
 * digit in all. The value is an exact `real`.
 */
module Decimal {
  import opened Wrappers
  import opened Text

  predicate AllDigits(s: string) { forall i :: 0 <= i < |s| ==> IsDigit(s[i]) }

  function DigitValue(c: char): nat
    requires IsDigit(c)
  {
    c as int - '0' as int
  }

  /** The value of a string of decimal digits, most significant first. */
  function DigitsValue(s: string): nat
    requires AllDigits(s)
    decreases |s|
  {
    if s == [] then 0 else DigitsValue(s[..|s| - 1]) * 10 + DigitValue(s[|s| - 1])
  }

  function Pow10(k: nat): (r: nat)
    ensures r >= 1
  {
    if k == 0 then 1 else 10 * Pow10(k - 1)
  }

  /** The text after the decimal point, if there is one. */
  function Fraction(s: string): string {
    var dot := SeparatorIndex(s, '.');
    if dot < |s| then s[dot + 1..] else []
  }

  /** An unsigned numeral: `digits`, `digits.`, `.digits` or `digits.digits`. */
  predicate IsUnsignedNumeral(s: string) {
    var whole := s[..SeparatorIndex(s, '.')];
    AllDigits(whole) && AllDigits(Fraction(s)) && |whole| + |Fraction(s)| > 0
  }

  /** The value of an unsigned numeral: its whole part plus its fraction. */
  function UnsignedValue(s: string): (r: real)
    requires IsUnsignedNumeral(s)
    ensures r >= 0.0
  {
    var fraction := Fraction(s);
    DigitsValue(s[..SeparatorIndex(s, '.')]) as real + DigitsValue(fraction) as real / Pow10(|fraction|) as real
  }

  predicate HasSign(s: string) { |s| > 0 && (s[0] == '+' || s[0] == '-') }

  /** What float() accepts: an unsigned numeral, optionally after one sign. */
  predicate IsNumeral(s: string) {
    if HasSign(s) then IsUnsignedNumeral(s[1..]) else IsUnsignedNumeral(s)
  }

  /** float(s), with None standing for the ValueError Python raises. */
  function ParseDecimal(s: string): (r: Option<real>)
    ensures r.Some? <==> IsNumeral(s)
  {
    if HasSign(s) then
      if IsUnsignedNumeral(s[1..]) then
        var x := UnsignedValue(s[1..]);
        Some(if s[0] == '-' then -x else x)
      else None
    else if IsUnsignedNumeral(s) then Some(UnsignedValue(s))
    else None
  }

  /** The decimal digits of n, without leading zeros. */
  function NatText(n: nat): (r: string)
    ensures r != [] && AllDigits(r)
    decreases n
  {
    var last := ['0' + (n % 10) as char];
    if n < 10 then last else NatText(n / 10) + last
  }

  /** m printed in exactly k decimal digits, zero-padded on the left. */
  function PadText(m: nat, k: nat): (r: string)
    ensures |r| == k && AllDigits(r)
    decreases k
  {
    if k == 0 then [] else PadText(m / 10, k - 1) + ['0' + (m % 10) as char]
  }

  /**
   * The fixed-point text `w.f` with the fraction f printed in exactly k digits,
   * e.g. FixedText(18, 0, 1) == "18.0" and FixedText(3, 7, 1) == "3.7".
   */
  function FixedText(w: nat, f: nat, k: nat): string {
    NatText(w) + "." + PadText(f, k)
  }

  // ---------------------------------------------------------------------------
  // Properties
  // ---------------------------------------------------------------------------

  /** Every numeral float() accepts holds at least one digit. */
  lemma NumeralHasDigit(s: string)
    requires IsNumeral(s)
    ensures exists i :: 0 <= i < |s| && IsDigit(s[i])
  {
    var t := if |s| > 0 && (s[0] == '+' || s[0] == '-') then s[1..] else s;
    var dot := SeparatorIndex(t, '.');
    if dot > 0 {
      assert IsDigit(t[..dot][0]);
      assert IsDigit(s[|s| - |t|]);
    } else {
      assert IsDigit(t[dot + 1..][0]);
      assert IsDigit(s[|s| - |t| + dot + 1]);
    }
  }

  /** A lone sign is not a number: the flag tokens `+` and `-` never read as values. */
  lemma SignIsNotNumeral()
    ensures !IsNumeral("+") && !IsNumeral("-")
  {
    assert "+"[1..] == [];
    assert "-"[1..] == [];
  }

  lemma {:induction false} DigitsValueOfNatText(n: nat)
    ensures DigitsValue(NatText(n)) == n
    decreases n
  {
    var last := ['0' + (n % 10) as char];
    if n >= 10 {
      DigitsValueOfNatText(n / 10);
      var t := NatText(n / 10) + last;
      assert t[..|t| - 1] == NatText(n / 10);
    }
  }

  /** Printing a natural number in decimal and reading it back with float() gives it back. */
  lemma {:induction false} ParseNatText(n: nat)
    ensures ParseDecimal(NatText(n)) == Some(n as real)
    ensures ParseDecimal("-" + NatText(n)) == Some(-(n as real))
  {
    var s := NatText(n);
    DigitsValueOfNatText(n);
    assert SeparatorIndex(s, '.') == |s|;
    assert s[..|s|] == s;
    assert ("-" + s)[1..] == s;
  }

  lemma {:induction false} DigitsValueOfPadText(m: nat, k: nat)
    requires m < Pow10(k)
    ensures DigitsValue(PadText(m, k)) == m
    decreases k
  {
    if k > 0 {
      var t := PadText(m, k);
      DigitsValueOfPadText(m / 10, k - 1);
      assert t[..|t| - 1] == PadText(m / 10, k - 1);
    }
  }

  /**
   * Printing a number in fixed point with k fraction digits and reading it back
   * with float() gives it back exactly, with or without a minus sign: the
   * fractional values of a lab report, such as 18.0 or 3.7, round-trip.
   */
  lemma {:induction false} ParseFixedText(w: nat, f: nat, k: nat)
    requires f < Pow10(k)
    ensures ParseDecimal(FixedText(w, f, k)) == Some(w as real + f as real / Pow10(k) as real)
    ensures ParseDecimal("-" + FixedText(w, f, k)) == Some(-(w as real + f as real / Pow10(k) as real))
  {
    var s := FixedText(w, f, k);
    FixedTextParts(w, f, k);
    DigitsValueOfNatText(w);
    DigitsValueOfPadText(f, k);
    assert UnsignedValue(s) == w as real + f as real / Pow10(k) as real;
    assert ("-" + s)[1..] == s;
  }

  /** The fixed-point text has its whole part before its one decimal point and its fraction after it. */
  lemma FixedTextParts(w: nat, f: nat, k: nat)
    ensures var s := FixedText(w, f, k);
      !HasSign(s) && SeparatorIndex(s, '.') == |NatText(w)| &&
      s[..SeparatorIndex(s, '.')] == NatText(w) && Fraction(s) == PadText(f, k)
  {
    var whole, frac := NatText(w), PadText(f, k);
    var s := FixedText(w, f, k);
    assert s == whole + ['.'] + frac;
    assert forall i :: 0 <= i < |whole| ==> s[i] == whole[i] && s[i] != '.';
    assert s[|whole|] == '.';
    assert SeparatorIndex(s, '.') == |whole|;
    assert s[..|whole|] == whole && s[|whole| + 1..] == frac;
  }
}
