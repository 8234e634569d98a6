/**
 What a stored divider ratio means: the real number its text spells, and that a ratio is a number from 0 to 1
 (`is_valid()` of src/core/model.cpp compares doubles; here the comparison is exact).
 */
module RatioText {
  import opened JsonGrammar
  import opened Decimals
  import opened Model

  function PowerOf(exponent: int): real {
    if exponent >= 0 then PowerOfTen(exponent) as real else 1.0 / PowerOfTen(-exponent) as real
  }

  /** The number a text [-] digits [. digits] [e [sign] digits] stands for. */
  function ValueOf(lexeme: Double): real {
    var (mantissa, scale) := Scientific(lexeme);
    mantissa as real * PowerOf(scale)
  }

  lemma RatioMeans(lexeme: Double)
    ensures IsRatio(lexeme) <==> 0.0 <= ValueOf(lexeme) <= 1.0
  {
    var (mantissa, scale) := Scientific(lexeme);
    hide Scientific;
    if scale >= 0 {
      WholeBounds(mantissa, PowerOfTen(scale));
    } else {
      QuotientBounds(mantissa, PowerOfTen(-scale));
    }
    hide PowerOfTen;
  }

  lemma WholeBounds(mantissa: int, power: int)
    requires power > 0
    ensures 0.0 <= mantissa as real * power as real <= 1.0 <==> mantissa >= 0 && mantissa * power <= 1
  {
    assert mantissa as real * power as real == (mantissa * power) as real;
    if mantissa < 0 {
      assert mantissa * power < 0;
    }
  }

  lemma QuotientBounds(mantissa: int, power: int)
    requires power > 0
    ensures 0.0 <= mantissa as real * (1.0 / power as real) <= 1.0 <==> 0 <= mantissa <= power
  {
    var q := mantissa as real * (1.0 / power as real);
    assert q * power as real == mantissa as real;
  }

  // ----- How the text is taken apart

  lemma {:induction false} IndexAfter(prefix: string, letters: string, rest: string)
    requires forall c | c in prefix :: c !in letters
    requires rest != "" ==> rest[0] in letters
    ensures IndexOf(prefix + rest, letters) == |prefix|
  {
    if prefix == "" {
      assert prefix + rest == rest;
    } else {
      assert (prefix + rest)[1..] == prefix[1..] + rest;
      IndexAfter(prefix[1..], letters, rest);
    }
  }

  function Sign(minus: bool): string { if minus then "-" else "" }

  function Signed(minus: bool, magnitude: nat): int { if minus then -(magnitude as int) else magnitude }

  lemma SignedReads(minus: bool, digits: string)
    requires digits != "" && AllDigits(digits)
    ensures SignedValue(Sign(minus) + digits) == Signed(minus, DigitsValue(digits))
    ensures SignedValue("+" + digits) == DigitsValue(digits)
  {
    var text := Sign(minus) + digits;
    assert digits[0] in digits;
    assert ("+" + digits)[1..] == digits;
    if minus {
      assert text[1..] == digits;
    } else {
      assert text == digits;
    }
    hide DigitsValue;
  }

  /** A mantissa with or without a fraction, and an exponent of either sign or none. */
  lemma ScientificReads(minus: bool, integer: string, fraction: string, down: bool, exponent: string)
    requires integer != "" && AllDigits(integer) && AllDigits(fraction) && AllDigits(exponent)
    ensures var plain := Sign(minus) + integer + if fraction == "" then "" else "." + fraction;
      var text := plain + if exponent == "" then "" else "e" + (Sign(down) + exponent);
      Scientific(text)
      == (Signed(minus, DigitsValue(integer + fraction)),
          (if exponent == "" then 0 else Signed(down, DigitsValue(exponent))) - |fraction|)
  {
    hide IndexOf, SignedValue, DigitsValue;
    var whole := Sign(minus) + integer;
    WholeText(minus, integer, fraction);
    hide AllDigits;
    MantissaReads(whole, fraction);
    ExponentReads(whole + if fraction == "" then "" else "." + fraction, down, exponent);
    SignedReads(minus, integer + fraction);
  }

  lemma WholeText(minus: bool, integer: string, fraction: string)
    requires AllDigits(integer) && AllDigits(fraction)
    ensures forall c | c in Sign(minus) + integer :: IsDigit(c) || c == '-'
    ensures (Sign(minus) + integer) + fraction == Sign(minus) + (integer + fraction) && AllDigits(integer + fraction)
  {
  }

  lemma MantissaReads(whole: string, fraction: string)
    requires forall c | c in whole :: IsDigit(c) || c == '-'
    requires AllDigits(fraction)
    ensures var plain := whole + if fraction == "" then "" else "." + fraction;
      var point := IndexOf(plain, ".");
      && plain[..point] == whole && (if point < |plain| then plain[point + 1..] else "") == fraction
      && forall c | c in plain :: c !in "eE"
  {
    var plain := whole + if fraction == "" then "" else "." + fraction;
    NoLetters(whole);
    PlainHasNoExponent(whole, fraction);
    IndexAfter(whole, ".", if fraction == "" then "" else "." + fraction);
    hide IndexOf;
  }

  lemma ExponentReads(plain: string, down: bool, exponent: string)
    requires (forall c | c in plain :: c !in "eE") && AllDigits(exponent)
    ensures var text := plain + if exponent == "" then "" else "e" + (Sign(down) + exponent);
      var e := IndexOf(text, "eE");
      && text[..e] == plain
      && (if e < |text| then SignedValue(text[e + 1..]) else 0)
         == if exponent == "" then 0 else Signed(down, DigitsValue(exponent))
  {
    var tail := if exponent == "" then "" else "e" + (Sign(down) + exponent);
    var text := plain + tail;
    IndexAfter(plain, "eE", tail);
    hide IndexOf, SignedValue, DigitsValue;
    if exponent != "" {
      assert text[|plain| + 1..] == Sign(down) + exponent;
      SignedReads(down, exponent);
    }
  }

  lemma NoLetters(whole: string)
    requires forall c | c in whole :: IsDigit(c) || c == '-'
    ensures forall c | c in whole :: c !in "eE" && c !in "."
  {
  }

  lemma PlainHasNoExponent(whole: string, fraction: string)
    requires (forall c | c in whole :: IsDigit(c) || c == '-') && AllDigits(fraction)
    ensures forall c | c in whole + (if fraction == "" then "" else "." + fraction) :: c !in "eE"
  {
  }
}
