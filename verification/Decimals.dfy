/** std::to_string and the decimal texts std::from_chars reads back. */
module Decimals {
  import opened JsonGrammar

  function Digits(n: nat): (digits: string)
    ensures digits != "" && AllDigits(digits)
  {
    if n < 10 then ['0' + n as char] else Digits(n / 10) + ['0' + (n % 10) as char]
  }

  function Decimal(n: int): string {
    if n < 0 then "-" + Digits(-n) else Digits(n)
  }

  /** The value of a run of digits, read from the left. */
  function DigitsValue(s: string): (value: nat)
    requires AllDigits(s)
  {
    if s == "" then 0
    else
      assert s[|s| - 1] in s;
      DigitsValue(s[..|s| - 1]) * 10 + (s[|s| - 1] as int - '0' as int)
  }

  lemma {:induction false} DigitsRead(n: nat)
    ensures DigitsValue(Digits(n)) == n
  {
    var digits := Digits(n);
    if n < 10 {
      assert digits[..0] == "";
    } else {
      DigitsRead(n / 10);
      assert digits[..|digits| - 1] == Digits(n / 10);
    }
  }

  lemma {:induction false} DigitsInjective(a: nat, b: nat)
    requires Digits(a) == Digits(b)
    ensures a == b
  {
    DigitsRead(a);
    DigitsRead(b);
  }

  lemma {:induction false} FirstDigit(n: nat)
    requires n > 0
    ensures '1' <= Digits(n)[0] <= '9'
  {
    if n >= 10 {
      FirstDigit(n / 10);
    }
  }

  lemma NoSign(n: nat)
    ensures Digits(n)[0] != '-'
  {
    assert Digits(n)[0] in Digits(n);
  }

  /** A decimal text is a number of section 6 of RFC 8259. */
  lemma DecimalIsNumber(n: int)
    ensures IsNumber(Decimal(n))
  {
    var magnitude := if n < 0 then -n else n;
    var integer := Digits(magnitude);
    if magnitude > 0 {
      FirstDigit(magnitude);
    }
    var minus := if n < 0 then "-" else "";
    assert NumberParts(minus, integer, "", "");
    assert Decimal(n) == minus + integer + "" + "";
  }
}
