/**
 The text codec between std::wstring (16-bit units, surrogates paired or not) and the
 byte strings of the session file. It is UTF-8 (section 3 of RFC 3629) extended so that an
 unpaired surrogate is written as its own three bytes.

 The bit fields of the C++ code never overlap, so `0xc0 | code >> 6` is written
 `0xC0 + code / 64` and `0x80 | (code & 0x3f)` is written `0x80 + code % 64`.
 */
module Wtf8 {
  import opened Options

  type Unit = unit: int | 0 <= unit < 0x1_0000
  type WString = seq<Unit>

  predicate IsHigh(unit: int) { 0xD800 <= unit <= 0xDBFF }

  predicate IsLow(unit: int) { 0xDC00 <= unit <= 0xDFFF }

  function Combine(high: int, low: int): (code: int)
    requires IsHigh(high) && IsLow(low)
    ensures 0x1_0000 <= code < 0x11_0000
  {
    0x1_0000 + (high - 0xD800) * 0x400 + low - 0xDC00
  }

  /** The one to four bytes of a code point. */
  function EncodeScalar(code: int): (bytes: string)
    requires 0 <= code < 0x11_0000
    ensures 1 <= |bytes| <= 4
  {
    if code <= 0x7F then [code as char]
    else if code <= 0x7FF then [(0xC0 + code / 64) as char, (0x80 + code % 64) as char]
    else if code <= 0xFFFF then
      [(0xE0 + code / 4096) as char, (0x80 + code / 64 % 64) as char, (0x80 + code % 64) as char]
    else
      [(0xF0 + code / 0x4_0000) as char, (0x80 + code / 4096 % 64) as char,
       (0x80 + code / 64 % 64) as char, (0x80 + code % 64) as char]
  }

  /** As section 3 of RFC 3629 lays the bits out, in as few bytes as there can be. */
  lemma EncodingShape(code: int)
    requires 0 <= code < 0x11_0000
    ensures var b := EncodeScalar(code);
      && |b| == (if code < 0x80 then 1 else if code < 0x800 then 2 else if code < 0x1_0000 then 3 else 4)
      && (forall i | 1 <= i < |b| :: 0x80 <= b[i] as int < 0xC0)
      && (|b| == 1 ==> code == b[0] as int)
      && (|b| == 2 ==> 0xC0 <= b[0] as int < 0xE0 && code == (b[0] as int - 0xC0) * 0x40 + (b[1] as int - 0x80))
      && (|b| == 3 ==>
            && 0xE0 <= b[0] as int < 0xF0
            && code == ((b[0] as int - 0xE0) * 0x40 + (b[1] as int - 0x80)) * 0x40 + (b[2] as int - 0x80))
      && (|b| == 4 ==>
            && 0xF0 <= b[0] as int < 0xF8
            && code == (((b[0] as int - 0xF0) * 0x40 + (b[1] as int - 0x80)) * 0x40 + (b[2] as int - 0x80)) * 0x40
                       + (b[3] as int - 0x80))
  {
    var a, b, c := code % 0x40, code / 0x40 % 0x40, code / 0x1000 % 0x40;
    var high := code / 0x4_0000;
    assert code == code / 0x40 * 0x40 + a;
    assert code / 0x40 == code / 0x1000 * 0x40 + b;
    assert code / 0x1000 == high * 0x40 + c;
  }

  predicate StartsPair(text: WString) {
    |text| > 1 && IsHigh(text[0]) && IsLow(text[1])
  }

  function Utf8(text: WString): string {
    if text == [] then ""
    else if StartsPair(text) then EncodeScalar(Combine(text[0], text[1])) + Utf8(text[2..])
    else EncodeScalar(text[0]) + Utf8(text[1..])
  }

  /** The two halves of a pair are written as the one character they stand for, all else by itself. */
  lemma PairIsOne(high: Unit, low: Unit, rest: WString)
    requires IsHigh(high) && IsLow(low)
    ensures Utf8([high, low] + rest) == EncodeScalar(0x1_0000 + (high - 0xD800) * 0x400 + (low - 0xDC00)) + Utf8(rest)
    ensures Utf8([low] + rest) == EncodeScalar(low) + Utf8(rest)
    ensures rest != [] && !IsLow(rest[0]) ==> Utf8([high] + rest) == EncodeScalar(high) + Utf8(rest)
  {
    hide EncodeScalar;
    assert ([high, low] + rest)[2..] == rest && ([low] + rest)[1..] == rest && ([high] + rest)[1..] == rest;
  }

  /** The bytes that must follow a lead byte, and the lead byte's own bits. */
  function Lead(first: char): Option<(nat, nat)> {
    var value := first as int;
    if value <= 0x7F then Some((value, 0))
    else if 0xC0 <= value <= 0xDF then Some((value - 0xC0, 1))
    else if 0xE0 <= value <= 0xEF then Some((value - 0xE0, 2))
    else if 0xF0 <= value <= 0xF7 then Some((value - 0xF0, 3))
    else None
  }

  predicate IsContinuation(next: char) { 0x80 <= next as int <= 0xBF }

  function Fold(code: nat, tail: string): Option<nat>
    decreases |tail|
  {
    if tail == "" then Some(code)
    else if IsContinuation(tail[0]) then Fold(code * 64 + (tail[0] as int - 0x80), tail[1..])
    else None
  }

  /** The code point at the front of the text and the bytes it takes. */
  function Head(bytes: string): (head: Option<(nat, nat)>)
    requires bytes != ""
    ensures head.Some? ==> 0 < head.value.1 <= |bytes| && head.value.0 < 0x11_0000
  {
    match Lead(bytes[0])
    case None => None
    case Some((bits, remaining)) =>
      if 1 + remaining > |bytes| then None
      else
        match Fold(bits, bytes[1..1 + remaining])
        case None => None
        case Some(code) => if code > 0x10_FFFF then None else Some((code, 1 + remaining))
  }

  function Units(code: int): (units: WString)
    requires 0 <= code < 0x11_0000
    ensures 1 <= |units| <= 2
  {
    if code <= 0xFFFF then [code]
    else [0xD800 + (code - 0x1_0000) / 0x400, 0xDC00 + (code - 0x1_0000) % 0x400]
  }

  function Prepend(units: WString, rest: Option<WString>): Option<WString> {
    match rest
    case None => None
    case Some(tail) => Some(units + tail)
  }

  lemma PrependTwice(a: WString, b: WString, rest: Option<WString>)
    ensures Prepend([], rest) == rest
    ensures Prepend(a, Prepend(b, rest)) == Prepend(a + b, rest)
  {
    if rest.Some? {
      assert [] + rest.value == rest.value;
      assert a + (b + rest.value) == (a + b) + rest.value;
    }
  }

  function Wide(bytes: string): Option<WString>
    decreases |bytes|
  {
    if bytes == "" then Some([])
    else
      match Head(bytes)
      case None => None
      case Some((code, length)) => Prepend(Units(code), Wide(bytes[length..]))
  }

  lemma FoldStep(code: nat, next: char, tail: string)
    requires IsContinuation(next)
    ensures Fold(code, [next] + tail) == Fold(code * 64 + (next as int - 0x80), tail)
  {
    assert ([next] + tail)[1..] == tail;
  }

  lemma FoldTwo(code: int)
    requires 0x80 <= code <= 0x7FF
    ensures Fold(code / 64, EncodeScalar(code)[1..]) == Some(code)
  {
    var bytes := EncodeScalar(code);
    assert bytes[1..] == [bytes[1]] + "";
    FoldStep(code / 64, bytes[1], "");
  }

  lemma SixBits(code: int)
    requires 0 <= code
    ensures code / 4096 == code / 64 / 64 && code / 0x4_0000 == code / 4096 / 64
    ensures code / 64 * 64 + code % 64 == code
    ensures code / 4096 * 64 + code / 64 % 64 == code / 64
    ensures code / 0x4_0000 * 64 + code / 4096 % 64 == code / 4096
  {
  }

  lemma FoldThree(code: int)
    requires 0x800 <= code <= 0xFFFF
    ensures Fold(code / 4096, EncodeScalar(code)[1..]) == Some(code)
  {
    var bytes := EncodeScalar(code);
    assert bytes[1..] == [bytes[1]] + ([bytes[2]] + "");
    SixBits(code);
    FoldStep(code / 4096, bytes[1], [bytes[2]] + "");
    FoldStep(code / 64, bytes[2], "");
  }

  lemma FoldFour(code: int)
    requires 0x1_0000 <= code < 0x11_0000
    ensures Fold(code / 0x4_0000, EncodeScalar(code)[1..]) == Some(code)
  {
    var bytes := EncodeScalar(code);
    assert bytes[1..] == [bytes[1]] + ([bytes[2]] + ([bytes[3]] + ""));
    SixBits(code);
    FoldStep(code / 0x4_0000, bytes[1], [bytes[2]] + ([bytes[3]] + ""));
    FoldStep(code / 4096, bytes[2], [bytes[3]] + "");
    FoldStep(code / 64, bytes[3], "");
  }

  /** The lead byte of an encoding, its own bits, and how many bytes follow it. */
  lemma LeadOfEncoding(code: int)
    requires 0 <= code < 0x11_0000
    ensures Lead(EncodeScalar(code)[0]) ==
      Some((if code <= 0x7F then code else if code <= 0x7FF then code / 64
            else if code <= 0xFFFF then code / 4096 else code / 0x4_0000,
            |EncodeScalar(code)| - 1))
  {
  }

  lemma HeadOfEncoding(code: int, rest: string)
    requires 0 <= code < 0x11_0000
    ensures EncodeScalar(code) + rest != ""
    ensures Head(EncodeScalar(code) + rest) == Some((code, |EncodeScalar(code)|))
  {
    var encoded := EncodeScalar(code);
    var bytes := encoded + rest;
    LeadOfEncoding(code);
    assert bytes[0] == encoded[0];
    assert bytes[1..|encoded|] == encoded[1..];
    if code <= 0x7F {
      assert encoded[1..] == "";
    } else if code <= 0x7FF {
      FoldTwo(code);
    } else if code <= 0xFFFF {
      FoldThree(code);
    } else {
      FoldFour(code);
    }
  }

  lemma WideCons(code: int, rest: string)
    requires 0 <= code < 0x11_0000
    ensures Wide(EncodeScalar(code) + rest) == Prepend(Units(code), Wide(rest))
  {
    HeadOfEncoding(code, rest);
    assert (EncodeScalar(code) + rest)[|EncodeScalar(code)|..] == rest;
  }

  /** The code point at `i` and how many units it takes. */
  function ScalarAt(input: WString, i: nat): (scalar: (int, nat))
    requires i < |input|
    ensures 0 <= scalar.0 < 0x11_0000 && 1 <= scalar.1 <= |input| - i
  {
    if IsHigh(input[i]) && i + 1 < |input| && IsLow(input[i + 1]) then (Combine(input[i], input[i + 1]), 2)
    else (input[i], 1)
  }

  lemma Utf8At(input: WString, i: nat)
    requires i < |input|
    ensures var (code, taken) := ScalarAt(input, i);
      Utf8(input[i..]) == EncodeScalar(code) + Utf8(input[i + taken..])
  {
    var rest := input[i..];
    assert rest[1..] == input[i + 1..];
    if StartsPair(rest) {
      assert rest[2..] == input[i + 2..];
    }
  }

  lemma UnitsOfScalar(input: WString, i: nat)
    requires i < |input|
    ensures var (code, taken) := ScalarAt(input, i); Units(code) == input[i..i + taken]
  {
  }

  /** Every sequence of 16-bit units reads back, unpaired surrogates included. */
  lemma WideUtf8(text: WString)
    ensures Wide(Utf8(text)) == Some(text)
  {
    WideUtf8From(text, 0);
    assert text[0..] == text;
  }

  lemma {:induction false} WideUtf8From(text: WString, i: nat)
    requires i <= |text|
    ensures Wide(Utf8(text[i..])) == Some(text[i..])
    decreases |text| - i
  {
    if i < |text| {
      var (code, taken) := ScalarAt(text, i);
      WideUtf8From(text, i + taken);
      Utf8At(text, i);
      UnitsOfScalar(text, i);
      WideCons(code, Utf8(text[i + taken..]));
      assert text[i..] == text[i..i + taken] + text[i + taken..];
    }
  }

  lemma Utf8Injective(a: WString, b: WString)
    requires Utf8(a) == Utf8(b)
    ensures a == b
  {
    WideUtf8(a);
    WideUtf8(b);
  }

  lemma Regroup(a: string, b: string, c: string)
    ensures (a + b) + c == a + (b + c)
  {
  }

  /** utf8() as written: one pass that skips the low half of a surrogate pair. */
  method ToUtf8(input: WString) returns (result: string)
    ensures result == Utf8(input)
  {
    result := "";
    var i := 0;
    assert input[0..] == input;
    while i < |input|
      invariant 0 <= i <= |input|
      invariant result + Utf8(input[i..]) == Utf8(input)
    {
      var code: int := input[i];
      ghost var start := i;
      if IsHigh(code) && i + 1 < |input| {
        var low := input[i + 1];
        if IsLow(low) {
          code := Combine(code, low);
          i := i + 1;
        }
      }
      assert (code, i + 1 - start) == ScalarAt(input, start);
      Utf8At(input, start);
      Regroup(result, EncodeScalar(code), Utf8(input[i + 1..]));
      result := result + EncodeScalar(code);
      i := i + 1;
    }
  }

  /** The continuation bytes after a lead byte. */
  method FoldBytes(input: string, from: nat, bits: nat, remaining: nat) returns (code: Option<nat>)
    requires from + remaining <= |input|
    ensures code == Fold(bits, input[from..from + remaining])
  {
    var value: nat := bits;
    ghost var tail := input[from..from + remaining];
    assert tail[0..] == tail;
    for n := 0 to remaining
      invariant Fold(bits, tail) == Fold(value, tail[n..])
    {
      var next := input[from + n];
      assert tail[n..][0] == next && tail[n..][1..] == tail[n + 1..];
      if !IsContinuation(next) { return None; }
      value := value * 64 + (next as int - 0x80);
    }
    return Some(value);
  }

  /** wide() as written: a lead byte, its continuation bytes, then one or two units. */
  method ToWide(input: string) returns (result: Option<WString>)
    ensures result == Wide(input)
  {
    hide Units, Fold, Lead;
    var units: WString := [];
    var i := 0;
    assert input[0..] == input;
    PrependTwice([], [], Wide(input));
    while i < |input|
      invariant 0 <= i <= |input|
      invariant Wide(input) == Prepend(units, Wide(input[i..]))
    {
      ghost var bytes := input[i..];
      var lead := Lead(input[i]);
      if lead.None? { return None; }
      var remaining := lead.value.1;
      if i + 1 + remaining > |input| { return None; }
      var code := FoldBytes(input, i + 1, lead.value.0, remaining);
      assert bytes[1..1 + remaining] == input[i + 1..i + 1 + remaining];
      if code.None? || code.value > 0x10_FFFF { return None; }
      i := i + 1 + remaining;
      assert bytes[1 + remaining..] == input[i..];
      PrependTwice(units, Units(code.value), Wide(input[i..]));
      units := Append(units, code.value);
    }
    assert units + [] == units;
    return Some(units);
  }

  /** One unit, or the two halves of a surrogate pair. */
  method Append(units: WString, code: nat) returns (result: WString)
    requires code < 0x11_0000
    ensures result == units + Units(code)
  {
    if code <= 0xFFFF { return units + [code]; }
    result := units + [0xD800 + (code - 0x1_0000) / 0x400];
    result := result + [0xDC00 + (code - 0x1_0000) % 0x400];
  }
}
