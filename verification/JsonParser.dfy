/** class Parser of src/core/session.cpp: one position that moves over the text. */
module JsonParser {
  import opened Options
  import opened JsonTree
  import opened JsonGrammar
  import opened JsonReader
  import Wtf8

  class Parser {
    const text: string
    const format: NumberFormat
    var position: nat

    constructor (text: string, format: NumberFormat)
      ensures this.text == text && this.format == format && Valid() && Left() == text
    {
      this.text := text;
      this.format := format;
      position := 0;
      new;
      assert text[0..] == text;
    }

    ghost predicate Valid()
      reads this
    {
      position <= |text|
    }

    /** The text still to be read. */
    ghost function Left(): string
      requires Valid()
      reads this
    {
      text[position..]
    }

    /** A method found what the reading function says, and stopped where it says. */
    ghost predicate Found<T>(expected: Option<(T, string)>, found: Option<T>)
      reads this
    {
      && Valid()
      && match expected
         case None => found == None
         case Some((value, rest)) => found == Some(value) && Left() == rest
    }

    method ParseAll() returns (result: Option<Json>)
      requires Valid()
      modifies this`position
      ensures result == Parse(format, old(Left()))
    {
      result := Value();
      if result.None? { return; }
      Whitespace();
      if position != |text| { return None; }
    }

    method Whitespace()
      requires Valid()
      modifies this`position
      ensures Valid() && Left() == SkipSpace(old(Left()))
    {
      while position < |text| && IsSpace(text[position])
        invariant Valid() && SkipSpace(Left()) == SkipSpace(old(Left()))
        decreases |text| - position
      {
        Advance(1);
        position := position + 1;
      }
    }

    /** Moving the position on drops characters from the text left. */
    lemma Advance(count: nat)
      requires position + count <= |text|
      ensures text[position..][count..] == text[position + count..]
      ensures forall i | 0 <= i < count :: text[position..][i] == text[position + i]
    {
    }

    method Take(expected: char) returns (taken: bool)
      requires Valid()
      modifies this`position
      ensures Valid()
      ensures taken == StartsWith(SkipSpace(old(Left())), expected)
      ensures Left() == if taken then SkipSpace(old(Left()))[1..] else SkipSpace(old(Left()))
    {
      Whitespace();
      if position == |text| || text[position] != expected { return false; }
      Advance(1);
      position := position + 1;
      return true;
    }

    method Value() returns (result: Option<Json>)
      requires Valid()
      modifies this`position
      ensures Found(ReadValue(format, old(Left())), result)
      decreases |text| - position, 2
    {
      Whitespace();
      if position == |text| { return None; }
      ghost var rest := Left();
      assert SkipSpace(rest) == rest;
      if text[position] == '"' {
        var token := String();
        if token.Some? { return Some(Json.String(token.value)); }
        return None;
      }
      if text[position] == '{' { result := Object(); return; }
      if text[position] == '[' { result := Array(); return; }
      if "true" <= text[position..] {
        Advance(4);
        position := position + 4;
        return Some(Bool(true));
      }
      if "false" <= text[position..] {
        Advance(5);
        position := position + 5;
        return Some(Bool(false));
      }
      if "null" <= text[position..] {
        Advance(4);
        position := position + 4;
        return Some(Null);
      }
      result := Number();
    }

    /** The four hexadecimal digits at the position, as std::from_chars reads them. */
    method Hex4() returns (code: Option<nat>)
      requires position + 4 <= |text|
      ensures code == if IsHex4(Left()[..4]) then Some(HexValue(Left()[..4])) else None
    {
      var digits := text[position..position + 4];
      assert digits == Left()[..4];
      if !IsHex4(digits) { return None; }
      return Some(HexValue(digits));
    }

    /** The escape after a backslash. */
    method Escape() returns (result: Option<string>)
      requires Valid()
      modifies this`position
      ensures Found(ReadEscape(old(Left())), result)
    {
      if position == |text| { return None; }
      var escaped := text[position];
      Advance(1);
      if escaped == 'u' {
        result := UnicodeEscape();
        return;
      }
      position := position + 1;
      var value := ShortValue(escaped);
      if value.None? { return None; }
      return Some([value.value]);
    }

    /** `u` and four digits, then for a high surrogate the escaped low one. */
    method UnicodeEscape() returns (result: Option<string>)
      requires Valid() && StartsWith(Left(), 'u')
      modifies this`position
      ensures Found(ReadEscape(old(Left())), result)
    {
      ghost var start := Left();
      Advance(1);
      position := position + 1;
      if position + 4 > |text| { return None; }
      var first := Hex4();
      assert Left()[..4] == start[1..5];
      if first.None? { return None; }
      var code := first.value;
      Advance(4);
      position := position + 4;
      assert Left() == start[5..];
      if Wtf8.IsHigh(code) {
        var low := LowSurrogate();
        PairAt(start);
        if low.None? { return None; }
        code := Wtf8.Combine(code, low.value);
      } else if Wtf8.IsLow(code) {
        return None;
      }
      return Some(Wtf8.EncodeScalar(code));
    }

    /** The text after the first escape of a pair, seen from the first escape. */
    static lemma PairAt(start: string)
      requires |start| >= 5
      ensures var rest := start[5..];
        |start| >= 11 ==>
          rest[0] == start[5] && rest[1] == start[6] && rest[2..6] == start[7..11] && rest[6..] == start[11..]
    {
    }

    /** An escaped low surrogate. */
    method LowSurrogate() returns (low: Option<nat>)
      requires Valid()
      modifies this`position
      ensures Valid()
      ensures var s := old(Left());
        if |s| < 6 || s[0] != '\\' || s[1] != 'u' || !IsHex4(s[2..6]) || !Wtf8.IsLow(HexValue(s[2..6])) then low == None
        else low == Some(HexValue(s[2..6])) && Left() == s[6..]
    {
      ghost var s := Left();
      if position + 6 > |text| || text[position] != '\\' || text[position + 1] != 'u' { return None; }
      Advance(2);
      position := position + 2;
      low := Hex4();
      assert Left()[..4] == s[2..6];
      if low.None? || !Wtf8.IsLow(low.value) { return None; }
      Advance(4);
      position := position + 4;
      assert Left() == s[6..];
    }

    method String() returns (result: Option<string>)
      requires Valid()
      modifies this`position
      ensures Found(ReadString(old(Left())), result)
    {
      var begun := Take('"');
      if !begun { return None; }
      var read := "";
      ghost var expected := ReadString(old(Left()));
      while position < |text|
        invariant Valid() && ReadChars(Left(), read) == expected
        decreases |text| - position
      {
        var ch := text[position];
        Advance(1);
        position := position + 1;
        if ch == '"' { return Some(read); }
        if ch < ' ' { return None; }
        if ch != '\\' {
          read := read + [ch];
        } else {
          var escape := Escape();
          if escape.None? { return None; }
          read := read + escape.value;
        }
      }
      return None;
    }

    /** One run of digits. */
    method Digits() returns (ghost count: nat)
      requires Valid()
      modifies this`position
      ensures Valid() && count == DigitRun(old(Left())) && position == old(position) + count
    {
      count := 0;
      while position < |text| && IsDigit(text[position])
        invariant Valid() && position == old(position) + count
        invariant DigitRun(old(Left())) == count + DigitRun(Left())
        decreases |text| - position
      {
        Advance(1);
        position := position + 1;
        count := count + 1;
      }
    }

    /** A part of the number that starts at `start` ended where the scanner says. */
    ghost predicate Scanned(end: Option<nat>, start: nat, ok: bool)
      reads this
    {
      && Valid()
      && ok == end.Some?
      && (ok ==> position == start + end.value)
    }

    method IntegerPart(ghost start: nat) returns (ok: bool)
      requires start <= position && Valid()
      modifies this`position
      ensures Scanned(ScanInteger(text[start..], old(position) - start), start, ok)
    {
      if position == |text| { return false; }
      assert text[start..][position - start] == text[position];
      if text[position] == '0' {
        position := position + 1;
        return true;
      }
      if text[position] < '1' || text[position] > '9' { return false; }
      assert Left() == text[start..][position - start..];
      ghost var count := Digits();
      return true;
    }

    method FractionPart(ghost start: nat) returns (ok: bool)
      requires start <= position && Valid()
      modifies this`position
      ensures Scanned(ScanFraction(text[start..], old(position) - start), start, ok)
    {
      assert position < |text| ==> text[start..][position - start] == text[position];
      if position < |text| && text[position] == '.' {
        position := position + 1;
        var digits := position;
        assert Left() == text[start..][position - start..];
        ghost var count := Digits();
        if digits == position { return false; }
      }
      return true;
    }

    method ExponentPart(ghost start: nat) returns (ok: bool)
      requires start <= position && Valid()
      modifies this`position
      ensures Scanned(ScanExponent(text[start..], old(position) - start), start, ok)
    {
      assert position < |text| ==> text[start..][position - start] == text[position];
      if position < |text| && (text[position] == 'e' || text[position] == 'E') {
        position := position + 1;
        assert position < |text| ==> text[start..][position - start] == text[position];
        if position < |text| && (text[position] == '+' || text[position] == '-') { position := position + 1; }
        var digits := position;
        assert Left() == text[start..][position - start..];
        ghost var count := Digits();
        if digits == position { return false; }
      }
      return true;
    }

    /** The fraction and the exponent. */
    method LexemeRest(ghost start: nat) returns (ok: bool)
      requires start < position && Valid()
      modifies this`position
      ensures Scanned(ScanFrom(text[start..], Some(old(position) - start)), start, ok)
    {
      hide ScanFraction, ScanExponent;
      ghost var s := text[start..];
      ghost var from: nat := position - start;
      ok := FractionPart(start);
      if !ok {
        assert ScanFraction(s, from) == None;
        return;
      }
      ghost var fraction: nat := position - start;
      assert ScanFraction(s, from) == Some(fraction);
      ok := ExponentPart(start);
      assert ScanFrom(s, Some(from)) == ScanExponent(s, fraction);
    }

    /** The whole lexeme, from an optional minus sign on. */
    method Lexeme() returns (ok: bool)
      requires Valid()
      modifies this`position
      ensures Scanned(ScanNumber(old(Left())), old(position), ok)
    {
      ghost var start := position;
      ghost var s := text[start..];
      assert position < |text| ==> s[0] == text[position];
      if position < |text| && text[position] == '-' { position := position + 1; }
      ghost var sign: nat := position - start;
      assert sign == SignLength(s);
      ok := IntegerPart(start);
      if !ok { return; }
      assert ScanInteger(s, sign) == Some(position - start);
      ok := LexemeRest(start);
    }

    method Number() returns (result: Option<Json>)
      requires Valid() && SkipSpace(Left()) == Left()
      modifies this`position
      ensures Found(ReadNumber(format, old(Left())), result)
    {
      Whitespace();
      var start := position;
      ghost var s := Left();
      assert s == old(Left());
      var ok := Lexeme();
      if !ok { return None; }
      assert text[start..position] == s[..position - start];
      var printed := format(text[start..position]);
      if printed.None? { return None; }
      assert Left() == s[position - start..];
      return Some(Json.Number(printed.value));
    }

    method Array() returns (result: Option<Json>)
      requires Valid() && StartsWith(Left(), '[')
      modifies this`position
      ensures Found(ReadArray(format, old(Left())), result)
      decreases |text| - position, 1
    {
      ghost var s := Left();
      var begun := Take('[');
      assert SkipSpace(s) == s;
      var items: seq<Json> := [];
      Whitespace();
      ghost var inside := Left();
      var closed := Take(']');
      if closed { return Some(Json.Array(items)); }
      ghost var expected := ReadItems(format, inside, []);
      while true
        invariant Valid() && position > old(position)
        invariant ReadItems(format, Left(), items) == expected
        decreases |text| - position
      {
        ghost var before := position;
        var item := Value();
        if item.None? { return None; }
        items := items + [item.value];
        Whitespace();
        closed := Take(']');
        if closed { return Some(Json.Array(items)); }
        var comma := Take(',');
        if !comma { return None; }
        assert position > before;
      }
    }

    method Object() returns (result: Option<Json>)
      requires Valid() && StartsWith(Left(), '{')
      modifies this`position
      ensures Found(ReadObject(format, old(Left())), result)
      decreases |text| - position, 1
    {
      ghost var s := Left();
      assert SkipSpace(s) == s;
      hide ReadString, ReadValue, ReadArray, ReadItems, ReadNumber, ReadChars, SkipSpace, IsSpace;
      var begun := Take('{');
      var fields: map<string, Json> := map[];
      Whitespace();
      ghost var inside := Left();
      var closed := Take('}');
      if closed { return Some(Json.Object(fields)); }
      ghost var expected := ReadMembers(format, inside, map[]);
      while true
        invariant Valid() && position > old(position)
        invariant ReadMembers(format, Left(), fields) == expected
        decreases |text| - position
      {
        ghost var before, here := position, Left();
        var key := String();
        if key.None? { return None; }
        assert Left() == ReadString(here).value.1;
        var colon := Take(':');
        if !colon { return None; }
        assert Left() == SkipSpace(ReadString(here).value.1)[1..];
        var item := Value();
        if item.None? || key.value in fields { return None; }
        fields := fields[key.value := item.value];
        Whitespace();
        closed := Take('}');
        if closed { return Some(Json.Object(fields)); }
        var comma := Take(',');
        if !comma { return None; }
        assert position > before;
      }
    }
  }
}
