/**
 What class Parser of src/core/session.cpp computes, as functions from the text still to be
 read to the value read and the text left. `JsonParser` holds the parser itself.
 */
module JsonReader {
  import opened Options
  import opened JsonTree
  import opened JsonGrammar
  import Wtf8

  function SkipSpace(s: string): (rest: string)
    ensures |rest| <= |s|
    ensures rest != "" ==> !IsSpace(rest[0])
  {
    if s != "" && IsSpace(s[0]) then SkipSpace(s[1..]) else s
  }

  predicate StartsWith(s: string, c: char) { s != "" && s[0] == c }

  // ----- Numbers

  function DigitRun(s: string): (count: nat)
    ensures count <= |s| && AllDigits(s[..count])
    ensures count < |s| ==> !IsDigit(s[count])
  {
    if s != "" && IsDigit(s[0]) then
      var rest := DigitRun(s[1..]);
      assert s[..1 + rest] == [s[0]] + s[1..][..rest];
      1 + rest
    else 0
  }

  /** Index after the integer part that starts at `from`. */
  function ScanInteger(s: string, from: nat): (end: Option<nat>)
    requires from <= |s|
    ensures end.Some? ==> from < end.value <= |s|
  {
    if from == |s| then None
    else if s[from] == '0' then Some(from + 1)
    else if '1' <= s[from] <= '9' then Some(from + DigitRun(s[from..]))
    else None
  }

  function ScanFraction(s: string, from: nat): (end: Option<nat>)
    requires from <= |s|
    ensures end.Some? ==> from <= end.value <= |s|
  {
    if from < |s| && s[from] == '.' then
      var count := DigitRun(s[from + 1..]);
      if count == 0 then None else Some(from + 1 + count)
    else Some(from)
  }

  function ScanExponent(s: string, from: nat): (end: Option<nat>)
    requires from <= |s|
    ensures end.Some? ==> from <= end.value <= |s|
  {
    if from < |s| && (s[from] == 'e' || s[from] == 'E') then
      var digits := if from + 1 < |s| && (s[from + 1] == '+' || s[from + 1] == '-') then from + 2 else from + 1;
      var count := DigitRun(s[digits..]);
      if count == 0 then None else Some(digits + count)
    else Some(from)
  }

  function ScanFrom(s: string, integer: Option<nat>): (length: Option<nat>)
    requires integer.Some? ==> 0 < integer.value <= |s|
    ensures length.Some? ==> 0 < length.value <= |s|
  {
    match integer
    case None => None
    case Some(from) =>
      match ScanFraction(s, from)
      case None => None
      case Some(fraction) => ScanExponent(s, fraction)
  }

  function SignLength(s: string): (length: nat)
    ensures length <= |s|
  {
    if StartsWith(s, '-') then 1 else 0
  }

  /** The length of the number at the front of the text. */
  function ScanNumber(s: string): (length: Option<nat>)
    ensures length.Some? ==> 0 < length.value <= |s|
  {
    ScanFrom(s, ScanInteger(s, SignLength(s)))
  }

  function ReadNumber(format: NumberFormat, s: string): (result: Option<(Json, string)>)
    ensures result.Some? ==> |result.value.1| < |s|
  {
    match ScanNumber(s)
    case None => None
    case Some(length) =>
      match format(s[..length])
      case None => None
      case Some(printed) => Some((Number(printed), s[length..]))
  }

  // ----- Strings

  /** The escape whose backslash has just been read. */
  function ReadEscape(s: string): (result: Option<(string, string)>)
    ensures result.Some? ==> |result.value.1| < |s|
  {
    if s == "" then None
    else if s[0] == 'u' then
      if |s| < 5 || !IsHex4(s[1..5]) then None
      else
        var code := HexValue(s[1..5]);
        if Wtf8.IsHigh(code) then
          if |s| < 11 || s[5] != '\\' || s[6] != 'u' || !IsHex4(s[7..11]) || !Wtf8.IsLow(HexValue(s[7..11])) then None
          else Some((Wtf8.EncodeScalar(Wtf8.Combine(code, HexValue(s[7..11]))), s[11..]))
        else if Wtf8.IsLow(code) then None
        else Some((Wtf8.EncodeScalar(code), s[5..]))
    else
      match ShortValue(s[0])
      case None => None
      case Some(c) => Some(([c], s[1..]))
  }

  /** The rest of a string token whose characters so far are `read`. */
  function ReadChars(s: string, read: string): (result: Option<(string, string)>)
    ensures result.Some? ==> |result.value.1| < |s|
    decreases |s|
  {
    if s == "" then None
    else if s[0] == '"' then Some((read, s[1..]))
    else if s[0] < ' ' then None
    else if s[0] != '\\' then ReadChars(s[1..], read + [s[0]])
    else
      match ReadEscape(s[1..])
      case None => None
      case Some((value, rest)) => ReadChars(rest, read + value)
  }

  function ReadString(s: string): (result: Option<(string, string)>)
    ensures result.Some? ==> |result.value.1| < |s|
  {
    var token := SkipSpace(s);
    if StartsWith(token, '"') then ReadChars(token[1..], "") else None
  }

  // ----- Values

  function ReadValue(format: NumberFormat, s: string): (result: Option<(Json, string)>)
    ensures result.Some? ==> |result.value.1| < |s|
    decreases |s|, 2
  {
    var token := SkipSpace(s);
    if token == "" then None
    else if token[0] == '"' then
      match ReadString(token)
      case None => None
      case Some((text, rest)) => Some((String(text), rest))
    else if token[0] == '{' then ReadObject(format, token)
    else if token[0] == '[' then ReadArray(format, token)
    else if "true" <= token then Some((Bool(true), token[4..]))
    else if "false" <= token then Some((Bool(false), token[5..]))
    else if "null" <= token then Some((Null, token[4..]))
    else ReadNumber(format, token)
  }

  function ReadArray(format: NumberFormat, s: string): (result: Option<(Json, string)>)
    requires StartsWith(s, '[')
    ensures result.Some? ==> |result.value.1| < |s|
    decreases |s|, 1
  {
    var inside := SkipSpace(s[1..]);
    if StartsWith(inside, ']') then Some((Array([]), inside[1..]))
    else ReadItems(format, inside, [])
  }

  function ReadItems(format: NumberFormat, s: string, read: seq<Json>): (result: Option<(Json, string)>)
    ensures result.Some? ==> |result.value.1| < |s|
    decreases |s|, 3
  {
    match ReadValue(format, s)
    case None => None
    case Some((value, rest)) =>
      var after := SkipSpace(rest);
      if StartsWith(after, ']') then Some((Array(read + [value]), after[1..]))
      else if StartsWith(after, ',') then ReadItems(format, after[1..], read + [value])
      else None
  }

  function ReadObject(format: NumberFormat, s: string): (result: Option<(Json, string)>)
    requires StartsWith(s, '{')
    ensures result.Some? ==> |result.value.1| < |s|
    decreases |s|, 1
  {
    var inside := SkipSpace(s[1..]);
    if StartsWith(inside, '}') then Some((Object(map[]), inside[1..]))
    else ReadMembers(format, inside, map[])
  }

  function ReadMembers(format: NumberFormat, s: string, read: map<string, Json>): (result: Option<(Json, string)>)
    ensures result.Some? ==> |result.value.1| < |s|
    decreases |s|, 3
  {
    match ReadString(s)
    case None => None
    case Some((key, afterKey)) =>
      var colon := SkipSpace(afterKey);
      if !StartsWith(colon, ':') then None
      else
        match ReadValue(format, colon[1..])
        case None => None
        case Some((value, rest)) =>
          if key in read then None
          else
            var after := SkipSpace(rest);
            if StartsWith(after, '}') then Some((Object(read[key := value]), after[1..]))
            else if StartsWith(after, ',') then ReadMembers(format, after[1..], read[key := value])
            else None
  }

  /** Parser::parse: one value and nothing after it but white space. */
  function Parse(format: NumberFormat, text: string): Option<Json> {
    match ReadValue(format, text)
    case None => None
    case Some((value, rest)) => if SkipSpace(rest) == "" then Some(value) else None
  }
}
