/** src/core/columns.h: the columns of the Details view and the text they are stored as. */
module Columns {
  import opened Options
  import opened Decimals
  import JsonGrammar
  import JsonReader
  import JsonTokenProofs
  import Arithmetic
  import Vectors

  datatype ColumnSpec = ColumnSpec(id: string, width: int)

  /** kKnownColumns: ids and default widths. */
  const KNOWN: seq<ColumnSpec> := [
    ColumnSpec("name", 320), ColumnSpec("size", 160), ColumnSpec("date", 180), ColumnSpec("type", 160),
    ColumnSpec("duration", 120), ColumnSpec("availability", 200)]

  const MIN_WIDTH := 24
  const MAX_WIDTH := 4000
  const INT_MIN := -0x8000_0000
  const INT_MAX := 0x7FFF_FFFF

  function At(columns: seq<ColumnSpec>, id: string): (i: nat)
    ensures i <= |columns| && (i < |columns| ==> columns[i].id == id)
    ensures forall j | 0 <= j < i :: columns[j].id != id
  {
    Vectors.Find(columns, id, (column: ColumnSpec) => column.id)
  }

  /** column_visible(). */
  predicate Has(columns: seq<ColumnSpec>, id: string) {
    At(columns, id) < |columns|
  }

  predicate IsKnown(id: string) { Has(KNOWN, id) }

  function DefaultWidth(id: string): int {
    if IsKnown(id) then KNOWN[At(KNOWN, id)].width else 100
  }

  /** default_columns(). */
  function Defaults(): seq<ColumnSpec> {
    [ColumnSpec("name", DefaultWidth("name")), ColumnSpec("date", DefaultWidth("date")),
     ColumnSpec("type", DefaultWidth("type")), ColumnSpec("size", DefaultWidth("size"))]
  }

  function Clamp(width: int): (w: int)
    ensures MIN_WIDTH <= w <= MAX_WIDTH && (MIN_WIDTH <= width <= MAX_WIDTH ==> w == width)
  {
    if width < MIN_WIDTH then MIN_WIDTH else if width > MAX_WIDTH then MAX_WIDTH else width
  }

  // ----- Reading

  /** The position of the first `c`, or the length. */
  function Find(text: string, c: char): (i: nat)
    ensures i <= |text| && (i < |text| ==> text[i] == c)
    ensures forall j | 0 <= j < i :: text[j] != c
  {
    if text == "" || text[0] == c then 0 else 1 + Find(text[1..], c)
  }

  /** std::from_chars for an int: the digits at the front, after a minus sign if there is one; what
      follows them is ignored. None if there are none or the value does not fit. */
  function FromChars(text: string): Option<int> {
    var negative := text != "" && text[0] == '-';
    var body := if negative then text[1..] else text;
    var n := JsonReader.DigitRun(body);
    if n == 0 then None
    else
      var magnitude: int := DigitsValue(body[..n]);
      var value := if negative then -magnitude else magnitude;
      if INT_MIN <= value <= INT_MAX then Some(value) else None
  }

  /** The width a token gives a column: after the colon, or the default. */
  function TokenWidth(token: string): int {
    var colon := Find(token, ':');
    var parsed := if colon < |token| then FromChars(token[colon + 1..]) else None;
    if parsed.Some? then Clamp(parsed.value) else DefaultWidth(token[..colon])
  }

  function TokenId(token: string): string {
    token[..Find(token, ':')]
  }

  /** One turn of the loop: a token without an id, or with one that is there already, adds nothing. */
  function AddToken(columns: seq<ColumnSpec>, token: string): seq<ColumnSpec> {
    if TokenId(token) == "" || Has(columns, TokenId(token)) then columns
    else columns + [ColumnSpec(TokenId(token), TokenWidth(token))]
  }

  function Rest(text: string): string {
    var comma := Find(text, ',');
    if comma == |text| then "" else text[comma + 1..]
  }

  function ReadTokens(text: string, columns: seq<ColumnSpec>): seq<ColumnSpec>
    decreases |text|
  {
    if text == "" then columns
    else ReadTokens(Rest(text), AddToken(columns, text[..Find(text, ',')]))
  }

  /** Name is always there and always first. */
  function NameFirst(columns: seq<ColumnSpec>): seq<ColumnSpec> {
    var i := At(columns, "name");
    if i == |columns| then [ColumnSpec("name", DefaultWidth("name"))] + columns
    else [columns[i]] + columns[..i] + columns[i + 1..]
  }

  /** parse_columns(). */
  function Parse(text: string): seq<ColumnSpec> {
    if text == "" then Defaults() else NameFirst(ReadTokens(text, []))
  }

  method ParseColumns(text: string) returns (columns: seq<ColumnSpec>)
    ensures columns == Parse(text)
  {
    if text == "" { return Defaults(); }
    columns := [];
    var rest := text;
    while rest != ""
      invariant ReadTokens(rest, columns) == ReadTokens(text, [])
      decreases |rest|
    {
      ReadStep(rest, columns);
      var end := Find(rest, ',');
      columns := ReadToken(rest[..end], columns);
      rest := if end == |rest| then "" else rest[end + 1..];
    }
    return NameFirst(columns);
  }

  lemma ReadStep(text: string, columns: seq<ColumnSpec>)
    requires text != ""
    ensures ReadTokens(text, columns) == ReadTokens(Rest(text), AddToken(columns, text[..Find(text, ',')]))
    ensures |Rest(text)| < |text|
  {
  }

  /** The body of the loop, for one token. */
  method ReadToken(token: string, columns: seq<ColumnSpec>) returns (more: seq<ColumnSpec>)
    ensures more == AddToken(columns, token)
  {
    var colon := Find(token, ':');
    var id := token[..colon];
    if id == "" || Has(columns, id) { return columns; }
    var width := DefaultWidth(id);
    if colon < |token| {
      var parsed := FromChars(token[colon + 1..]);
      if parsed.Some? { width := Clamp(parsed.value); }
    }
    return columns + [ColumnSpec(id, width)];
  }

  // ----- Writing

  function Entry(column: ColumnSpec): string {
    column.id + ":" + Decimal(Clamp(column.width))
  }

  /** format_columns(). */
  function Format(columns: seq<ColumnSpec>): string {
    if columns == [] then ""
    else if |columns| == 1 then Entry(columns[0])
    else Entry(columns[0]) + "," + Format(columns[1..])
  }

  method FormatColumns(columns: seq<ColumnSpec>) returns (text: string)
    ensures text == Format(columns)
  {
    text := "";
    for i := 0 to |columns|
      invariant text == Format(columns[..i])
      invariant text == "" <==> i == 0
    {
      FormatAppends(columns[..i], columns[i]);
      assert columns[..i + 1] == columns[..i] + [columns[i]];
      if text != "" { text := text + ","; }
      text := text + columns[i].id + ":" + Decimal(Clamp(columns[i].width));
    }
    assert columns[..|columns|] == columns;
  }

  lemma {:induction false} FormatAppends(columns: seq<ColumnSpec>, column: ColumnSpec)
    ensures Format(columns + [column])
      == (if columns == [] then "" else Format(columns) + ",") + column.id + ":" + Decimal(Clamp(column.width))
    ensures columns != [] ==> Format(columns) != ""
  {
    if columns == [] {
      assert columns + [column] == [column];
    } else {
      assert (columns + [column])[1..] == columns[1..] + [column];
      FormatAppends(columns[1..], column);
      Regroup(Entry(columns[0]), Format(columns[1..]), column.id, Decimal(Clamp(column.width)));
    }
  }

  lemma Regroup(first: string, rest: string, id: string, width: string)
    ensures first + "," + (rest + "," + id + ":" + width) == first + "," + rest + "," + id + ":" + width
    ensures "" + id + ":" + width == id + ":" + width
  {
  }

  // ----- Round trips

  /** An id that can stand in the text. */
  predicate PlainId(id: string) {
    id != "" && ',' !in id && ':' !in id
  }

  predicate DistinctIds(columns: seq<ColumnSpec>) {
    forall i, j | 0 <= i < j < |columns| :: columns[i].id != columns[j].id
  }

  /** What parse_columns() makes of any text: Name first, ids distinct, widths in range. */
  predicate Canonical(columns: seq<ColumnSpec>) {
    && columns != [] && columns[0].id == "name"
    && DistinctIds(columns)
    && forall i | 0 <= i < |columns| :: PlainId(columns[i].id) && MIN_WIDTH <= columns[i].width <= MAX_WIDTH
  }

  lemma {:induction false} FindAfter(prefix: string, c: char, rest: string)
    requires c !in prefix
    ensures Find(prefix + [c] + rest, c) == |prefix|
  {
    var text := prefix + [c] + rest;
    if prefix != "" {
      assert text[1..] == prefix[1..] + [c] + rest;
      FindAfter(prefix[1..], c, rest);
    }
  }

  lemma {:induction false} FindNothing(text: string, c: char)
    requires c !in text
    ensures Find(text, c) == |text|
  {
    if text != "" {
      FindNothing(text[1..], c);
    }
  }

  /** A width in range is read back as it was written. */
  lemma WidthReadBack(width: int)
    requires MIN_WIDTH <= width <= MAX_WIDTH
    ensures FromChars(Decimal(width)) == Some(width)
  {
    var digits := Digits(width);
    NoSign(width);
    JsonTokenProofs.DigitRunOver(digits, "");
    assert digits + "" == digits;
    DigitsRead(width);
    assert digits[..|digits|] == digits;
  }

  lemma NoDigitIs(width: nat, c: char)
    requires c == ',' || c == ':'
    ensures c !in Digits(width)
  {
  }

  lemma EntryRead(column: ColumnSpec)
    requires PlainId(column.id) && MIN_WIDTH <= column.width <= MAX_WIDTH
    ensures ',' !in Entry(column) && TokenId(Entry(column)) == column.id && TokenWidth(Entry(column)) == column.width
  {
    var digits := Decimal(column.width);
    NoDigitIs(column.width, ',');
    FindAfter(column.id, ':', digits);
    WidthReadBack(column.width);
    assert Entry(column)[|column.id| + 1..] == digits;
  }

  predicate Readable(columns: seq<ColumnSpec>) {
    && DistinctIds(columns)
    && forall i | 0 <= i < |columns| :: PlainId(columns[i].id) && MIN_WIDTH <= columns[i].width <= MAX_WIDTH
  }

  lemma EntryAdded(done: seq<ColumnSpec>, column: ColumnSpec)
    requires PlainId(column.id) && MIN_WIDTH <= column.width <= MAX_WIDTH && !Has(done, column.id)
    ensures AddToken(done, Entry(column)) == done + [column]
  {
    EntryRead(column);
    hide TokenId, TokenWidth;
  }

  /** The first entry of a written list is its first token, and the others are what is left. */
  lemma FormatSplits(columns: seq<ColumnSpec>)
    requires columns != [] && ',' !in Entry(columns[0])
    ensures var text := Format(columns);
      && text != ""
      && text[..Find(text, ',')] == Entry(columns[0]) && Rest(text) == Format(columns[1..])
  {
    var entry, rest := Entry(columns[0]), columns[1..];
    if rest == [] {
      FindNothing(entry, ',');
    } else {
      FindAfter(entry, ',', Format(rest));
      assert Format(columns) == entry + [','] + Format(rest);
    }
  }

  /** Reading a written list adds its columns one by one. */
  lemma {:induction false} FormatRead(done: seq<ColumnSpec>, columns: seq<ColumnSpec>)
    requires Readable(done + columns)
    ensures ReadTokens(Format(columns), done) == done + columns
    decreases |columns|
  {
    if columns == [] {
      assert done + columns == done;
    } else {
      var first, rest := columns[0], columns[1..];
      assert (done + columns)[|done|] == first;
      NotThereYet(done, columns);
      assert done + [first] + rest == done + columns;
      FormatRead(done + [first], rest);
      EntryRead(first);
      FormatSplits(columns);
      EntryAdded(done, first);
      hide Format, Entry, TokenId, TokenWidth, AddToken, Has, Readable;
    }
  }

  lemma NotThereYet(done: seq<ColumnSpec>, columns: seq<ColumnSpec>)
    requires columns != [] && DistinctIds(done + columns)
    ensures !Has(done, columns[0].id)
  {
    var all := done + columns;
    assert all[|done|] == columns[0];
    assert forall i | 0 <= i < |done| :: all[i] == done[i];
  }

  /** parse_columns() undoes format_columns() on every canonical list. */
  lemma ParseFormat(columns: seq<ColumnSpec>)
    requires Canonical(columns)
    ensures Parse(Format(columns)) == columns
  {
    assert [] + columns == columns;
    FormatRead([], columns);
    EntryRead(columns[0]);
    FormatSplits(columns);
    NameFirstAlready(columns);
    hide Format, Entry, ReadTokens, NameFirst, Canonical;
  }

  lemma NameFirstAlready(columns: seq<ColumnSpec>)
    requires columns != [] && columns[0].id == "name"
    ensures NameFirst(columns) == columns
  {
    assert [columns[0]] + columns[..0] + columns[1..] == columns;
  }

  /** parse_columns() makes a canonical list of any text at all. */
  lemma ParseCanonical(text: string)
    ensures Canonical(Parse(text))
  {
    DefaultsCanonical();
    if text != "" {
      ReadReadable(text, []);
      NameFirstCanonical(ReadTokens(text, []));
    }
    hide Canonical, ReadTokens, NameFirst, Defaults;
  }

  /** So it is a normalizer: writing and reading again changes nothing more. */
  lemma ParseIdempotent(text: string)
    ensures Parse(Format(Parse(text))) == Parse(text)
  {
    ParseCanonical(text);
    ParseFormat(Parse(text));
  }

  lemma {:induction false} ReadReadable(text: string, columns: seq<ColumnSpec>)
    requires Readable(columns)
    ensures Readable(ReadTokens(text, columns))
    decreases |text|
  {
    if text != "" {
      ReadStep(text, columns);
      AddReadable(columns, text[..Find(text, ',')]);
      ReadReadable(Rest(text), AddToken(columns, text[..Find(text, ',')]));
    }
  }

  lemma DefaultInRange(id: string)
    ensures MIN_WIDTH <= DefaultWidth(id) <= MAX_WIDTH
  {
  }

  lemma AddReadable(columns: seq<ColumnSpec>, token: string)
    requires Readable(columns) && ',' !in token
    ensures Readable(AddToken(columns, token))
  {
    DefaultInRange(TokenId(token));
  }

  lemma NameFirstCanonical(columns: seq<ColumnSpec>)
    requires Readable(columns)
    ensures Canonical(NameFirst(columns))
  {
    hide At, DefaultWidth;
    var i, next := At(columns, "name"), NameFirst(columns);
    DefaultInRange("name");
    if i < |columns| {
      assert forall k | 0 <= k < |next| :: next[k] == columns[if k == 0 then i else if k <= i then k - 1 else k];
    } else {
      assert forall k | 0 < k < |next| :: next[k] == columns[k - 1];
    }
  }

  // ----- What a text that was not written by this build is read as

  /** A token is an id alone, or an id, a colon and a width: the digits after the colon, whatever follows them. An id
      alone, and one with anything but a width behind it, gets the default. */
  lemma TokenReads(id: string, rest: string, width: nat)
    requires ':' !in id && (rest != "" ==> !JsonGrammar.IsDigit(rest[0]))
    ensures TokenId(id) == id && TokenWidth(id) == DefaultWidth(id)
    ensures TokenId(id + ":" + rest) == id
    ensures (rest == "" || rest[0] != '-') ==> TokenWidth(id + ":" + rest) == DefaultWidth(id)
    ensures TokenId(id + ":" + (Digits(width) + rest)) == id
    ensures TokenWidth(id + ":" + (Digits(width) + rest))
      == if width > 0x7FFF_FFFF then DefaultWidth(id)
         else if width < 24 then 24 else if width > 4000 then 4000 else width
  {
    FindNothing(id, ':');
    assert id[..|id|] == id;
    IdBeforeColon(id, rest);
    IdBeforeColon(id, Digits(width) + rest);
    DigitsAtFront(width, rest);
    JsonTokenProofs.DigitRunOver("", rest);
    assert "" + rest == rest;
    hide Find, JsonReader.DigitRun, DigitsValue, Digits, DefaultWidth;
  }

  lemma IdBeforeColon(id: string, rest: string)
    requires ':' !in id
    ensures var token := id + ":" + rest;
      Find(token, ':') == |id| && token[..|id|] == id && token[|id| + 1..] == rest
  {
    FindAfter(id, ':', rest);
  }

  lemma DigitsAtFront(width: nat, rest: string)
    requires rest != "" ==> !JsonGrammar.IsDigit(rest[0])
    ensures FromChars(Digits(width) + rest) == if width <= INT_MAX then Some(width) else None
  {
    NoSign(width);
    DigitsRead(width);
    JsonTokenProofs.DigitRunOver(Digits(width), rest);
    var text := Digits(width) + rest;
    assert text[0] == Digits(width)[0] && text[..|Digits(width)|] == Digits(width);
    hide DigitsValue, Digits, JsonReader.DigitRun;
  }

  /** Of several tokens for a column the first counts, and a token without an id is passed over. */
  lemma TokenAdds(columns: seq<ColumnSpec>, token: string)
    ensures AddToken(columns, token) == columns
         || AddToken(columns, token) == columns + [ColumnSpec(TokenId(token), TokenWidth(token))]
    ensures AddToken(columns, token) == columns <==>
      TokenId(token) == "" || exists i | 0 <= i < |columns| :: columns[i].id == TokenId(token)
  {
    hide TokenId, TokenWidth;
    if Has(columns, TokenId(token)) {
      assert columns[At(columns, TokenId(token))].id == TokenId(token);
    }
  }

  /** Name comes first, with the width it has, or with 320 if it was not there; the others keep their order. */
  lemma NameComesFirst(columns: seq<ColumnSpec>, i: nat)
    requires DistinctIds(columns)
    ensures i < |columns| && columns[i].id == "name" ==>
      NameFirst(columns) == [columns[i]] + (columns[..i] + columns[i + 1..])
    ensures (forall k | 0 <= k < |columns| :: columns[k].id != "name") ==>
      NameFirst(columns) == [ColumnSpec("name", 320)] + columns
  {
    assert At(KNOWN, "name") == 0;
  }

  /** The columns this build knows and the widths they start with; any other starts with 100. */
  lemma DefaultWidths(id: string)
    ensures DefaultWidth(id) == match id
                                case "name" => 320
                                case "size" | "type" => 160
                                case "date" => 180
                                case "duration" => 120
                                case "availability" => 200
                                case _ => 100
    ensures IsKnown(id) <==> id in {"name", "size", "date", "type", "duration", "availability"}
  {
    var i := At(KNOWN, id);
    assert forall k | 0 <= k < |KNOWN| && k < i :: KNOWN[k].id != id;
  }

  /** No setting means Explorer's columns. */
  lemma NoSettingReads()
    ensures Parse("") == [ColumnSpec("name", 320), ColumnSpec("date", 180), ColumnSpec("type", 160),
                          ColumnSpec("size", 160)]
  {
    assert At(KNOWN, "name") == 0;
    assert At(KNOWN[1..], "size") == 0 && KNOWN[1..][1..] == KNOWN[2..] && At(KNOWN[2..], "date") == 0;
    assert KNOWN[2..][1..] == KNOWN[3..] && At(KNOWN[3..], "type") == 0;
    assert At(KNOWN, "size") == 1;
    assert At(KNOWN[1..], "date") == 1 && At(KNOWN, "date") == 2;
    assert At(KNOWN[2..], "type") == 1 && At(KNOWN[1..], "type") == 2 && At(KNOWN, "type") == 3;
  }

  // ----- toggle_column, captured_columns

  /** toggle_column(): Name stays, a shown column goes, a known one that is hidden comes last. */
  function Toggled(columns: seq<ColumnSpec>, id: string): seq<ColumnSpec> {
    var i := At(columns, id);
    if id == "name" then columns
    else if i < |columns| then columns[..i] + columns[i + 1..]
    else if IsKnown(id) then columns + [ColumnSpec(id, DefaultWidth(id))]
    else columns
  }

  /** What the header menu may toggle keeps the list canonical; doing it twice to a column that was
      hidden gives the list back. */
  lemma ToggledCanonical(columns: seq<ColumnSpec>, id: string)
    requires Canonical(columns)
    ensures Canonical(Toggled(columns, id))
    ensures !Has(columns, id) ==> Toggled(Toggled(columns, id), id) == columns
    ensures forall i | 0 <= i < |columns| && columns[i].id == id && id != "name" ::
      Toggled(columns, id) == columns[..i] + columns[i + 1..]
    ensures id == "name" || (!Has(columns, id) && !IsKnown(id)) ==> Toggled(columns, id) == columns
    ensures !Has(columns, id) && IsKnown(id) ==>
      Toggled(columns, id) == columns + [ColumnSpec(id, DefaultWidth(id))]
  {
    var i, next := At(columns, id), Toggled(columns, id);
    DefaultInRange(id);
    if id != "name" {
      if i < |columns| {
        assert forall k | 0 <= k < |next| :: next[k] == columns[if k < i then k else k + 1];
      } else if IsKnown(id) {
        KnownIsPlain(id);
        assert next[|columns|].id == id;
        assert next[..|columns|] + next[|columns| + 1..] == columns;
      }
    }
  }

  lemma KnownIsPlain(id: string)
    requires IsKnown(id)
    ensures PlainId(id)
  {
    hide At;
    assert forall k | 0 <= k < |KNOWN| :: PlainId(KNOWN[k].id);
  }

  /** The shown columns, and after them the stored ones that this build does not know. */
  function WithUnknown(previous: seq<ColumnSpec>, shown: seq<ColumnSpec>): seq<ColumnSpec> {
    if previous == [] then shown
    else
      var first := previous[0];
      WithUnknown(previous[1..],
                  if !Has(shown, first.id) && !IsKnown(first.id) then shown + [first] else shown)
  }

  /** captured_columns(): None when the setting would not change. */
  function Captured(previous: string, shown: seq<ColumnSpec>): Option<string> {
    var text := Format(WithUnknown(Parse(previous), shown));
    if text == previous || (previous == "" && text == Format(Defaults())) then None else Some(text)
  }

  method CaptureColumns(previous: string, shown: seq<ColumnSpec>) returns (setting: Option<string>)
    ensures setting == Captured(previous, shown)
  {
    var stored := ParseColumns(previous);
    var all := shown;
    assert stored[0..] == stored;
    for i := 0 to |stored|
      invariant WithUnknown(stored[i..], all) == WithUnknown(stored, shown)
    {
      assert stored[i..][1..] == stored[i + 1..];
      if !Has(all, stored[i].id) && !IsKnown(stored[i].id) { all := all + [stored[i]]; }
    }
    var text := FormatColumns(all);
    if text == previous || (previous == "" && text == Format(Defaults())) { return None; }
    return Some(text);
  }

  /** The setting after a capture: the new one, or the previous one if it stays. */
  function SettingAfter(previous: string, shown: seq<ColumnSpec>): string {
    var setting := Captured(previous, shown);
    if setting.Some? then setting.value else previous
  }

  lemma {:induction false} StillCanonical(previous: seq<ColumnSpec>, shown: seq<ColumnSpec>)
    requires Readable(previous) && Canonical(shown)
    ensures Canonical(WithUnknown(previous, shown)) && shown <= WithUnknown(previous, shown)
    decreases |previous|
  {
    if previous != [] {
      var first := previous[0];
      AddedCanonical(shown, first);
      StillCanonical(previous[1..], if !Has(shown, first.id) && !IsKnown(first.id) then shown + [first] else shown);
    }
  }

  lemma AddedCanonical(shown: seq<ColumnSpec>, column: ColumnSpec)
    requires Canonical(shown) && PlainId(column.id) && MIN_WIDTH <= column.width <= MAX_WIDTH
    ensures !Has(shown, column.id) ==> Canonical(shown + [column])
  {
  }

  /** An unknown stored column that is not shown is in the new list, as it was stored. */
  lemma {:induction false} UnknownStays(previous: seq<ColumnSpec>, shown: seq<ColumnSpec>, i: nat)
    requires Readable(previous) && Canonical(shown) && i < |previous|
    requires !IsKnown(previous[i].id) && !Has(shown, previous[i].id)
    ensures previous[i] in WithUnknown(previous, shown)
    decreases |previous|
  {
    var first, rest := previous[0], previous[1..];
    var more := if !Has(shown, first.id) && !IsKnown(first.id) then shown + [first] else shown;
    AddedCanonical(shown, first);
    StillCanonical(rest, more);
    if i == 0 {
      assert more[|shown|] == first;
    } else {
      NotAdded(shown, first, previous[i].id);
      UnknownStays(rest, more, i - 1);
    }
  }

  lemma NotAdded(shown: seq<ColumnSpec>, column: ColumnSpec, id: string)
    requires !Has(shown, id) && column.id != id
    ensures !Has(shown + [column], id)
  {
  }

  // Columns on the screen may be dragged to any width; writing them clamps it.

  function Clamped(columns: seq<ColumnSpec>): (r: seq<ColumnSpec>)
    ensures |r| == |columns|
    ensures forall i | 0 <= i < |r| :: r[i] == ColumnSpec(columns[i].id, Clamp(columns[i].width))
  {
    seq(|columns|, i requires 0 <= i < |columns| => ColumnSpec(columns[i].id, Clamp(columns[i].width)))
  }

  lemma {:induction false} FormatClamped(columns: seq<ColumnSpec>)
    ensures Format(Clamped(columns)) == Format(columns)
  {
    if columns != [] {
      assert Clamped(columns)[1..] == Clamped(columns[1..]);
      FormatClamped(columns[1..]);
    }
  }

  lemma HasClamped(columns: seq<ColumnSpec>, id: string)
    ensures Has(Clamped(columns), id) <==> Has(columns, id)
  {
    if Has(columns, id) {
      assert Clamped(columns)[At(columns, id)].id == id;
    }
  }

  lemma {:induction false} UnknownClamped(previous: seq<ColumnSpec>, shown: seq<ColumnSpec>)
    requires Readable(previous)
    ensures WithUnknown(previous, Clamped(shown)) == Clamped(WithUnknown(previous, shown))
    decreases |previous|
  {
    if previous != [] {
      var first := previous[0];
      HasClamped(shown, first.id);
      assert Clamped(shown + [first]) == Clamped(shown) + [first];
      UnknownClamped(previous[1..], if !Has(shown, first.id) && !IsKnown(first.id) then shown + [first] else shown);
    }
  }

  /** What the header shows: columns this build knows, each once, Name first. */
  predicate Shown(columns: seq<ColumnSpec>) {
    columns != [] && columns[0].id == "name" && DistinctIds(columns) && forall c | c in columns :: IsKnown(c.id)
  }

  lemma ShownCanonical(columns: seq<ColumnSpec>)
    requires Shown(columns)
    ensures Canonical(Clamped(columns)) && Shown(Clamped(columns))
  {
    hide IsKnown;
    forall i | 0 <= i < |columns| ensures PlainId(columns[i].id) && IsKnown(columns[i].id) {
      assert columns[i] in columns;
      KnownIsPlain(columns[i].id);
    }
  }

  /** An older build never drops a newer build's column: whatever it shows, the columns it does not
      know are still in the setting afterwards, with their widths, and so is what it shows. */
  lemma UnknownColumnsSurvive(previous: string, shown: seq<ColumnSpec>)
    requires Shown(shown)
    ensures forall c | c in Parse(previous) && !IsKnown(c.id) :: c in Parse(SettingAfter(previous, shown))
    ensures Clamped(shown) <= Parse(SettingAfter(previous, shown))
  {
    hide Format, Parse, SettingAfter, IsKnown, Has, Clamped, Canonical, Readable, WithUnknown;
    var stored, drawn := Parse(previous), Clamped(shown);
    SettingIs(previous, shown);
    ShownCanonical(shown);
    ParseCanonical(previous);
    CanonicalIsReadable(stored);
    StillCanonical(stored, drawn);
    forall c | c in stored && !IsKnown(c.id) ensures c in WithUnknown(stored, drawn) {
      var i :| 0 <= i < |stored| && stored[i] == c;
      OnlyKnown(drawn, c.id);
      UnknownStays(stored, drawn, i);
    }
  }

  lemma CanonicalIsReadable(columns: seq<ColumnSpec>)
    requires Canonical(columns)
    ensures Readable(columns)
  {
  }

  /** A known column that is not shown is not in the setting: hiding a column is remembered. */
  lemma HiddenColumnsGo(previous: string, shown: seq<ColumnSpec>)
    requires Shown(shown)
    ensures forall c | c in Parse(SettingAfter(previous, shown)) && IsKnown(c.id) :: c in Clamped(shown)
  {
    SettingIs(previous, shown);
    KnownAreShown(Parse(previous), Clamped(shown));
  }

  lemma {:induction false} KnownAreShown(previous: seq<ColumnSpec>, shown: seq<ColumnSpec>)
    ensures forall c | c in WithUnknown(previous, shown) && IsKnown(c.id) :: c in shown
    decreases |previous|
  {
    if previous != [] {
      hide Has, IsKnown;
      var first := previous[0];
      KnownAreShown(previous[1..], if !Has(shown, first.id) && !IsKnown(first.id) then shown + [first] else shown);
    }
  }

  /** Whether it changes or stays, the setting reads as the shown columns and after them the unknown ones. */
  lemma SettingIs(previous: string, shown: seq<ColumnSpec>)
    requires Shown(shown)
    ensures Parse(SettingAfter(previous, shown)) == WithUnknown(Parse(previous), Clamped(shown))
  {
    ShownCanonical(shown);
    ParseCanonical(previous);
    StillCanonical(Parse(previous), Clamped(shown));
    UnknownClamped(Parse(previous), shown);
    SettingReads(previous, shown);
    hide Format, ReadTokens, NameFirst, Canonical, Defaults, IsKnown, Has;
  }

  lemma OnlyKnown(shown: seq<ColumnSpec>, id: string)
    requires (forall c | c in shown :: IsKnown(c.id)) && !IsKnown(id)
    ensures !Has(shown, id)
  {
    hide IsKnown;
    forall i | 0 <= i < |shown| ensures shown[i].id != id {
      assert shown[i] in shown;
    }
  }

  /** Whether it changes or stays, the setting reads as the shown columns and the unknown ones. */
  lemma SettingReads(previous: string, shown: seq<ColumnSpec>)
    requires Canonical(Clamped(WithUnknown(Parse(previous), shown)))
    ensures Parse(SettingAfter(previous, shown)) == Clamped(WithUnknown(Parse(previous), shown))
  {
    var all := WithUnknown(Parse(previous), shown);
    FormatClamped(all);
    ParseFormat(Clamped(all));
    DefaultsCanonical();
    ParseFormat(Defaults());
    hide Format, ReadTokens, NameFirst, Canonical, Defaults, Clamped;
  }

  lemma DefaultsCanonical()
    ensures Canonical(Defaults())
  {
    DefaultInRange("name");
    DefaultInRange("date");
    DefaultInRange("type");
    DefaultInRange("size");
    hide DefaultWidth;
  }

  // ----- Widths on the screen

  /** column_width_to_pixels(), column_width_from_pixels(). */
  function ToPixels(stored: nat, dpi: nat): nat {
    if dpi == 0 then stored else (stored * dpi + 48) / 96
  }

  function FromPixels(pixels: nat, dpi: nat): nat {
    if dpi == 0 then pixels else (pixels * 96 + dpi / 2) / dpi
  }

  /** A stored width survives the screen at every resolution of at least 96 DPI. */
  lemma WidthSurvives(stored: nat, dpi: nat)
    requires dpi >= 96 || dpi == 0
    ensures Survives(stored, dpi)
  {
    if dpi > 0 {
      var pixels := (stored * dpi + 48) / 96;
      assert stored * dpi - 48 < pixels * 96 <= stored * dpi + 48;
      if dpi == 96 {
        assert pixels == stored;
      }
      Arithmetic.QuotientIs(pixels * 96 + dpi / 2, dpi, stored);
    }
  }

  /** Every width the setting can hold survives the screen if and only if a stored unit is at least a pixel. */
  lemma WidthsSurviveIff(dpi: nat)
    ensures (forall stored: nat | MIN_WIDTH <= stored <= MAX_WIDTH :: Survives(stored, dpi)) <==> dpi == 0 || dpi >= 96
  {
    if dpi == 0 || dpi >= 96 {
      forall stored: nat | MIN_WIDTH <= stored <= MAX_WIDTH ensures Survives(stored, dpi) {
        WidthSurvives(stored, dpi);
      }
    } else if forall stored: nat | MIN_WIDTH <= stored <= MAX_WIDTH :: Survives(stored, dpi) {
      PixelsClimb(dpi, 96);
      assert false;
    }
  }

  predicate Survives(stored: nat, dpi: nat) {
    FromPixels(ToPixels(stored, dpi), dpi) == stored
  }

  /** Widths that all survive are shown with different numbers of pixels. */
  lemma {:induction false} PixelsClimb(dpi: nat, k: nat)
    requires forall stored: nat | MIN_WIDTH <= stored <= MAX_WIDTH :: Survives(stored, dpi)
    requires MIN_WIDTH + k <= MAX_WIDTH
    ensures ToPixels(MIN_WIDTH + k, dpi) >= ToPixels(MIN_WIDTH, dpi) + k
  {
    if k > 0 {
      PixelsClimb(dpi, k - 1);
      assert Survives(MIN_WIDTH + k, dpi) && Survives(MIN_WIDTH + k - 1, dpi);
      MorePixels(MIN_WIDTH + k - 1, MIN_WIDTH + k, dpi);
    }
  }

  lemma MorePixels(a: nat, b: nat, dpi: nat)
    requires a <= b
    ensures ToPixels(a, dpi) <= ToPixels(b, dpi)
  {
    Arithmetic.ProductMonotonic(a, b, dpi);
  }

  /** At 72 DPI, for one, 102 comes back as 103. */
  lemma LowResolutionChangesWidth()
    ensures FromPixels(ToPixels(102, 72), 72) == 103 && !Survives(102, 72)
  {
  }
}
