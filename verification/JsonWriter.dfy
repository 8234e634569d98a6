/** escape() and dump() of src/core/session.cpp, and reading back what they write. */
module JsonWriter {
  import opened Options
  import opened JsonTree
  import opened JsonGrammar
  import opened JsonReader
  import opened JsonTokenProofs
  import opened JsonReaderProofs
  import Wtf8

  const HEX := "0123456789abcdef"

  function EscapeChar(c: char): string {
    match c
    case '"' => "\\\""
    case '\\' => "\\\\"
    case '\n' => "\\n"
    case '\r' => "\\r"
    case '\t' => "\\t"
    case _ =>
      if c as int == 8 then "\\b"
      else if c as int == 12 then "\\f"
      else if c < ' ' then "\\u00" + [HEX[c as int / 16], HEX[c as int % 16]]
      else [c]
  }

  function EscapeChars(text: string): string {
    if text == "" then "" else EscapeChar(text[0]) + EscapeChars(text[1..])
  }

  function Escape(text: string): string {
    "\"" + (EscapeChars(text) + "\"")
  }

  function Dump(value: Json): string
    decreases value, 0
  {
    match value
    case Null => "null"
    case Bool(flag) => if flag then "true" else "false"
    case Number(lexeme) => lexeme
    case String(text) => Escape(text)
    case Array(items) => "[" + (if items == [] then "]" else DumpItems(items))
    case Object(fields) => "{" + (if fields == map[] then "}" else DumpFields(value, SortedKeys(fields.Keys)))
  }

  function DumpItems(items: seq<Json>): string
    requires items != []
    decreases items, 0
  {
    Dump(items[0]) + (if |items| == 1 then "]" else "," + DumpItems(items[1..]))
  }

  function DumpFields(value: Json, keys: seq<string>): string
    requires value.Object? && keys != [] && forall key | key in keys :: key in value.fields
    decreases value, 0, |keys|
  {
    assert keys[0] in keys;
    Escape(keys[0]) + (":" + (Dump(value.fields[keys[0]])
    + (if |keys| == 1 then "}" else "," + DumpFields(value, keys[1..]))))
  }

  /** Every number in the value is a printed double: reading it gives it back. */
  ghost predicate Printed(format: NumberFormat, value: Json) {
    match value
    case Number(lexeme) => IsNumber(lexeme) && format(lexeme) == Some(lexeme)
    case Array(items) => forall item | item in items :: Printed(format, item)
    case Object(fields) => forall key | key in fields :: Printed(format, fields[key])
    case _ => true
  }

  /** Reading a number gives a number text that reads as itself. */
  ghost predicate IsFormat(format: NumberFormat) {
    forall lexeme | format(lexeme).Some? ::
      IsNumber(format(lexeme).value) && format(format(lexeme).value) == format(lexeme)
  }

  // ----- The tree without white space whose text dump() writes

  function PieceOf(c: char): Piece {
    match c
    case '"' => Short('"')
    case '\\' => Short('\\')
    case '\n' => Short('n')
    case '\r' => Short('r')
    case '\t' => Short('t')
    case _ =>
      if c as int == 8 then Short('b')
      else if c as int == 12 then Short('f')
      else if c < ' ' then Escaped("00" + [HEX[c as int / 16], HEX[c as int % 16]])
      else Raw(c)
  }

  function PiecesOf(text: string): seq<Piece> {
    if text == "" then [] else [PieceOf(text[0])] + PiecesOf(text[1..])
  }

  function Compact(value: Json): Cst
    decreases value, 0
  {
    match value
    case Null => CNull
    case Bool(flag) => if flag then CTrue else CFalse
    case Number(lexeme) => CNumber(lexeme)
    case String(text) => CString(PiecesOf(text))
    case Array(items) => CArray("", CompactItems(items))
    case Object(fields) => CObject("", CompactMembers(value, SortedKeys(fields.Keys)))
  }

  function CompactItems(items: seq<Json>): (result: seq<Item>)
    ensures |result| == |items|
    decreases items, 0
  {
    if items == [] then [] else [Item("", Compact(items[0]), "")] + CompactItems(items[1..])
  }

  function CompactMembers(value: Json, keys: seq<string>): (result: seq<Member>)
    requires value.Object? && forall key | key in keys :: key in value.fields
    ensures |result| == |keys|
    decreases value, 0, |keys|
  {
    if keys == [] then []
    else
      assert keys[0] in keys;
      [CompactMember(value, keys[0])] + CompactMembers(value, keys[1..])
  }

  function CompactMember(value: Json, key: string): Member
    requires value.Object? && key in value.fields
    decreases value, 0, 0
  {
    Member("", PiecesOf(key), "", Item("", Compact(value.fields[key]), ""))
  }

  /** Only what has to be is escaped, and as shortly as can be: by a letter where there is one, else by two
      hexadecimal digits in lower case. */
  lemma EscapeReads(c: char)
    ensures EscapeChar(c) == [c] <==> c >= ' ' && c != '"' && c != '\\'
    ensures |EscapeChar(c)| in {1, 2, 6}
    ensures |EscapeChar(c)| == 2 <==>
      c == '"' || c == '\\' || c == '\n' || c == '\r' || c == '\t' || c as int == 8 || c as int == 12
    ensures |EscapeChar(c)| == 2 ==> EscapeChar(c)[0] == '\\' && ShortValue(EscapeChar(c)[1]) == Some(c)
    ensures |EscapeChar(c)| == 6 ==>
      var text := EscapeChar(c);
      && text[..4] == "\\u00"
      && forall i | 4 <= i < 6 :: IsDigit(text[i]) || 'a' <= text[i] <= 'f'
  {
  }

  lemma HexDigitOfHex(n: nat)
    requires n < 16
    ensures HexDigit(HEX[n]) == Some(n)
  {
  }

  lemma PieceOfChar(c: char)
    ensures IsPiece(PieceOf(c)) && !IsHighPiece(PieceOf(c)) && !IsLowPiece(PieceOf(c))
    ensures PieceText(PieceOf(c)) == EscapeChar(c)
    ensures PieceValue(PieceOf(c)) == [c]
  {
    if c < ' ' && PieceOf(c).Escaped? {
      HexDigitOfHex(c as int / 16);
      HexDigitOfHex(c as int % 16);
      var hex := PieceOf(c).hex;
      assert hex == ['0', '0', HEX[c as int / 16], HEX[c as int % 16]];
      assert HexValue(hex) == c as int;
    }
  }

  lemma {:induction false} PiecesOfText(text: string)
    ensures ValidPieces(PiecesOf(text))
    ensures PiecesText(PiecesOf(text)) == EscapeChars(text)
    ensures PiecesValue(PiecesOf(text)) == text
  {
    if text != "" {
      PieceOfChar(text[0]);
      PiecesOfText(text[1..]);
      PiecesTextCons(PieceOf(text[0]), PiecesOf(text[1..]));
      assert text == [text[0]] + text[1..];
    }
  }

  lemma {:induction false} CompactText(value: Json)
    ensures TreeText(Compact(value)) == Dump(value)
    decreases value, 0
  {
    match value
    case String(text) => PiecesOfText(text);
    case Array(items) => if items != [] { CompactItemsText(items); }
    case Object(fields) =>
      if fields != map[] {
        CompactMembersText(value, SortedKeys(fields.Keys));
      }
    case _ =>
  }

  lemma {:induction false} CompactItemsText(items: seq<Json>)
    requires items != []
    ensures ItemsText(CompactItems(items)) == DumpItems(items)
    decreases items, 0
  {
    CompactText(items[0]);
    var rest := CompactItems(items[1..]);
    var item := Item("", Compact(items[0]), "");
    assert ItemText(item) == Dump(items[0]);
    DenoteItemsCons((_ => None), item, rest);
    if |items| > 1 {
      CompactItemsText(items[1..]);
    }
  }

  lemma BareMember(pieces: seq<Piece>, tree: Cst, tail: string)
    ensures MemberText(Member("", pieces, "", Item("", tree, ""))) + tail
         == Quoted(pieces) + (":" + (TreeText(tree) + tail))
  {
    var member := Member("", pieces, "", Item("", tree, ""));
    MemberLayout(member, tail);
    assert TreeText(tree) + "" == TreeText(tree);
    assert ItemText(member.item) == TreeText(tree);
  }

  lemma {:induction false} CompactMembersText(value: Json, keys: seq<string>)
    requires value.Object? && keys != [] && forall key | key in keys :: key in value.fields
    ensures MembersText(CompactMembers(value, keys)) == DumpFields(value, keys)
    decreases value, 0, |keys|
  {
    assert keys[0] in keys;
    var child := value.fields[keys[0]];
    CompactText(child);
    PiecesOfText(keys[0]);
    var rest := CompactMembers(value, keys[1..]);
    var member := Member("", PiecesOf(keys[0]), "", Item("", Compact(child), ""));
    DenoteMembersCons((_ => None), member, rest);
    if |keys| == 1 {
      assert rest == [];
      BareMember(member.key, Compact(child), "}");
    } else {
      CompactMembersText(value, keys[1..]);
      BareMember(member.key, Compact(child), "," + DumpFields(value, keys[1..]));
    }
  }

  lemma {:induction false} CompactDenotes(format: NumberFormat, value: Json)
    requires Printed(format, value)
    ensures ValidTree(format, Compact(value)) && Denotes(format, Compact(value)) == value
    decreases value, 0
  {
    match value
    case String(text) => PiecesOfText(text);
    case Array(items) => CompactItemsDenote(format, items);
    case Object(fields) => CompactObjectDenotes(format, value);
    case _ =>
  }

  lemma {:induction false} CompactObjectDenotes(format: NumberFormat, value: Json)
    requires value.Object? && Printed(format, value)
    ensures ValidTree(format, Compact(value)) && Denotes(format, Compact(value)) == value
    decreases value, 0, |value.fields| + 1
  {
    var keys := SortedKeys(value.fields.Keys);
    var members := CompactMembers(value, keys);
    CompactMembersDenote(format, value, keys);
    DistinctNames(members, keys);
    assert AllSpace("");
    AllFields(value.fields, keys);
  }

  lemma AllFields(fields: map<string, Json>, keys: seq<string>)
    requires forall key :: key in keys <==> key in fields
    ensures (map key | key in keys :: fields[key]) == fields
  {
  }

  lemma DistinctNames(members: seq<Member>, keys: seq<string>)
    requires |members| == |keys|
    requires forall i, j | 0 <= i < j < |keys| :: Precedes(keys[i], keys[j])
    requires forall i | 0 <= i < |keys| :: PiecesValue(members[i].key) == keys[i]
    ensures forall i, j | 0 <= i < j < |members| :: PiecesValue(members[i].key) != PiecesValue(members[j].key)
  {
    forall i, j | 0 <= i < j < |members| ensures PiecesValue(members[i].key) != PiecesValue(members[j].key) {
      PrecedesAsymmetric(keys[i], keys[j]);
    }
  }

  lemma {:induction false} CompactItemsDenote(format: NumberFormat, items: seq<Json>)
    requires forall item | item in items :: Printed(format, item)
    ensures forall item | item in CompactItems(items) :: ValidItem(format, item)
    ensures DenoteItems(format, CompactItems(items)) == items
    decreases items, 0
  {
    if items != [] {
      assert items[0] in items;
      CompactDenotes(format, items[0]);
      CompactItemsDenote(format, items[1..]);
      DenoteItemsCons(format, Item("", Compact(items[0]), ""), CompactItems(items[1..]));
      assert items == [items[0]] + items[1..];
    }
  }

  lemma {:induction false} CompactMembersDenote(format: NumberFormat, value: Json, keys: seq<string>)
    requires value.Object? && Printed(format, value) && forall key | key in keys :: key in value.fields
    requires forall i, j | 0 <= i < j < |keys| :: Precedes(keys[i], keys[j])
    ensures forall member | member in CompactMembers(value, keys) :: ValidMember(format, member)
    ensures forall i | 0 <= i < |keys| :: PiecesValue(CompactMembers(value, keys)[i].key) == keys[i]
    ensures DenoteMembers(format, CompactMembers(value, keys)) == map key | key in keys :: value.fields[key]
    decreases value, 0, |keys|
  {
    hide Printed, Precedes, ValidMember, PiecesValue, Compact, Denotes;
    if keys != [] {
      MemberDenotes(format, value, keys[0]);
      CompactMembersDenote(format, value, keys[1..]);
      DenoteMembersCons(format, CompactMember(value, keys[0]), CompactMembers(value, keys[1..]));
      FirstKey(value, keys);
    }
  }

  lemma {:induction false} MemberDenotes(format: NumberFormat, value: Json, key: string)
    requires value.Object? && Printed(format, value) && key in value.fields
    ensures var member := CompactMember(value, key);
      && ValidMember(format, member) && PiecesValue(member.key) == key
      && Denotes(format, member.item.tree) == value.fields[key]
    decreases value, 0, 0
  {
    PiecesOfText(key);
    CompactDenotes(format, value.fields[key]);
  }

  lemma FirstKey(value: Json, keys: seq<string>)
    requires value.Object? && keys != [] && forall key | key in keys :: key in value.fields
    requires forall i, j | 0 <= i < j < |keys| :: Precedes(keys[i], keys[j])
    ensures keys[0] in value.fields
    ensures map[keys[0] := value.fields[keys[0]]] + (map key | key in keys[1..] :: value.fields[key])
         == map key | key in keys :: value.fields[key]
  {
    assert keys[0] in keys;
    assert forall key :: key in keys <==> key == keys[0] || key in keys[1..];
  }

  /** Parsing what dump() wrote gives back the value, trailing white space or not. */
  lemma ParseDump(format: NumberFormat, value: Json, trail: string)
    requires Printed(format, value) && AllSpace(trail)
    ensures Parse(format, Dump(value) + trail) == Some(value)
  {
    CompactText(value);
    CompactDenotes(format, value);
    var item := Item("", Compact(value), trail);
    assert ItemText(item) == Dump(value) + trail;
    GrammarAccepted(format, item);
  }

  lemma DumpInjective(format: NumberFormat, a: Json, b: Json)
    requires Printed(format, a) && Printed(format, b) && Dump(a) == Dump(b)
    ensures a == b
  {
    ParseDump(format, a, "");
    ParseDump(format, b, "");
  }

  // ----- Torn texts

  /** No proper prefix of a dumped object parses, so a torn write is never taken for a document. */
  lemma TornDump(format: NumberFormat, value: Json, length: nat)
    requires Printed(format, value) && value.Object?
    requires length < |Dump(value)|
    ensures Parse(format, Dump(value)[..length]) == None
  {
    var text := Dump(value);
    var prefix, more := text[..length], text[length..];
    assert text == prefix + more;
    if Parse(format, prefix).Some? {
      assert text[0] == '{' && prefix != "";
      assert SkipSpace(prefix) == prefix by { assert prefix[0] == text[0]; }
      hide Dump, ReadValue, Printed, Denotes, SkipSpace, TreeText, ValidItem;
      var item := ValueSound(format, prefix);
      var left := ReadValue(format, prefix).value.1;
      TakenWhole(format, item, left + more);
      Wtf8.Regroup(ItemText(item), left, more);
      TailOfWhole(format, value, item.trail + (left + more));
      assert false;
    }
  }

  /** An item that ends in a closing bracket is read the same way whatever comes behind it. */
  lemma TakenWhole(format: NumberFormat, item: Item, more: string)
    requires ValidItem(format, item) && item.tree.CObject?
    ensures ReadValue(format, ItemText(item) + more) == Some((Denotes(format, item.tree), item.trail + more))
  {
    hide ReadValue, TreeText;
    ItemLayout(item, more);
    ValueExactly(format, item.lead, item.tree, item.trail + more);
  }

  /** Reading the whole text of a value leaves nothing. */
  lemma TailOfWhole(format: NumberFormat, value: Json, left: string)
    requires Printed(format, value) && value.Object?
    requires ReadValue(format, Dump(value)).Some? && ReadValue(format, Dump(value)).value.1 == left
    ensures left == ""
  {
    CompactText(value);
    CompactDenotes(format, value);
    ValueExactly(format, "", Compact(value), "");
    assert "" + (TreeText(Compact(value)) + "") == Dump(value);
  }

  // ----- Parsed values

  /** A parsed value contains only printed numbers. */
  lemma {:induction false} DenotedPrinted(format: NumberFormat, tree: Cst)
    requires IsFormat(format) && ValidTree(format, tree)
    ensures Printed(format, Denotes(format, tree))
    decreases tree, 0
  {
    match tree
    case CArray(_, items) => DenotedItemsPrinted(format, items);
    case CObject(_, members) =>
      DenotedMembersPrinted(format, members);
      assert Denotes(format, tree) == Object(DenoteMembers(format, members));
    case _ =>
  }

  lemma {:induction false} DenotedItemsPrinted(format: NumberFormat, items: seq<Item>)
    requires IsFormat(format) && forall item | item in items :: ValidItem(format, item)
    ensures forall value | value in DenoteItems(format, items) :: Printed(format, value)
    decreases items, 0
  {
    if items != [] {
      assert ValidItem(format, items[0]);
      DenotedPrinted(format, items[0].tree);
      DenotedItemsPrinted(format, items[1..]);
    }
  }

  lemma {:induction false} DenotedMembersPrinted(format: NumberFormat, members: seq<Member>)
    requires IsFormat(format) && forall member | member in members :: ValidMember(format, member)
    ensures var fields := DenoteMembers(format, members); forall key | key in fields :: Printed(format, fields[key])
    decreases members, 0
  {
    if members != [] {
      assert ValidMember(format, members[0]);
      assert ValidItem(format, members[0].item);
      DenotedPrinted(format, members[0].item.tree);
      DenotedMembersPrinted(format, members[1..]);
      var fields, others := DenoteMembers(format, members), DenoteMembers(format, members[1..]);
      assert members == [members[0]] + members[1..];
      DenoteMembersCons(format, members[0], members[1..]);
      forall key | key in fields ensures Printed(format, fields[key]) {
        if key in others {
          assert fields[key] == others[key];
        } else {
          assert fields[key] == Denotes(format, members[0].item.tree);
        }
      }
    }
  }

  lemma ParsedPrinted(format: NumberFormat, text: string)
    requires IsFormat(format) && Parse(format, text).Some?
    ensures Printed(format, Parse(format, text).value)
  {
    var value := Parse(format, text).value;
    ParseExactly(format, text, value);
    var item :| ItemText(item) == text && ValidItem(format, item) && Denotes(format, item.tree) == value;
    DenotedPrinted(format, item.tree);
  }

  // ----- The loops as written

  /** escape() as written: one pass over the bytes. */
  method EscapeText(text: string) returns (result: string)
    ensures result == Escape(text)
  {
    result := "\"";
    assert text[0..] == text;
    for i := 0 to |text|
      invariant result + (EscapeChars(text[i..]) + "\"") == Escape(text)
    {
      assert text[i..][1..] == text[i + 1..];
      assert EscapeChars(text[i..]) == EscapeChar(text[i]) + EscapeChars(text[i + 1..]);
      Wtf8.Regroup(EscapeChar(text[i]), EscapeChars(text[i + 1..]), "\"");
      Wtf8.Regroup(result, EscapeChar(text[i]), EscapeChars(text[i + 1..]) + "\"");
      result := result + EscapeChar(text[i]);
    }
    assert text[|text|..] == "";
    assert EscapeChars("") + "\"" == "\"";
    result := result + "\"";
  }

  /** dump() as written: structural recursion, with a loop over the elements. */
  method DumpValue(value: Json) returns (result: string)
    ensures result == Dump(value)
    decreases value, 1
  {
    match value
    case Null => return "null";
    case Bool(flag) => return if flag then "true" else "false";
    case Number(lexeme) => return lexeme;
    case String(text) => result := EscapeText(text);
    case Array(_) => result := DumpArray(value);
    case Object(_) => result := DumpObject(value);
  }

  /** The array branch of dump(): a comma before every element but the first. */
  method DumpArray(value: Json) returns (result: string)
    requires value.Array?
    ensures result == Dump(value)
    decreases value, 0
  {
    var items := value.items;
    result := "[";
    assert items[0..] == items;
    for i := 0 to |items|
      invariant result + ItemsFrom(items, i) == Dump(value)
    {
      ItemsFromStep(items, i);
      Wtf8.Regroup(result, if i == 0 then "" else ",", Dump(items[i]) + ItemsFrom(items, i + 1));
      if i != 0 { result := result + ","; }
      assert result + (Dump(items[i]) + ItemsFrom(items, i + 1)) == Dump(value);
      Wtf8.Regroup(result, Dump(items[i]), ItemsFrom(items, i + 1));
      var item := DumpValue(items[i]);
      result := result + item;
    }
    result := result + "]";
  }

  /** The object branch of dump(): members in the order of their keys. */
  method DumpObject(value: Json) returns (result: string)
    requires value.Object?
    ensures result == Dump(value)
    decreases value, 0, 2
  {
    var keys := SortedKeys(value.fields.Keys);
    FieldsFromStart(value, keys);
    result := DumpKeys(value, keys);
  }

  method DumpKeys(value: Json, keys: seq<string>) returns (result: string)
    requires value.Object? && forall key | key in keys :: key in value.fields
    ensures result == "{" + FieldsFrom(value, keys, 0)
    decreases value, 0, 1
  {
    result := "{";
    ghost var left := FieldsFrom(value, keys, 0);
    ghost var whole := "{" + left;
    for i := 0 to |keys|
      invariant left == FieldsFrom(value, keys, i)
      invariant result + left == whole
    {
      FieldsFromStep(value, keys, i, result);
      var comma := if i != 0 then "," else "";
      var member := DumpMember(value, keys[i]);
      left := FieldsFrom(value, keys, i + 1);
      result := (result + comma) + member;
    }
    result := result + "}";
  }

  method DumpMember(value: Json, key: string) returns (result: string)
    requires value.Object? && key in value.fields
    ensures result == Escape(key) + (":" + Dump(value.fields[key]))
    decreases value, 0, 0
  {
    var name := EscapeText(key);
    var child := DumpValue(value.fields[key]);
    result := name + (":" + child);
  }

  /** What the loop over an array has still to write before element i. */
  ghost function ItemsFrom(items: seq<Json>, i: nat): string
    requires i <= |items|
  {
    if i == |items| then "]" else (if i == 0 then "" else ",") + DumpItems(items[i..])
  }

  lemma ItemsFromStep(items: seq<Json>, i: nat)
    requires i < |items|
    ensures ItemsFrom(items, i) == (if i == 0 then "" else ",") + (Dump(items[i]) + ItemsFrom(items, i + 1))
  {
    assert items[i..][1..] == items[i + 1..];
  }

  ghost function FieldsFrom(value: Json, keys: seq<string>, i: nat): string
    requires value.Object? && i <= |keys| && forall key | key in keys :: key in value.fields
  {
    if i == |keys| then "}" else (if i == 0 then "" else ",") + DumpFields(value, keys[i..])
  }

  lemma NoKeys(fields: map<string, Json>)
    ensures SortedKeys(fields.Keys) == [] <==> fields == map[]
  {
    assert fields.Keys == {} <==> fields == map[];
  }

  lemma FieldsFromStart(value: Json, keys: seq<string>)
    requires value.Object? && keys == SortedKeys(value.fields.Keys)
    ensures "{" + FieldsFrom(value, keys, 0) == Dump(value)
  {
    hide SortedKeys, DumpFields;
    NoKeys(value.fields);
    if keys == [] {
      assert Dump(value) == "{" + "}";
    } else {
      assert Dump(value) == "{" + DumpFields(value, keys);
      assert FieldsFrom(value, keys, 0) == DumpFields(value, keys) by { AllFrom(value, keys); }
    }
  }

  lemma AllFrom(value: Json, keys: seq<string>)
    requires value.Object? && keys != [] && forall key | key in keys :: key in value.fields
    ensures FieldsFrom(value, keys, 0) == DumpFields(value, keys)
  {
    hide DumpFields;
    assert keys[0..] == keys;
    assert "" + DumpFields(value, keys) == DumpFields(value, keys);
  }

  lemma FieldsFromStep(value: Json, keys: seq<string>, i: nat, written: string)
    requires value.Object? && i < |keys| && forall key | key in keys :: key in value.fields
    ensures keys[i] in value.fields
    ensures var comma := if i == 0 then "" else ",";
      var member := Escape(keys[i]) + (":" + Dump(value.fields[keys[i]]));
      written + FieldsFrom(value, keys, i) == ((written + comma) + member) + FieldsFrom(value, keys, i + 1)
  {
    var rest := keys[i..];
    assert rest[1..] == keys[i + 1..];
    assert keys[i] in keys;
    var comma := if i == 0 then "" else ",";
    var key, child, after := Escape(keys[i]), Dump(value.fields[keys[i]]), FieldsFrom(value, keys, i + 1);
    assert FieldsFrom(value, keys, i) == comma + (key + (":" + (child + after)));
    Wtf8.Regroup(key, ":" + child, after);
    Wtf8.Regroup(":", child, after);
    Wtf8.Regroup(written, comma, (key + (":" + child)) + after);
    Wtf8.Regroup(written + comma, key + (":" + child), after);
  }
}
