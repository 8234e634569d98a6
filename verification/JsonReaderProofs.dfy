/** The parser accepts exactly the texts of the grammar whose trees are acceptable, with the value they denote. */
module JsonReaderProofs {
  import opened Options
  import Wtf8
  import opened JsonTree
  import opened JsonGrammar
  import opened JsonReader
  import opened JsonTokenProofs

  // ----- Regrouping concatenations

  lemma ItemLayout(item: Item, tail: string)
    ensures ItemText(item) + tail == item.lead + (TreeText(item.tree) + (item.trail + tail))
  {
    Wtf8.Regroup(item.lead, TreeText(item.tree) + item.trail, tail);
    Wtf8.Regroup(TreeText(item.tree), item.trail, tail);
  }

  lemma MemberLayout(member: Member, tail: string)
    ensures MemberText(member) + tail
         == member.lead + (Quoted(member.key) + (member.gap + (":" + (ItemText(member.item) + tail))))
  {
    var item := ItemText(member.item);
    Wtf8.Regroup(member.lead, Quoted(member.key) + (member.gap + (":" + item)), tail);
    Wtf8.Regroup(Quoted(member.key), member.gap + (":" + item), tail);
    Wtf8.Regroup(member.gap, ":" + item, tail);
    Wtf8.Regroup(":", item, tail);
  }

  /** What follows the first item of an array, up to and beyond the closing bracket. */
  function ItemsTail(items: seq<Item>, rest: string): (tail: string)
    requires items != []
    ensures tail != "" && (tail[0] == ']' || tail[0] == ',')
  {
    if |items| == 1 then "]" + rest else "," + (ItemsText(items[1..]) + rest)
  }

  function MembersTail(members: seq<Member>, rest: string): (tail: string)
    requires members != []
    ensures tail != "" && (tail[0] == '}' || tail[0] == ',')
  {
    if |members| == 1 then "}" + rest else "," + (MembersText(members[1..]) + rest)
  }

  lemma ItemsLayout(items: seq<Item>, rest: string)
    requires items != []
    ensures ItemsText(items) + rest == ItemText(items[0]) + ItemsTail(items, rest)
  {
    if |items| == 1 {
      Wtf8.Regroup(ItemText(items[0]), "]", rest);
    } else {
      Wtf8.Regroup(ItemText(items[0]), "," + ItemsText(items[1..]), rest);
      Wtf8.Regroup(",", ItemsText(items[1..]), rest);
    }
  }

  lemma MembersLayout(members: seq<Member>, rest: string)
    requires members != []
    ensures MembersText(members) + rest == MemberText(members[0]) + MembersTail(members, rest)
  {
    if |members| == 1 {
      Wtf8.Regroup(MemberText(members[0]), "}", rest);
    } else {
      Wtf8.Regroup(MemberText(members[0]), "," + MembersText(members[1..]), rest);
      Wtf8.Regroup(",", MembersText(members[1..]), rest);
    }
  }

  lemma InsertThenAdd(read: map<string, Json>, key: string, value: Json, others: map<string, Json>)
    ensures read[key := value] + others == read + (map[key := value] + others)
  {
  }

  lemma AppendThenAdd(read: seq<Json>, value: Json, others: seq<Json>)
    ensures (read + [value]) + others == read + ([value] + others)
  {
  }

  // ----- Everything the parser accepts is in the grammar

  lemma DenoteItemsCons(format: NumberFormat, item: Item, items: seq<Item>)
    ensures DenoteItems(format, [item] + items) == [Denotes(format, item.tree)] + DenoteItems(format, items)
    ensures items != [] ==> ItemsText([item] + items) == ItemText(item) + ("," + ItemsText(items))
    ensures ItemsText([item]) == ItemText(item) + "]"
  {
    assert ([item] + items)[1..] == items;
  }

  lemma DenoteMembersCons(format: NumberFormat, member: Member, members: seq<Member>)
    ensures DenoteMembers(format, [member] + members)
         == map[PiecesValue(member.key) := Denotes(format, member.item.tree)] + DenoteMembers(format, members)
    ensures members != [] ==> MembersText([member] + members) == MemberText(member) + ("," + MembersText(members))
    ensures MembersText([member]) == MemberText(member) + "}"
  {
    assert ([member] + members)[1..] == members;
  }

  /** No key of the members has been read already. */
  predicate FreshKeys(members: seq<Member>, read: map<string, Json>) {
    forall member | member in members :: PiecesValue(member.key) !in read
  }

  lemma StringTokenSound(s: string) returns (tree: Cst)
    requires StartsWith(s, '"') && ReadString(s).Some?
    ensures tree.CString? && ValidPieces(tree.pieces)
    ensures s == TreeText(tree) + ReadString(s).value.1
    ensures ReadString(s).value.0 == PiecesValue(tree.pieces)
  {
    var lead, pieces := ReadStringSound(s);
    tree := CString(pieces);
    assert s == Quoted(pieces) + ReadString(s).value.1;
  }

  lemma NumberTokenSound(format: NumberFormat, s: string) returns (tree: Cst)
    requires ReadNumber(format, s).Some?
    ensures ValidTree(format, tree)
    ensures s == TreeText(tree) + ReadNumber(format, s).value.1
    ensures Denotes(format, tree) == ReadNumber(format, s).value.0
  {
    hide ScanNumber, IsNumber;
    var length := ScanNumber(s).value;
    ScanNumberSound(s);
    tree := CNumber(s[..length]);
    assert s == s[..length] + s[length..];
  }

  lemma TokenSound(format: NumberFormat, s: string) returns (tree: Cst)
    requires s != "" && SkipSpace(s) == s && s[0] != '{' && s[0] != '['
    requires ReadValue(format, s).Some?
    ensures ValidTree(format, tree)
    ensures s == TreeText(tree) + ReadValue(format, s).value.1
    ensures Denotes(format, tree) == ReadValue(format, s).value.0
  {
    if s[0] == '"' {
      tree := StringTokenSound(s);
    } else if "true" <= s {
      tree := CTrue;
      assert s == "true" + s[4..];
    } else if "false" <= s {
      tree := CFalse;
      assert s == "false" + s[5..];
    } else if "null" <= s {
      tree := CNull;
      assert s == "null" + s[4..];
    } else {
      tree := NumberTokenSound(format, s);
    }
  }

  lemma SkipSpaceTwice(s: string)
    ensures SkipSpace(SkipSpace(s)) == SkipSpace(s)
  {
  }

  lemma {:induction false} ValueSound(format: NumberFormat, s: string) returns (item: Item)
    requires ReadValue(format, s).Some?
    ensures ValidItem(format, item)
    ensures s == ItemText(item) + ReadValue(format, s).value.1
    ensures Denotes(format, item.tree) == ReadValue(format, s).value.0
    ensures item.tree.CObject? <==> SkipSpace(s)[0] == '{'
    decreases |s|, 2
  {
    var lead := SkipSpaceSplit(s);
    var token := SkipSpace(s);
    var rest := ReadValue(format, s).value.1;
    SkipSpaceTwice(s);
    var tree: Cst;
    if token[0] == '[' {
      tree := ArraySound(format, token);
    } else if token[0] == '{' {
      tree := ObjectSound(format, token);
    } else {
      tree := TokenSound(format, token);
    }
    item := Item(lead, tree, "");
    assert TreeText(tree) + "" == TreeText(tree);
    assert s == lead + (TreeText(tree) + rest);
    assert TreeText(tree) != "" ==> token[0] == TreeText(tree)[0];
  }

  lemma {:induction false} ArraySound(format: NumberFormat, s: string) returns (tree: Cst)
    requires StartsWith(s, '[') && ReadArray(format, s).Some?
    ensures ValidTree(format, tree) && tree.CArray?
    ensures s == TreeText(tree) + ReadArray(format, s).value.1
    ensures Denotes(format, tree) == ReadArray(format, s).value.0
    decreases |s|, 1
  {
    var lead := SkipSpaceSplit(s[1..]);
    var inside := SkipSpace(s[1..]);
    assert s == "[" + (lead + inside);
    if StartsWith(inside, ']') {
      tree := CArray(lead, []);
      EmptyText("[", lead, "]", inside);
    } else {
      var items := ItemsSound(format, inside, []);
      tree := ArrayTree(format, lead, items);
      var rest := ReadArray(format, s).value.1;
      Wtf8.Regroup(lead, ItemsText(items), rest);
      Wtf8.Regroup("[", lead + ItemsText(items), rest);
      assert [] + DenoteItems(format, items) == DenoteItems(format, items);
    }
  }

  lemma EmptyText(begin: string, lead: string, end: string, inside: string)
    requires |end| == 1 && StartsWith(inside, end[0])
    ensures begin + (lead + inside) == begin + (lead + end) + inside[1..]
  {
    assert inside == end + inside[1..];
  }

  lemma ArrayTree(format: NumberFormat, lead: string, items: seq<Item>) returns (tree: Cst)
    requires items != [] && AllSpace(lead)
    requires forall item | item in items :: ValidItem(format, item)
    ensures ValidTree(format, tree) && tree.CArray?
    ensures TreeText(tree) == "[" + (lead + ItemsText(items))
    ensures Denotes(format, tree) == Array(DenoteItems(format, items))
  {
    var items' := [items[0].(lead := lead + items[0].lead)] + items[1..];
    tree := CArray("", items');
    LeadItem(format, lead, items, items');
  }

  /** White space read before the first item belongs to that item. */
  lemma LeadItem(format: NumberFormat, lead: string, items: seq<Item>, items': seq<Item>)
    requires items != [] && AllSpace(lead)
    requires forall item | item in items :: ValidItem(format, item)
    requires items' == [items[0].(lead := lead + items[0].lead)] + items[1..]
    ensures forall item | item in items' :: ValidItem(format, item)
    ensures ItemsText(items') == lead + ItemsText(items)
    ensures DenoteItems(format, items') == DenoteItems(format, items)
  {
    assert items == [items[0]] + items[1..];
    assert items'[1..] == items[1..];
    assert items[0] in items;
    assert ItemText(items'[0]) == lead + ItemText(items[0]);
  }

  /** A value and the white space after it form one item. */
  lemma TrailSound(first: Item, rest: string, trail: string, after: string) returns (item: Item)
    requires rest == trail + after
    ensures item == first.(trail := first.trail + trail)
    ensures ItemText(first) + rest == ItemText(item) + after
  {
    item := first.(trail := first.trail + trail);
    ItemLayout(first, rest);
    ItemLayout(item, after);
    Wtf8.Regroup(first.trail, trail, after);
  }

  /** The first item read, and what was left after it and the white space behind it. */
  lemma {:induction false} ItemSound(format: NumberFormat, s: string, read: seq<Json>)
    returns (item: Item, value: Json, after: string)
    requires ReadItems(format, s, read).Some?
    ensures ValidItem(format, item) && value == Denotes(format, item.tree)
    ensures s == ItemText(item) + after && |after| < |s|
    ensures ReadItems(format, s, read) ==
      if StartsWith(after, ']') then Some((Array(read + [value]), after[1..]))
      else if StartsWith(after, ',') then ReadItems(format, after[1..], read + [value])
      else None
    decreases |s|, 3
  {
    var first := ValueSound(format, s);
    value := ReadValue(format, s).value.0;
    var rest := ReadValue(format, s).value.1;
    var trail := SkipSpaceSplit(rest);
    after := SkipSpace(rest);
    item := TrailSound(first, rest, trail, after);
  }

  lemma {:induction false} ItemsSound(format: NumberFormat, s: string, read: seq<Json>) returns (items: seq<Item>)
    requires ReadItems(format, s, read).Some?
    ensures items != [] && forall item | item in items :: ValidItem(format, item)
    ensures s == ItemsText(items) + ReadItems(format, s, read).value.1
    ensures ReadItems(format, s, read).value.0 == Array(read + DenoteItems(format, items))
    decreases |s|, 4
  {
    var item, value, after := ItemSound(format, s, read);
    var end := ReadItems(format, s, read).value.1;
    if StartsWith(after, ']') {
      items := [item];
      DenoteItemsCons(format, item, []);
      AppendThenAdd(read, value, []);
      assert after == ItemsTail(items, end);
    } else {
      var others := ItemsSound(format, after[1..], read + [value]);
      items := [item] + others;
      DenoteItemsCons(format, item, others);
      AppendThenAdd(read, value, DenoteItems(format, others));
      assert items[1..] == others;
      assert after == ItemsTail(items, end);
    }
    ItemsLayout(items, end);
  }

  lemma {:induction false} ObjectSound(format: NumberFormat, s: string) returns (tree: Cst)
    requires StartsWith(s, '{') && ReadObject(format, s).Some?
    ensures ValidTree(format, tree) && tree.CObject?
    ensures s == TreeText(tree) + ReadObject(format, s).value.1
    ensures Denotes(format, tree) == ReadObject(format, s).value.0
    decreases |s|, 1
  {
    var lead := SkipSpaceSplit(s[1..]);
    var inside := SkipSpace(s[1..]);
    assert s == "{" + (lead + inside);
    if StartsWith(inside, '}') {
      tree := CObject(lead, []);
      EmptyText("{", lead, "}", inside);
    } else {
      var members := MembersSound(format, inside, map[]);
      tree := ObjectTree(format, lead, members);
      var rest := ReadObject(format, s).value.1;
      Wtf8.Regroup(lead, MembersText(members), rest);
      Wtf8.Regroup("{", lead + MembersText(members), rest);
      assert map[] + DenoteMembers(format, members) == DenoteMembers(format, members);
    }
  }

  lemma ObjectTree(format: NumberFormat, lead: string, members: seq<Member>) returns (tree: Cst)
    requires members != [] && AllSpace(lead) && DistinctKeys(members)
    requires forall member | member in members :: ValidMember(format, member)
    ensures ValidTree(format, tree) && tree.CObject?
    ensures TreeText(tree) == "{" + (lead + MembersText(members))
    ensures Denotes(format, tree) == Object(DenoteMembers(format, members))
  {
    var members' := [members[0].(lead := lead + members[0].lead)] + members[1..];
    tree := CObject("", members');
    LeadMember(format, lead, members, members');
  }

  lemma LeadMember(format: NumberFormat, lead: string, members: seq<Member>, members': seq<Member>)
    requires members != [] && AllSpace(lead) && DistinctKeys(members)
    requires forall member | member in members :: ValidMember(format, member)
    requires members' == [members[0].(lead := lead + members[0].lead)] + members[1..]
    ensures DistinctKeys(members')
    ensures forall member | member in members' :: ValidMember(format, member)
    ensures MembersText(members') == lead + MembersText(members)
    ensures DenoteMembers(format, members') == DenoteMembers(format, members)
  {
    var others := members[1..];
    assert members == [members[0]] + others;
    assert members'[1..] == others;
    assert members[0] in members;
    assert forall i | 0 <= i < |members| :: members'[i].key == members[i].key;
    Wtf8.Regroup(lead, members[0].lead, Quoted(members[0].key) + (members[0].gap + (":" + ItemText(members[0].item))));
    assert MemberText(members'[0]) == lead + MemberText(members[0]);
    if others == [] {
      Wtf8.Regroup(lead, MemberText(members[0]), "}");
    } else {
      Wtf8.Regroup(lead, MemberText(members[0]), "," + MembersText(others));
    }
  }

  lemma {:induction false} MembersSound(format: NumberFormat, s: string, read: map<string, Json>)
    returns (members: seq<Member>)
    requires ReadMembers(format, s, read).Some?
    ensures members != [] && forall member | member in members :: ValidMember(format, member)
    ensures DistinctKeys(members) && FreshKeys(members, read)
    ensures s == MembersText(members) + ReadMembers(format, s, read).value.1
    ensures ReadMembers(format, s, read).value.0 == Object(read + DenoteMembers(format, members))
    decreases |s|, 3
  {
    var member, key, value, after := MemberSound(format, s, read);
    var end := ReadMembers(format, s, read).value.1;
    if StartsWith(after, '}') {
      members := [member];
      assert after == "}" + end;
      AddedKeyFresh(member, [], read, key, value);
      MembersAssembled(format, member, [], read, value, after, end);
    } else {
      var others := MembersSound(format, after[1..], read[key := value]);
      members := [member] + others;
      assert after == "," + (MembersText(others) + end);
      AddedKeyFresh(member, others, read, key, value);
      MembersAssembled(format, member, others, read, value, after, end);
    }
  }

  lemma MembersAssembled(format: NumberFormat, member: Member, others: seq<Member>, read: map<string, Json>,
    value: Json, after: string, end: string)
    requires value == Denotes(format, member.item.tree)
    requires after == if others == [] then "}" + end else "," + (MembersText(others) + end)
    ensures MemberText(member) + after == MembersText([member] + others) + end
    ensures read[PiecesValue(member.key) := value] + DenoteMembers(format, others)
         == read + DenoteMembers(format, [member] + others)
    ensures others == [] ==> read[PiecesValue(member.key) := value] == read + DenoteMembers(format, [member])
  {
    var members := [member] + others;
    assert members[1..] == others;
    DenoteMembersCons(format, member, others);
    InsertThenAdd(read, PiecesValue(member.key), value, DenoteMembers(format, others));
    assert others == [] ==> members == [member];
    var inserted := read[PiecesValue(member.key) := value];
    assert inserted + map[] == inserted;
    MembersLayout(members, end);
  }

  lemma AddedKeyFresh(member: Member, others: seq<Member>, read: map<string, Json>, key: string, value: Json)
    requires key == PiecesValue(member.key) && key !in read
    requires DistinctKeys(others) && FreshKeys(others, read[key := value])
    ensures DistinctKeys([member] + others) && FreshKeys([member] + others, read)
  {
    var members := [member] + others;
    forall j | 1 <= j < |members| ensures PiecesValue(members[j].key) != key && PiecesValue(members[j].key) !in read {
      assert members[j] in others;
    }
  }

  /** The first member read, and what was left after it and the white space behind it. */
  lemma {:induction false} MemberSound(format: NumberFormat, s: string, read: map<string, Json>)
    returns (member: Member, key: string, value: Json, after: string)
    requires ReadMembers(format, s, read).Some?
    ensures ValidMember(format, member) && key == PiecesValue(member.key) && key !in read
    ensures value == Denotes(format, member.item.tree)
    ensures s == MemberText(member) + after && |after| < |s|
    ensures ReadMembers(format, s, read) ==
      if StartsWith(after, '}') then Some((Object(read[key := value]), after[1..]))
      else if StartsWith(after, ',') then ReadMembers(format, after[1..], read[key := value])
      else None
    decreases |s|, 2
  {
    var lead, pieces := ReadStringSound(s);
    key := ReadString(s).value.0;
    var afterKey := ReadString(s).value.1;
    var gap := SkipSpaceSplit(afterKey);
    var colon := SkipSpace(afterKey);
    var first := ValueSound(format, colon[1..]);
    value := ReadValue(format, colon[1..]).value.0;
    var rest := ReadValue(format, colon[1..]).value.1;
    var trail := SkipSpaceSplit(rest);
    after := SkipSpace(rest);
    var item := TrailSound(first, rest, trail, after);
    member := Member(lead, pieces, gap, item);
    assert colon == ":" + (ItemText(item) + after);
    MemberLayout(member, after);
  }

  // ----- What of the grammar is accepted

  lemma TreeTextFirst(tree: Cst)
    requires IsTree(tree)
    ensures TreeText(tree) != "" && !IsSpace(TreeText(tree)[0])
    ensures TreeText(tree)[0] == '"' <==> tree.CString?
    ensures TreeText(tree)[0] == '{' <==> tree.CObject?
    ensures TreeText(tree)[0] == '[' <==> tree.CArray?
    ensures tree.CNumber? ==> TreeText(tree)[0] == '-' || IsDigit(TreeText(tree)[0])
  {
    if tree.CNumber? {
      var minus, integer, fraction, exponent :|
        NumberParts(minus, integer, fraction, exponent)
        && tree.lexeme == minus + integer + fraction + exponent;
      assert tree.lexeme[0] == if minus == "" then integer[0] else '-';
    }
  }

  /** What the reader should give for a tree of the grammar with `rest` behind it. */
  function Outcome(format: NumberFormat, tree: Cst, rest: string): Option<(Json, string)> {
    if Acceptable(format, tree) then Some((Denotes(format, tree), rest)) else None
  }

  lemma TokenExactly(format: NumberFormat, tree: Cst, rest: string)
    requires IsTree(tree) && !tree.CArray? && !tree.CObject?
    requires tree.CNumber? ==> Ends(rest)
    ensures ReadValue(format, TreeText(tree) + rest) == Outcome(format, tree, rest)
  {
    var s := TreeText(tree) + rest;
    TreeTextFirst(tree);
    assert s[0] == TreeText(tree)[0];
    assert SkipSpace(s) == s;
    match tree
    case CString(pieces) =>
      ReadStringExactly("", pieces, rest);
      assert "" + (Quoted(pieces) + rest) == s;
    case CNumber(lexeme) =>
      ScanNumberComplete(lexeme, rest);
      assert s[..|lexeme|] == lexeme && s[|lexeme|..] == rest;
    case CTrue => assert s[4..] == rest;
    case CFalse => assert s[5..] == rest;
    case CNull => assert s[4..] == rest;
  }

  lemma ReadValueLead(format: NumberFormat, lead: string, s: string)
    requires AllSpace(lead) && s != "" && !IsSpace(s[0])
    ensures ReadValue(format, lead + s) == ReadValue(format, s)
  {
    SkipSpaceOver(lead, s);
    SkipSpaceOver("", s);
    assert "" + s == s;
  }

  lemma {:induction false} ValueExactly(format: NumberFormat, lead: string, tree: Cst, rest: string)
    requires AllSpace(lead) && IsTree(tree)
    requires tree.CNumber? ==> Ends(rest)
    ensures ReadValue(format, lead + (TreeText(tree) + rest)) == Outcome(format, tree, rest)
    decreases tree, 3
  {
    hide ReadValue, Outcome, TreeText;
    var s := TreeText(tree) + rest;
    TreeTextFirst(tree);
    assert s[0] == TreeText(tree)[0];
    ReadValueLead(format, lead, s);
    if tree.CArray? {
      ArrayExactly(format, tree, rest);
    } else if tree.CObject? {
      ObjectExactly(format, tree, rest);
    } else {
      TokenExactly(format, tree, rest);
    }
  }

  lemma ReadArrayToken(format: NumberFormat, s: string)
    requires StartsWith(s, '[')
    ensures ReadValue(format, s) == ReadArray(format, s)
  {
    assert SkipSpace(s) == s;
  }

  lemma ReadObjectToken(format: NumberFormat, s: string)
    requires StartsWith(s, '{')
    ensures ReadValue(format, s) == ReadObject(format, s)
  {
    assert SkipSpace(s) == s;
  }

  lemma {:induction false} ArrayExactly(format: NumberFormat, tree: Cst, rest: string)
    requires tree.CArray? && IsTree(tree)
    ensures ReadValue(format, TreeText(tree) + rest) == Outcome(format, tree, rest)
    decreases tree, 2
  {
    var items := tree.items;
    var inside := if items == [] then tree.blank + ("]" + rest) else ItemsText(items) + rest;
    var s := "[" + inside;
    assert TreeText(tree) + rest == s && s[1..] == inside;
    ReadArrayToken(format, s);
    if items == [] {
      SkipSpaceOver(tree.blank, "]" + rest);
      assert ("]" + rest)[1..] == rest;
      assert Acceptable(format, tree) && Denotes(format, tree) == Array([]);
    } else {
      ItemsExactly(format, items, rest, []);
      ItemsSkip(format, items, rest);
      assert [] + DenoteItems(format, items) == DenoteItems(format, items);
      hide ReadValue, ReadItems, ItemsText, TreeText;
    }
  }

  lemma {:induction false} ObjectExactly(format: NumberFormat, tree: Cst, rest: string)
    requires tree.CObject? && IsTree(tree)
    ensures ReadValue(format, TreeText(tree) + rest) == Outcome(format, tree, rest)
    decreases tree, 2
  {
    var members := tree.members;
    var inside := if members == [] then tree.blank + ("}" + rest) else MembersText(members) + rest;
    var s := "{" + inside;
    assert TreeText(tree) + rest == s && s[1..] == inside;
    ReadObjectToken(format, s);
    if members == [] {
      SkipSpaceOver(tree.blank, "}" + rest);
      assert ("}" + rest)[1..] == rest;
      assert Acceptable(format, tree) && Denotes(format, tree) == Object(map[]);
    } else {
      MembersExactly(format, members, rest, map[]);
      MembersSkip(format, members, rest);
      assert map[] + DenoteMembers(format, members) == DenoteMembers(format, members);
      hide ReadValue, ReadMembers, MembersText, TreeText;
    }
  }

  /** Skipping the white space before the first item changes nothing, and shows no `]`. */
  lemma ItemsSkip(format: NumberFormat, items: seq<Item>, rest: string)
    requires items != [] && forall item | item in items :: IsItem(item)
    ensures var s := ItemsText(items) + rest;
      !StartsWith(SkipSpace(s), ']') && ReadItems(format, SkipSpace(s), []) == ReadItems(format, s, [])
  {
    var item := items[0];
    assert IsItem(item);
    TreeTextFirst(item.tree);
    var after := TreeText(item.tree) + (item.trail + ItemsTail(items, rest));
    ItemsLayout(items, rest);
    ItemLayout(item, ItemsTail(items, rest));
    assert after[0] == TreeText(item.tree)[0];
    assert TreeText(item.tree)[0] != ']' by {
      match item.tree case CNull => case CTrue => case CFalse => case _ =>
    }
    SkipSpaceOver(item.lead, after);
    ReadValueLead(format, item.lead, after);
  }

  lemma MembersSkip(format: NumberFormat, members: seq<Member>, rest: string)
    requires members != [] && forall member | member in members :: IsMember(member)
    ensures var s := MembersText(members) + rest;
      !StartsWith(SkipSpace(s), '}') && ReadMembers(format, SkipSpace(s), map[]) == ReadMembers(format, s, map[])
  {
    var member := members[0];
    assert IsMember(member);
    var tail := MembersTail(members, rest);
    var after := Quoted(member.key) + (member.gap + (":" + (ItemText(member.item) + tail)));
    MembersLayout(members, rest);
    MemberLayout(member, tail);
    assert after[0] == '"';
    SkipSpaceOver(member.lead, after);
    SkipSpaceOver("", after);
    assert "" + after == after;
  }

  predicate AcceptableItems(format: NumberFormat, items: seq<Item>) {
    forall item | item in items :: Acceptable(format, item.tree)
  }

  lemma {:induction false} ItemsExactly(format: NumberFormat, items: seq<Item>, rest: string, read: seq<Json>)
    requires items != [] && forall item | item in items :: IsItem(item)
    ensures ReadItems(format, ItemsText(items) + rest, read)
         == if AcceptableItems(format, items) then Some((Array(read + DenoteItems(format, items)), rest)) else None
    decreases items, 0
  {
    var item := items[0];
    assert item in items;
    var tail := ItemsTail(items, rest);
    ItemsLayout(items, rest);
    ReadItemsStep(format, item, tail, read);
    var value := Denotes(format, item.tree);
    if |items| == 1 {
      assert tail[1..] == rest;
      assert DenoteItems(format, items) == [value];
    } else {
      var others := items[1..];
      assert items == [item] + others;
      assert tail[1..] == ItemsText(others) + rest;
      ItemsExactly(format, others, rest, read + [value]);
      AppendThenAdd(read, value, DenoteItems(format, others));
      DenoteItemsCons(format, item, others);
      assert AcceptableItems(format, items) <==> Acceptable(format, item.tree) && AcceptableItems(format, others);
    }
    hide ReadItems, ItemsText, TreeText, ItemText;
  }

  lemma {:induction false} ReadItemsStep(format: NumberFormat, item: Item, tail: string, read: seq<Json>)
    requires IsItem(item) && tail != "" && tail[0] in "],"
    ensures var read' := read + [Denotes(format, item.tree)];
      ReadItems(format, ItemText(item) + tail, read)
      == if !Acceptable(format, item.tree) then None
         else if tail[0] == ']' then Some((Array(read'), tail[1..]))
         else ReadItems(format, tail[1..], read')
    decreases item, 1
  {
    ItemLayout(item, tail);
    EndsAfter(item.trail, tail);
    ValueExactly(format, item.lead, item.tree, item.trail + tail);
  }

  ghost predicate AcceptableMembers(format: NumberFormat, members: seq<Member>, read: map<string, Json>) {
    && (forall member | member in members :: AcceptableMember(format, member))
    && DistinctKeys(members) && FreshKeys(members, read)
  }

  lemma {:induction false} MembersExactly(
    format: NumberFormat, members: seq<Member>, rest: string, read: map<string, Json>)
    requires members != [] && forall member | member in members :: IsMember(member)
    ensures ReadMembers(format, MembersText(members) + rest, read)
         == if AcceptableMembers(format, members, read)
            then Some((Object(read + DenoteMembers(format, members)), rest)) else None
    decreases members, 0
  {
    var member, others, tail := members[0], members[1..], MembersTail(members, rest);
    var key, value := PiecesValue(member.key), Denotes(format, member.item.tree);
    assert member in members && members == [member] + others;
    AcceptableCons(format, member, others, read, value);
    DenoteMembersCons(format, member, others);
    InsertThenAdd(read, key, value, DenoteMembers(format, others));
    MembersLayout(members, rest);
    hide ReadMembers, MembersText, MemberText, Denotes, PiecesValue, AcceptableMember;
    ReadMembersStep(format, member, tail, read);
    if others == [] {
      assert tail[1..] == rest;
      assert read[key := value] + map[] == read[key := value];
    } else {
      assert tail[1..] == MembersText(others) + rest;
      MembersExactly(format, others, rest, read[key := value]);
    }
  }

  lemma AcceptableCons(format: NumberFormat, member: Member, others: seq<Member>, read: map<string, Json>, value: Json)
    ensures AcceptableMembers(format, [member] + others, read) <==>
      && AcceptableMember(format, member) && PiecesValue(member.key) !in read
      && AcceptableMembers(format, others, read[PiecesValue(member.key) := value])
  {
    var members, key := [member] + others, PiecesValue(member.key);
    assert members[0] == member && members[1..] == others;
    hide AcceptableMember, PiecesValue;
    if AcceptableMembers(format, members, read) {
      assert member in members;
      forall i | 0 <= i < |others| ensures PiecesValue(others[i].key) !in read[key := value] {
        assert others[i] == members[i + 1] && members[i + 1] in members;
      }
      forall i, j | 0 <= i < j < |others| ensures PiecesValue(others[i].key) != PiecesValue(others[j].key) {
        assert others[i] == members[i + 1] && others[j] == members[j + 1];
      }
    }
    if AcceptableMember(format, member) && key !in read && AcceptableMembers(format, others, read[key := value]) {
      AddedKeyFresh(member, others, read, key, value);
    }
  }

  /** The reader takes a member if its key and value are acceptable and the key is new. */
  lemma {:induction false} ReadMembersStep(
    format: NumberFormat, member: Member, tail: string, read: map<string, Json>)
    requires IsMember(member) && tail != "" && tail[0] in "},"
    ensures var key := PiecesValue(member.key);
      var read' := read[key := Denotes(format, member.item.tree)];
      ReadMembers(format, MemberText(member) + tail, read)
      == if !AcceptableMember(format, member) || key in read then None
         else if tail[0] == '}' then Some((Object(read'), tail[1..]))
         else ReadMembers(format, tail[1..], read')
    decreases member, 1
  {
    MemberExactly(format, member, tail);
  }

  lemma EndsAfter(trail: string, tail: string)
    requires AllSpace(trail) && tail != "" && tail[0] in "]},"
    ensures Ends(trail + tail) && SkipSpace(trail + tail) == tail
  {
    assert trail != "" ==> (trail + tail)[0] in trail;
    assert trail == "" ==> trail + tail == tail;
    SkipSpaceOver(trail, tail);
  }

  lemma {:induction false} MemberExactly(format: NumberFormat, member: Member, tail: string)
    requires IsMember(member) && tail != "" && tail[0] in "},"
    ensures var s := MemberText(member) + tail;
      if !Paired(member.key) then ReadString(s) == None
      else
        && ReadString(s).Some? && ReadString(s).value.0 == PiecesValue(member.key)
        && var colon := SkipSpace(ReadString(s).value.1);
        && StartsWith(colon, ':')
        && ReadValue(format, colon[1..]) == Outcome(format, member.item.tree, member.item.trail + tail)
    ensures SkipSpace(member.item.trail + tail) == tail
    decreases member, 0
  {
    var item := member.item;
    var afterColon := ItemText(item) + tail;
    MemberLayout(member, tail);
    ItemLayout(item, tail);
    ReadStringExactly(member.lead, member.key, member.gap + (":" + afterColon));
    SkipSpaceOver(member.gap, ":" + afterColon);
    assert (":" + afterColon)[1..] == afterColon;
    EndsAfter(item.trail, tail);
    ValueExactly(format, item.lead, item.tree, item.trail + tail);
  }

  // ----- Whole texts

  lemma ParsedSpells(format: NumberFormat, text: string, value: Json)
    requires Parse(format, text) == Some(value)
    ensures Spells(format, text, value)
  {
    var item := ValueSound(format, text);
    var rest := ReadValue(format, text).value.1;
    var trail := SkipSpaceSplit(rest);
    var whole := TrailSound(item, rest, trail, "");
    assert ItemText(whole) + "" == ItemText(whole);
    assert ValidItem(format, whole) && Denotes(format, whole.tree) == value;
  }

  /** A text of the grammar is accepted if and only if its tree is acceptable, with the value that denotes. */
  lemma GrammarAccepted(format: NumberFormat, item: Item)
    requires IsItem(item)
    ensures Parse(format, ItemText(item))
         == if Acceptable(format, item.tree) then Some(Denotes(format, item.tree)) else None
  {
    assert item.trail != "" ==> item.trail[0] in item.trail;
    ValueExactly(format, item.lead, item.tree, item.trail);
    SkipSpaceOver(item.trail, "");
    assert item.trail + "" == item.trail;
  }

  /** A text parses to a value if and only if it is a text of the grammar whose tree is acceptable and
      denotes that value. */
  lemma ParseExactly(format: NumberFormat, text: string, value: Json)
    ensures Parse(format, text) == Some(value) <==> Spells(format, text, value)
  {
    if Parse(format, text) == Some(value) {
      ParsedSpells(format, text, value);
    }
    if Spells(format, text, value) {
      var item :| ItemText(item) == text && ValidItem(format, item) && Denotes(format, item.tree) == value;
      GrammarAccepted(format, item);
    }
  }

  /** All trees of one text agree on what it means and on whether it is accepted. */
  lemma OneMeaning(format: NumberFormat, a: Item, b: Item)
    requires IsItem(a) && IsItem(b) && ItemText(a) == ItemText(b)
    ensures Acceptable(format, a.tree) <==> Acceptable(format, b.tree)
    ensures Acceptable(format, a.tree) ==> Denotes(format, a.tree) == Denotes(format, b.tree)
  {
    GrammarAccepted(format, a);
    GrammarAccepted(format, b);
  }

  /** One half of a surrogate pair alone is a string of the grammar that the parser refuses. */
  lemma HalfPairRefused(format: NumberFormat, hex: string)
    requires IsHex4(hex) && (Wtf8.IsHigh(HexValue(hex)) || Wtf8.IsLow(HexValue(hex)))
    ensures IsItem(Item("", CString([Escaped(hex)]), ""))
    ensures Parse(format, "\"\\u" + hex + "\"") == None
  {
    var pieces := [Escaped(hex)];
    var item := Item("", CString(pieces), "");
    assert !PairedAt(pieces, 0);
    assert PiecesText(pieces) == "\\u" + hex;
    assert ItemText(item) == "\"\\u" + hex + "\"";
    GrammarAccepted(format, item);
  }
}
