/** serialize_session and deserialize_session of src/core/session.cpp. */
module SessionDocument {
  import opened Options
  import opened JsonTree
  import opened JsonGrammar
  import opened JsonReader
  import opened JsonWriter
  import opened Model
  import opened SessionCodec
  import opened SessionCodecLoops
  import opened SessionRoundTrip
  import opened SessionPreservation
  import JsonParser
  import Decimals

  datatype Document = Document(application: ApplicationState, preservedJson: string, cleanShutdown: bool)

  /** The root the preserved text stands for: empty when there is none or it does not parse. */
  function PreservedRoot(format: NumberFormat, preserved: string): Json {
    if preserved == "" then Object(map[])
    else
      match Parse(format, preserved)
      case Some(root) => root
      case None => Object(map[])
  }

  function Written(format: NumberFormat, document: Document): Json {
    Encode(document.application, PreservedRoot(format, document.preservedJson), document.cleanShutdown)
  }

  function Serialize(format: NumberFormat, document: Document): string {
    Dump(Written(format, document)) + "\n"
  }

  function CleanShutdownOf(root: Json): bool {
    if root.Object? then
      match BoolField(root.fields, "clean_shutdown")
      case Some(flag) => flag
      case None => true
    else true
  }

  function Deserialize(format: NumberFormat, text: string): Option<Document> {
    match Parse(format, text)
    case None => None
    case Some(root) =>
      match Decode(root)
      case None => None
      case Some(application) => Some(Document(application, text, CleanShutdownOf(root)))
  }

  method ParsePreserved(format: NumberFormat, preserved: string) returns (root: Json)
    ensures root == PreservedRoot(format, preserved)
  {
    root := Object(map[]);
    if preserved != "" {
      var parser := new JsonParser.Parser(preserved, format);
      var parsed := parser.ParseAll();
      if parsed.Some? { root := parsed.value; }
    }
  }

  method SerializeSession(format: NumberFormat, document: Document) returns (text: string)
    ensures text == Serialize(format, document)
  {
    var root := ParsePreserved(format, document.preservedJson);
    var encoded := EncodeSession(document.application, root, document.cleanShutdown);
    text := DumpValue(encoded);
    text := text + "\n";
  }

  method DeserializeSession(format: NumberFormat, text: string) returns (document: Option<Document>)
    ensures document == Deserialize(format, text)
  {
    var parser := new JsonParser.Parser(text, format);
    var parsed := parser.ParseAll();
    if parsed.None? { return None; }
    var application := DecodeSession(parsed.value);
    if application.None? { return None; }
    var cleanShutdown := ReadCleanShutdown(parsed.value);
    return Some(Document(application.value, text, cleanShutdown));
  }

  method ReadCleanShutdown(root: Json) returns (cleanShutdown: bool)
    ensures cleanShutdown == CleanShutdownOf(root)
  {
    cleanShutdown := true;
    if root.Object? {
      var flag := BoolField(root.fields, "clean_shutdown");
      if flag.Some? { cleanShutdown := flag.value; }
    }
  }

  // ----- What is assumed of doubles

  /** Reading a number gives a printed double, printed doubles read as themselves, and every int
      prints as its decimal digits (17 significant digits hold any 32-bit int). */
  ghost predicate SoundFormat(format: NumberFormat) {
    IsFormat(format) && forall n: Int32 :: format(Decimals.Decimal(n)) == Some(Decimals.Decimal(n))
  }

  /** Taking every number text as it stands is one such format, so the assumption can be met. */
  lemma SoundFormatExists(format: NumberFormat)
    requires forall lexeme :: format(lexeme) == if IsNumber(lexeme) then Some(lexeme) else None
    ensures SoundFormat(format)
  {
    forall n: Int32 ensures format(Decimals.Decimal(n)) == Some(Decimals.Decimal(n)) {
      Decimals.DecimalIsNumber(n);
    }
  }

  /** The state's doubles are doubles: their texts read as themselves. */
  ghost predicate PrintedRatios(format: NumberFormat, application: ApplicationState) {
    forall g, r | 0 <= g < |application.groups| && 0 <= r < |application.groups[g].dividerRatios| ::
      Printed(format, Number(application.groups[g].dividerRatios[r]))
  }

  /** What the store may be asked to write: a valid state over nothing or over what was once read. */
  ghost predicate Writable(format: NumberFormat, document: Document) {
    && ValidApplication(document.application)
    && AllPinned(document.application.pinnedLocations)
    && ParentsNamed(document.application)
    && PrintedRatios(format, document.application)
    && (document.preservedJson == "" || Deserialize(format, document.preservedJson).Some?)
  }

  // ----- Everything written is printed

  ghost predicate PrintedFields(format: NumberFormat, fields: Fields) {
    forall name | name in fields :: Printed(format, fields[name])
  }

  lemma PrintedInteger(format: NumberFormat, n: Int32)
    requires SoundFormat(format)
    ensures Printed(format, Integer(n))
  {
    Decimals.DecimalIsNumber(n);
  }

  lemma {:induction false} PreservedPrinted(format: NumberFormat, values: seq<Json>, name: string, text: string)
    requires forall value | value in values :: Printed(format, value)
    ensures PrintedFields(format, PreservedBy(values, name, text))
  {
    PreservedFrom(values, name, text);
    var found := PreservedBy(values, name, text);
    if found != map[] {
      var i :| 0 <= i < |values| && values[i] == Object(found);
      assert values[i] in values;
    }
  }

  lemma ArrayPrinted(format: NumberFormat, fields: Fields, name: string)
    requires PrintedFields(format, fields)
    ensures forall value | value in ArrayField(fields, name) :: Printed(format, value)
    ensures PrintedFields(format, ObjectField(fields, name))
  {
  }

  lemma {:induction false} PreservedTabPrinted(format: NumberFormat, panes: seq<Json>, id: string)
    requires forall pane | pane in panes :: Printed(format, pane)
    ensures PrintedFields(format, PreservedTab(panes, id))
  {
    if panes != [] {
      assert panes[0] in panes;
      var tabs := if panes[0].Object? then ArrayField(panes[0].fields, "tabs") else [];
      if panes[0].Object? {
        ArrayPrinted(format, panes[0].fields, "tabs");
      }
      PreservedPrinted(format, tabs, "id", id);
      PreservedTabPrinted(format, panes[1..], id);
    }
  }

  lemma LocationPrinted(format: NumberFormat, former: Fields, location: ShellLocation)
    requires PrintedFields(format, former)
    ensures PrintedFields(format, EncodeLocation(former, location))
  {
    var identity := EncodeIdentity(former, location.parsingName, location.knownFolderIdentity,
                                   location.fallbackPath, location.namespaceLocation);
    assert PrintedFields(format, identity);
    ArrayPrinted(format, identity, "navigation_parent");
    assert PrintedFields(format, EncodeParent(ObjectField(identity, "navigation_parent"), location.navigationParent));
  }

  lemma TabPrinted(format: NumberFormat, oldTabs: seq<Json>, oldPanes: seq<Json>, tab: TabState)
    requires forall value | value in oldTabs :: Printed(format, value)
    requires forall value | value in oldPanes :: Printed(format, value)
    ensures Printed(format, EncodeTab(oldTabs, oldPanes, tab))
  {
    PreservedPrinted(format, oldTabs, "id", tab.id);
    PreservedTabPrinted(format, oldPanes, tab.id);
    TabOverPrinted(format, TabBase(oldTabs, oldPanes, tab.id), tab);
  }

  lemma TabOverPrinted(format: NumberFormat, base: Fields, tab: TabState)
    requires PrintedFields(format, base)
    ensures Printed(format, EncodeTabOver(base, tab))
  {
    ArrayPrinted(format, base, "shell_location");
    LocationPrinted(format, ObjectField(base, "shell_location"), tab.location);
    TabMembers(base, tab);
    TabUnknown(base, tab);
    var fields := EncodeTabOver(base, tab).fields;
    forall name | name in fields ensures Printed(format, fields[name]) {
      if name !in TAB_NAMES {
        assert fields[name] == base[name];
      }
    }
  }

  lemma PanePrinted(format: NumberFormat, oldPanes: seq<Json>, pane: PaneState)
    requires forall value | value in oldPanes :: Printed(format, value)
    ensures Printed(format, EncodePane(oldPanes, pane))
  {
    var base := PreservedBy(oldPanes, "id", pane.id);
    PreservedPrinted(format, oldPanes, "id", pane.id);
    ArrayPrinted(format, base, "tabs");
    var oldTabs := ArrayField(base, "tabs");
    var tabs := EncodeTabs(oldTabs, oldPanes, pane.tabs);
    forall i | 0 <= i < |tabs| ensures Printed(format, tabs[i]) {
      TabPrinted(format, oldTabs, oldPanes, pane.tabs[i]);
    }
    assert Printed(format, Array(tabs));
    assert PrintedFields(format, EncodePane(oldPanes, pane).fields);
  }

  lemma GroupPrinted(format: NumberFormat, oldGroups: seq<Json>, group: GroupState)
    requires forall value | value in oldGroups :: Printed(format, value)
    requires forall r | 0 <= r < |group.dividerRatios| :: Printed(format, Number(group.dividerRatios[r]))
    ensures Printed(format, EncodeGroup(oldGroups, group))
  {
    var base := PreservedBy(oldGroups, "id", group.id);
    PreservedPrinted(format, oldGroups, "id", group.id);
    ArrayPrinted(format, base, "panes");
    var oldPanes := ArrayField(base, "panes");
    var panes := EncodePanes(oldPanes, group.panes);
    forall i | 0 <= i < |panes| ensures Printed(format, panes[i]) {
      PanePrinted(format, oldPanes, group.panes[i]);
    }
    assert Printed(format, Array(panes));
    assert Printed(format, Array(EncodeRatios(group.dividerRatios)));
    assert PrintedFields(format, EncodeGroup(oldGroups, group).fields);
  }

  lemma PinnedPrinted(format: NumberFormat, oldPinned: seq<Json>, location: ShellLocation)
    requires forall value | value in oldPinned :: Printed(format, value)
    ensures Printed(format, EncodePinned(oldPinned, location))
  {
    var text := Wtf8.Utf8(location.parsingName);
    PreservedPrinted(format, oldPinned, "parsing_name", text);
    LocationPrinted(format, PreservedBy(oldPinned, "parsing_name", text), location);
  }

  lemma PlacementPrinted(format: NumberFormat, former: Fields, placement: WindowPlacement)
    requires SoundFormat(format) && PrintedFields(format, former)
    ensures Printed(format, Object(EncodePlacement(former, placement)))
  {
    PrintedInteger(format, placement.x);
    PrintedInteger(format, placement.y);
    PrintedInteger(format, placement.width);
    PrintedInteger(format, placement.height);
  }

  lemma EncodePrinted(format: NumberFormat, application: ApplicationState, root: Json, cleanShutdown: bool)
    requires SoundFormat(format) && Printed(format, root) && PrintedRatios(format, application)
    ensures Printed(format, Encode(application, root, cleanShutdown))
  {
    var former := RootFields(root);
    ArrayPrinted(format, former, "groups");
    ArrayPrinted(format, former, "pinned_locations");
    ArrayPrinted(format, former, "window_placement");
    var groups := EncodeGroups(ArrayField(former, "groups"), application.groups);
    forall i | 0 <= i < |groups| ensures Printed(format, groups[i]) {
      GroupPrinted(format, ArrayField(former, "groups"), application.groups[i]);
    }
    var pinned := EncodePinnedLocations(ArrayField(former, "pinned_locations"), application.pinnedLocations);
    forall i | 0 <= i < |pinned| ensures Printed(format, pinned[i]) {
      PinnedPrinted(format, ArrayField(former, "pinned_locations"), application.pinnedLocations[i]);
    }
    PlacementPrinted(format, ObjectField(former, "window_placement"), application.windowPlacement);
    PrintedInteger(format, SCHEMA_VERSION);
    PrintedInteger(format, application.sidebarWidth);
    PrintedInteger(format, application.listFontPoints);
    RootPrinted(format, application, root, cleanShutdown, groups, pinned);
  }

  lemma RootPrinted(format: NumberFormat, application: ApplicationState, root: Json, cleanShutdown: bool,
    groups: seq<Json>, pinned: seq<Json>)
    requires PrintedFields(format, RootFields(root))
    requires groups == EncodeGroups(ArrayField(RootFields(root), "groups"), application.groups)
    requires pinned
      == EncodePinnedLocations(ArrayField(RootFields(root), "pinned_locations"), application.pinnedLocations)
    requires Printed(format, Array(groups)) && Printed(format, Array(pinned))
    requires Printed(format, Integer(SCHEMA_VERSION)) && Printed(format, Integer(application.sidebarWidth))
    requires Printed(format, Integer(application.listFontPoints))
    requires Printed(format, Object(EncodePlacement(ObjectField(RootFields(root), "window_placement"),
                                                    application.windowPlacement)))
    ensures Printed(format, Encode(application, root, cleanShutdown))
  {
    RootMembers(application, root, cleanShutdown);
    RootUnknown(application, root, cleanShutdown);
    var fields := Encode(application, root, cleanShutdown).fields;
    forall name | name in fields ensures Printed(format, fields[name]) {
      if name !in ROOT_NAMES {
        assert fields[name] == RootFields(root)[name];
      }
    }
  }

  lemma WrittenPrinted(format: NumberFormat, document: Document)
    requires SoundFormat(format) && PrintedRatios(format, document.application)
    ensures Printed(format, Written(format, document)) && Written(format, document).Object?
  {
    if document.preservedJson != "" && Parse(format, document.preservedJson).Some? {
      ParsedPrinted(format, document.preservedJson);
    }
    EncodePrinted(format, document.application, PreservedRoot(format, document.preservedJson), document.cleanShutdown);
  }

  // ----- Main results

  /** Reading a written document gives it back without tab histories, and with the text itself as
      the new preserved text, exactly when its state is storable over its preserved root. */
  lemma DeserializeSerialize(format: NumberFormat, document: Document)
    requires SoundFormat(format) && PrintedRatios(format, document.application)
    ensures var text := Serialize(format, document);
      Deserialize(format, text)
      == if Storable(document.application, PreservedRoot(format, document.preservedJson))
         then Some(Document(Forget(document.application), text, document.cleanShutdown)) else None
  {
    var root := PreservedRoot(format, document.preservedJson);
    WrittenPrinted(format, document);
    WrittenDecodes(document.application, root, document.cleanShutdown);
    DeserializeDump(format, Written(format, document));
  }

  lemma WrittenDecodes(application: ApplicationState, root: Json, cleanShutdown: bool)
    ensures CleanShutdownOf(Encode(application, root, cleanShutdown)) == cleanShutdown
    ensures Decode(Encode(application, root, cleanShutdown))
         == if Storable(application, root) then Some(Forget(application)) else None
  {
    DecodeEncode(application, root, cleanShutdown);
    RootMembers(application, root, cleanShutdown);
  }

  lemma ParseLine(format: NumberFormat, root: Json)
    requires Printed(format, root)
    ensures Parse(format, Dump(root) + "\n") == Some(root)
  {
    ParseDump(format, root, "\n");
  }

  lemma DeserializeDump(format: NumberFormat, root: Json)
    requires Printed(format, root)
    ensures var text := Dump(root) + "\n";
      Deserialize(format, text)
      == match Decode(root)
         case Some(application) => Some(Document(application, text, CleanShutdownOf(root)))
         case None => None
  {
    ParseDump(format, root, "\n");
  }

  /** A writable document always reads back. */
  lemma WritableReadsBack(format: NumberFormat, document: Document)
    requires SoundFormat(format) && Writable(format, document)
    ensures var text := Serialize(format, document);
      Deserialize(format, text) == Some(Document(Forget(document.application), text, document.cleanShutdown))
  {
    DeserializeSerialize(format, document);
    StorableOverOwnRoot(document.application, PreservedRoot(format, document.preservedJson));
  }

  /** Serializing again with one's own output as the preserved text gives the identical text. */
  lemma SerializeAgain(format: NumberFormat, document: Document)
    requires SoundFormat(format) && PrintedRatios(format, document.application)
    requires ValidApplication(document.application) && AllPinned(document.application.pinnedLocations)
    ensures var text := Serialize(format, document);
      Serialize(format, document.(preservedJson := text)) == text
  {
    WrittenPrinted(format, document);
    ParseDump(format, Written(format, document), "\n");
    EncodeAgain(document.application, PreservedRoot(format, document.preservedJson), document.cleanShutdown);
  }

  /** A torn write never parses, unless only the final newline is missing. */
  lemma TornSerialization(format: NumberFormat, document: Document, length: nat)
    requires SoundFormat(format) && PrintedRatios(format, document.application)
    requires length < |Serialize(format, document)|
    ensures var text := Serialize(format, document);
      Parse(format, text[..length])
      == if length == |text| - 1 then Some(Written(format, document)) else None
  {
    WrittenPrinted(format, document);
    TornLine(format, Written(format, document), length);
  }

  lemma TornLine(format: NumberFormat, value: Json, length: nat)
    requires Printed(format, value) && value.Object? && length <= |Dump(value)|
    ensures Parse(format, (Dump(value) + "\n")[..length]) == if length == |Dump(value)| then Some(value) else None
  {
    assert (Dump(value) + "\n")[..length] == Dump(value)[..length];
    if length == |Dump(value)| {
      ParseDump(format, value, "");
      assert Dump(value)[..length] == Dump(value) + "";
    } else {
      TornDump(format, value, length);
    }
  }
}
