/**
 encode() and decode() of src/core/session.cpp, as functions between application states and
 the value tree. `SessionCodecLoops` holds the loops that build them up step by step.
 */
module SessionCodec {
  import opened Options
  import opened JsonTree
  import opened Model
  import opened Wtf8
  import Decimals
  import JsonGrammar

  type Fields = map<string, Json>

  const SCHEMA_VERSION := 1

  // ----- Lookups

  /** The object stored under a name; empty when there is none. */
  function ObjectField(entry: Fields, name: string): Fields {
    if name in entry && entry[name].Object? then entry[name].fields else map[]
  }

  /** The array stored under a name; empty when there is none, as a null pointer is. */
  function ArrayField(entry: Fields, name: string): seq<Json> {
    if name in entry && entry[name].Array? then entry[name].items else []
  }

  function StringField(entry: Fields, name: string): Option<string> {
    if name in entry && entry[name].String? then Some(entry[name].text) else None
  }

  function BoolField(entry: Fields, name: string): Option<bool> {
    if name in entry && entry[name].Bool? then Some(entry[name].flag) else None
  }

  /** The int a printed double stands for, if it stands for one. */
  function IntegerOf(lexeme: Double): Option<Int32> {
    if lexeme == "-0" then Some(0)
    else
      var signed := lexeme != "" && lexeme[0] == '-';
      var digits := if signed then lexeme[1..] else lexeme;
      if !JsonGrammar.AllDigits(digits) then None
      else
        var value := if signed then 0 - Decimals.DigitsValue(digits) else Decimals.DigitsValue(digits);
        if -0x8000_0000 <= value < 0x8000_0000 && Decimals.Decimal(value) == lexeme then Some(value) else None
  }

  function IntegerField(entry: Fields, name: string): Option<Int32> {
    if name in entry && entry[name].Number? then IntegerOf(entry[name].lexeme) else None
  }

  function Integer(value: Int32): Json {
    Number(Decimals.Decimal(value))
  }

  lemma IntegerRead(value: Int32)
    ensures IntegerOf(Decimals.Decimal(value)) == Some(value)
  {
    var lexeme := Decimals.Decimal(value);
    var n: int := value;
    var magnitude: nat := if n < 0 then -n else n;
    var digits := Decimals.Digits(magnitude);
    Decimals.DigitsRead(magnitude);
    Decimals.NoSign(magnitude);
    if n < 0 {
      assert lexeme[1..] == digits;
      Decimals.FirstDigit(magnitude);
      assert lexeme[1] == digits[0];
    }
  }

  function TemplateName(layout: LayoutTemplate): string {
    match layout
    case Single => "single"
    case LeftRight => "left_right"
    case TopBottom => "top_bottom"
    case ThreePane => "three_pane"
    case TwoOverOne => "two_over_one"
    case OneOverTwo => "one_over_two"
    case TwoBesideOne => "two_beside_one"
    case FourPaneGrid => "four_pane_grid"
  }

  function TemplateOf(name: string): Option<LayoutTemplate> {
    match name
    case "single" => Some(Single)
    case "left_right" => Some(LeftRight)
    case "top_bottom" => Some(TopBottom)
    case "three_pane" => Some(ThreePane)
    case "two_over_one" => Some(TwoOverOne)
    case "one_over_two" => Some(OneOverTwo)
    case "two_beside_one" => Some(TwoBesideOne)
    case "four_pane_grid" => Some(FourPaneGrid)
    case _ => None
  }

  // ----- Objects of the previous write

  /** The first object in the list whose member `name` is the string `text`. */
  function PreservedBy(values: seq<Json>, name: string, text: string): Fields {
    if values == [] then map[]
    else if values[0].Object? && StringField(values[0].fields, name) == Some(text) then values[0].fields
    else PreservedBy(values[1..], name, text)
  }

  /** The tab's object in whichever pane of the previous write holds it. */
  function PreservedTab(panes: seq<Json>, id: string): Fields {
    if panes == [] then map[]
    else
      var tabs := if panes[0].Object? then ArrayField(panes[0].fields, "tabs") else [];
      var preserved := PreservedBy(tabs, "id", id);
      if preserved != map[] then preserved else PreservedTab(panes[1..], id)
  }

  /** A tab keeps its identity when dragged to another pane. */
  function TabBase(oldTabs: seq<Json>, oldPanes: seq<Json>, id: string): Fields {
    var own := PreservedBy(oldTabs, "id", id);
    if own == map[] then PreservedTab(oldPanes, id) else own
  }

  // ----- Encoding

  function EncodeIdentity(
    former: Fields, parsingName: WString, knownFolder: WString, fallback: WString, namespaceLocation: bool): Fields
  {
    former["parsing_name" := String(Utf8(parsingName))]
       ["known_folder_identity" := String(Utf8(knownFolder))]
       ["fallback_path" := String(Utf8(fallback))]
       ["namespace_location" := Bool(namespaceLocation)]
  }

  function EncodeParent(former: Fields, parent: Option<LocationParent>): Fields {
    match parent
    case Some(p) =>
      EncodeIdentity(former, p.parsingName, p.knownFolderIdentity, p.fallbackPath, p.namespaceLocation)
    case None => former - {"parsing_name", "known_folder_identity", "fallback_path", "namespace_location"}
  }

  function EncodeLocation(former: Fields, location: ShellLocation): Fields {
    var encoded := EncodeIdentity(former, location.parsingName, location.knownFolderIdentity,
                                  location.fallbackPath, location.namespaceLocation);
    var oldObject := "navigation_parent" in encoded && encoded["navigation_parent"].Object?;
    if location.navigationParent.None? && !oldObject then encoded
    else
      var parent := EncodeParent(ObjectField(encoded, "navigation_parent"), location.navigationParent);
      if parent == map[] then encoded - {"navigation_parent"}
      else encoded["navigation_parent" := Object(parent)]
  }

  function EncodeTabOver(base: Fields, tab: TabState): Json {
    var location := EncodeLocation(ObjectField(base, "shell_location"), tab.location);
    var fields := base["id" := String(tab.id)]
                      ["shell_location" := Object(location)]
                      ["view_mode" := String(tab.viewMode)]
                      ["sort_column" := String(tab.sortColumn)]
                      ["sort_ascending" := Bool(tab.sortAscending)];
    Object(if tab.columns == "" then fields - {"columns"} else fields["columns" := String(tab.columns)])
  }

  function EncodeTab(oldTabs: seq<Json>, oldPanes: seq<Json>, tab: TabState): Json {
    EncodeTabOver(TabBase(oldTabs, oldPanes, tab.id), tab)
  }

  function EncodeTabs(oldTabs: seq<Json>, oldPanes: seq<Json>, tabs: seq<TabState>): seq<Json> {
    seq(|tabs|, i requires 0 <= i < |tabs| => EncodeTab(oldTabs, oldPanes, tabs[i]))
  }

  function EncodePane(oldPanes: seq<Json>, pane: PaneState): Json {
    var base := PreservedBy(oldPanes, "id", pane.id);
    Object(base["id" := String(pane.id)]
               ["active_tab_id" := String(pane.activeTabId)]
               ["tabs" := Array(EncodeTabs(ArrayField(base, "tabs"), oldPanes, pane.tabs))])
  }

  function EncodePanes(oldPanes: seq<Json>, panes: seq<PaneState>): seq<Json> {
    seq(|panes|, i requires 0 <= i < |panes| => EncodePane(oldPanes, panes[i]))
  }

  function EncodeRatios(ratios: seq<Double>): seq<Json> {
    seq(|ratios|, i requires 0 <= i < |ratios| => Number(ratios[i]))
  }

  function EncodeGroup(oldGroups: seq<Json>, group: GroupState): Json {
    var base := PreservedBy(oldGroups, "id", group.id);
    Object(base["id" := String(group.id)]
               ["name" := String(Utf8(group.name))]
               ["layout_template" := String(TemplateName(group.layoutTemplate))]
               ["divider_ratios" := Array(EncodeRatios(group.dividerRatios))]
               ["panes" := Array(EncodePanes(ArrayField(base, "panes"), group.panes))]
               ["active_pane_id" := String(group.activePaneId)])
  }

  function EncodeGroups(oldGroups: seq<Json>, groups: seq<GroupState>): seq<Json> {
    seq(|groups|, i requires 0 <= i < |groups| => EncodeGroup(oldGroups, groups[i]))
  }

  function EncodePinned(oldPinned: seq<Json>, location: ShellLocation): Json {
    Object(EncodeLocation(PreservedBy(oldPinned, "parsing_name", Utf8(location.parsingName)), location))
  }

  function EncodePinnedLocations(oldPinned: seq<Json>, pinned: seq<ShellLocation>): seq<Json> {
    seq(|pinned|, i requires 0 <= i < |pinned| => EncodePinned(oldPinned, pinned[i]))
  }

  function EncodePlacement(former: Fields, placement: WindowPlacement): Fields {
    former["x" := Integer(placement.x)]
       ["y" := Integer(placement.y)]
       ["width" := Integer(placement.width)]
       ["height" := Integer(placement.height)]
       ["maximized" := Bool(placement.maximized)]
  }

  /** The fields of the previous root; a root that is not an object counts as empty. */
  function RootFields(root: Json): Fields {
    if root.Object? then root.fields else map[]
  }

  function Encode(application: ApplicationState, root: Json, cleanShutdown: bool): Json {
    var former := RootFields(root);
    Object(former["schema_version" := Integer(SCHEMA_VERSION)]
              ["active_group_id" := String(application.activeGroupId)]
              ["groups" := Array(EncodeGroups(ArrayField(former, "groups"), application.groups))]
              ["pinned_locations" :=
                 Array(EncodePinnedLocations(ArrayField(former, "pinned_locations"), application.pinnedLocations))]
              ["clean_shutdown" := Bool(cleanShutdown)]
              ["window_placement" :=
                 Object(EncodePlacement(ObjectField(former, "window_placement"), application.windowPlacement))]
              ["sidebar_width" := Integer(application.sidebarWidth)]
              ["list_font_points" := Integer(application.listFontPoints)])
  }

  // ----- Decoding

  /** All results, or None if any element has none. */
  function MapAll<A, B>(f: A -> Option<B>, values: seq<A>): (result: Option<seq<B>>)
    ensures result.Some? <==> forall i | 0 <= i < |values| :: f(values[i]).Some?
    ensures result.Some? ==> |result.value| == |values|
  {
    if forall i | 0 <= i < |values| :: f(values[i]).Some? then
      Some(seq(|values|, i requires 0 <= i < |values| => f(values[i]).value))
    else None
  }

  function WideField(entry: Fields, name: string): Option<WString> {
    match StringField(entry, name)
    case Some(text) => Wide(text)
    case None => None
  }

  /** namespace_location: absent means false, anything but a bool is an error. */
  function NamespaceField(entry: Fields): Option<bool> {
    if "namespace_location" in entry then BoolField(entry, "namespace_location") else Some(false)
  }

  /** The stored parent: Some(None) when the object carries only fields this build does not know. */
  function DecodeParent(parent: Fields): Option<Option<LocationParent>> {
    match NamespaceField(parent)
    case None => None
    case Some(namespaceLocation) =>
      if "parsing_name" !in parent && "known_folder_identity" !in parent && "fallback_path" !in parent then Some(None)
      else
        match (WideField(parent, "parsing_name"), WideField(parent, "known_folder_identity"),
               WideField(parent, "fallback_path"))
        case (Some(parsingName), Some(known), Some(fallback)) =>
          if parsingName == [] then None
          else Some(Some(LocationParent(parsingName, known, fallback, namespaceLocation)))
        case _ => None
  }

  function DecodeLocation(entry: Fields): Option<ShellLocation> {
    match (WideField(entry, "parsing_name"), WideField(entry, "known_folder_identity"),
           WideField(entry, "fallback_path"), NamespaceField(entry))
    case (Some(parsingName), Some(known), Some(fallback), Some(namespaceLocation)) =>
      var location := ShellLocation(parsingName, known, fallback, None, namespaceLocation);
      if "navigation_parent" !in entry then Some(location)
      else if !entry["navigation_parent"].Object? then None
      else
        (match DecodeParent(entry["navigation_parent"].fields)
         case None => None
         case Some(parent) => Some(location.(navigationParent := parent)))
    case _ => None
  }

  function DecodeTabFields(entry: Fields): Option<TabState> {
    if "shell_location" !in entry || !entry["shell_location"].Object? then None
    else
      match (StringField(entry, "id"), StringField(entry, "view_mode"), StringField(entry, "sort_column"),
             BoolField(entry, "sort_ascending"), DecodeLocation(entry["shell_location"].fields))
      case (Some(id), Some(viewMode), Some(sortColumn), Some(ascending), Some(location)) =>
        var columns := match StringField(entry, "columns") case Some(text) => text case None => "";
        Some(TabState(id, location, viewMode, sortColumn, ascending, [], 0, columns))
      case _ => None
  }

  function DecodeTab(value: Json): Option<TabState> {
    if value.Object? then DecodeTabFields(value.fields) else None
  }

  function DecodePane(value: Json): Option<PaneState> {
    if !value.Object? || "tabs" !in value.fields || !value.fields["tabs"].Array? then None
    else
      match (StringField(value.fields, "id"), StringField(value.fields, "active_tab_id"),
             MapAll(DecodeTab, value.fields["tabs"].items))
      case (Some(id), Some(active), Some(tabs)) => Some(PaneState(id, tabs, active))
      case _ => None
  }

  function DecodeRatio(value: Json): Option<Double> {
    if value.Number? then Some(value.lexeme) else None
  }

  function DecodeGroupFields(entry: Fields): Option<GroupState> {
    if "divider_ratios" !in entry || !entry["divider_ratios"].Array? then None
    else if "panes" !in entry || !entry["panes"].Array? then None
    else
      match (StringField(entry, "id"), WideField(entry, "name"), StringField(entry, "layout_template"),
             StringField(entry, "active_pane_id"))
      case (Some(id), Some(name), Some(layoutText), Some(activePane)) =>
        (match (TemplateOf(layoutText), MapAll(DecodeRatio, entry["divider_ratios"].items),
                MapAll(DecodePane, entry["panes"].items))
         case (Some(layout), Some(ratios), Some(panes)) =>
           Some(GroupState(id, name, layout, ratios, panes, activePane))
         case _ => None)
      case _ => None
  }

  function DecodeGroup(value: Json): Option<GroupState> {
    if value.Object? then DecodeGroupFields(value.fields) else None
  }

  function DecodePinned(value: Json): Option<ShellLocation> {
    if value.Object? then DecodeLocation(value.fields) else None
  }

  /** add_pinned_location took every element: names are not empty and not repeated. */
  predicate AllPinned(pinned: seq<ShellLocation>) {
    forall i | 0 <= i < |pinned| :: CanPinLocation(pinned[..i], pinned[i])
  }

  function DecodePinnedLocations(entry: Fields): Option<seq<ShellLocation>> {
    if "pinned_locations" !in entry then Some([])
    else if !entry["pinned_locations"].Array? then None
    else
      match MapAll(DecodePinned, entry["pinned_locations"].items)
      case Some(pinned) => if AllPinned(pinned) then Some(pinned) else None
      case None => None
  }

  function DecodePlacement(entry: Fields): Option<WindowPlacement> {
    if "window_placement" !in entry || !entry["window_placement"].Object? then None
    else
      var placement := entry["window_placement"].fields;
      match (IntegerField(placement, "x"), IntegerField(placement, "y"), IntegerField(placement, "width"),
             IntegerField(placement, "height"), BoolField(placement, "maximized"))
      case (Some(x), Some(y), Some(width), Some(height), Some(maximized)) =>
        Some(WindowPlacement(x, y, width, height, maximized))
      case _ => None
  }

  function DecodeSidebarWidth(entry: Fields): Option<Int32> {
    if "sidebar_width" in entry then IntegerField(entry, "sidebar_width") else Some(DEFAULT_SIDEBAR_WIDTH)
  }

  /** A bad appearance setting does not discard the session. */
  function DecodeListFontPoints(entry: Fields): Int32 {
    match IntegerField(entry, "list_font_points")
    case Some(points) => if ValidListFontPoints(points) then points else 0
    case None => 0
  }

  /** Everything but the final validity check. */
  function DecodeFields(entry: Fields): Option<ApplicationState> {
    if IntegerField(entry, "schema_version") != Some(SCHEMA_VERSION) then None
    else if "groups" !in entry || !entry["groups"].Array? then None
    else
      match (StringField(entry, "active_group_id"), DecodeSidebarWidth(entry), DecodePinnedLocations(entry),
             DecodePlacement(entry), MapAll(DecodeGroup, entry["groups"].items))
      case (Some(active), Some(sidebar), Some(pinned), Some(placement), Some(groups)) =>
        Some(ApplicationState(SCHEMA_VERSION, groups, active, placement, sidebar, pinned,
                              DecodeListFontPoints(entry)))
      case _ => None
  }

  function Decode(root: Json): Option<ApplicationState> {
    if !root.Object? then None
    else
      match DecodeFields(root.fields)
      case Some(application) => if ValidApplication(application) then Some(application) else None
      case None => None
  }
}
