/**
 What a session file says, member by member: lines 368-405 and 527-613 of src/core/session.cpp as a
 relation between value trees and states. decode() finds exactly the states a tree describes, and what
 older and newer builds leave out or add does not discard a session.
 */
module SessionSchema {
  import opened Options
  import opened JsonTree
  import opened Model
  import opened Wtf8
  import opened SessionCodec
  import opened SessionRoundTrip
  import opened SessionPreservation
  import opened SessionDocument
  import Decimals
  import PaneTabs

  // ----- Members

  predicate SaysText(fields: Fields, name: string, text: string) {
    name in fields && fields[name] == String(text)
  }

  predicate SaysWide(fields: Fields, name: string, text: WString) {
    name in fields && fields[name].String? && Wide(fields[name].text) == Some(text)
  }

  predicate SaysFlag(fields: Fields, name: string, flag: bool) {
    name in fields && fields[name] == Bool(flag)
  }

  /** A number that is this integer, however it is printed; zero is also printed as "-0". */
  predicate SaysInteger(fields: Fields, name: string, value: Int32) {
    && name in fields && fields[name].Number?
    && (fields[name].lexeme == Decimals.Decimal(value) || (fields[name].lexeme == "-0" && value == 0))
  }

  predicate SaysList(fields: Fields, name: string, count: nat) {
    name in fields && fields[name].Array? && |fields[name].items| == count
  }

  /** Element `i` of a list that is there. */
  function Element(fields: Fields, name: string, i: nat): Json
    requires name in fields && fields[name].Array? && i < |fields[name].items|
  {
    fields[name].items[i]
  }

  // ----- The schema

  predicate DescribesIdentity(
    fields: Fields, parsingName: WString, known: WString, fallback: WString, namespaceLocation: bool)
  {
    && SaysWide(fields, "parsing_name", parsingName)
    && SaysWide(fields, "known_folder_identity", known)
    && SaysWide(fields, "fallback_path", fallback)
    && (SaysFlag(fields, "namespace_location", namespaceLocation)
        || ("namespace_location" !in fields && !namespaceLocation))
  }

  /** A parent of which only members of newer builds are left is none. */
  predicate DescribesParent(fields: Fields, parent: Option<LocationParent>) {
    match parent
    case Some(p) =>
      p.parsingName != []
      && DescribesIdentity(fields, p.parsingName, p.knownFolderIdentity, p.fallbackPath, p.namespaceLocation)
    case None =>
      && "parsing_name" !in fields && "known_folder_identity" !in fields && "fallback_path" !in fields
      && ("namespace_location" in fields ==> fields["namespace_location"].Bool?)
  }

  predicate DescribesLocation(fields: Fields, location: ShellLocation) {
    && DescribesIdentity(fields, location.parsingName, location.knownFolderIdentity, location.fallbackPath,
                         location.namespaceLocation)
    && if "navigation_parent" in fields then
         fields["navigation_parent"].Object?
         && DescribesParent(fields["navigation_parent"].fields, location.navigationParent)
       else location.navigationParent == None
  }

  predicate DescribesTab(value: Json, tab: TabState) {
    && value.Object?
    && SaysText(value.fields, "id", tab.id)
    && "shell_location" in value.fields && value.fields["shell_location"].Object?
    && DescribesLocation(value.fields["shell_location"].fields, tab.location)
    && SaysText(value.fields, "view_mode", tab.viewMode)
    && SaysText(value.fields, "sort_column", tab.sortColumn)
    && SaysFlag(value.fields, "sort_ascending", tab.sortAscending)
    && (SaysText(value.fields, "columns", tab.columns)
        || (tab.columns == "" && !("columns" in value.fields && value.fields["columns"].String?)))
    && tab.history == [] && tab.historyIndex == 0
  }

  predicate DescribesPane(value: Json, pane: PaneState) {
    && value.Object?
    && SaysText(value.fields, "id", pane.id)
    && SaysText(value.fields, "active_tab_id", pane.activeTabId)
    && SaysList(value.fields, "tabs", |pane.tabs|)
    && forall t | 0 <= t < |pane.tabs| :: DescribesTab(Element(value.fields, "tabs", t), pane.tabs[t])
  }

  const LAYOUTS: map<string, LayoutTemplate> :=
    map["single" := Single, "left_right" := LeftRight, "top_bottom" := TopBottom, "three_pane" := ThreePane,
        "two_over_one" := TwoOverOne, "one_over_two" := OneOverTwo, "two_beside_one" := TwoBesideOne,
        "four_pane_grid" := FourPaneGrid]

  predicate DescribesGroup(value: Json, group: GroupState) {
    && value.Object?
    && SaysText(value.fields, "id", group.id)
    && SaysWide(value.fields, "name", group.name)
    && (exists text | text in LAYOUTS ::
          SaysText(value.fields, "layout_template", text) && LAYOUTS[text] == group.layoutTemplate)
    && SaysText(value.fields, "active_pane_id", group.activePaneId)
    && SaysList(value.fields, "divider_ratios", |group.dividerRatios|)
    && (forall i | 0 <= i < |group.dividerRatios| ::
          Element(value.fields, "divider_ratios", i) == Number(group.dividerRatios[i]))
    && SaysList(value.fields, "panes", |group.panes|)
    && forall p | 0 <= p < |group.panes| :: DescribesPane(Element(value.fields, "panes", p), group.panes[p])
  }

  predicate DescribesPlacement(fields: Fields, placement: WindowPlacement) {
    && "window_placement" in fields && fields["window_placement"].Object?
    && var inner := fields["window_placement"].fields;
    && SaysInteger(inner, "x", placement.x)
    && SaysInteger(inner, "y", placement.y)
    && SaysInteger(inner, "width", placement.width)
    && SaysInteger(inner, "height", placement.height)
    && SaysFlag(inner, "maximized", placement.maximized)
  }

  predicate DescribesSidebar(fields: Fields, width: Int32) {
    if "sidebar_width" in fields then SaysInteger(fields, "sidebar_width", width) else width == 194
  }

  /** The sizes the list font may have, 0 for the system's own. */
  const FONT_SIZES: set<int> := {0, 9, 10, 11, 12, 14, 16, 18, 20, 24}

  /** The points of the list font count only where they are one of those. */
  predicate DescribesFont(fields: Fields, points: Int32) {
    if exists p: Int32 | p in FONT_SIZES :: SaysInteger(fields, "list_font_points", p)
    then SaysInteger(fields, "list_font_points", points) else points == 0
  }

  predicate DescribesPins(fields: Fields, pinned: seq<ShellLocation>) {
    if "pinned_locations" in fields then
      && SaysList(fields, "pinned_locations", |pinned|)
      && (forall i | 0 <= i < |pinned| ::
            var value := Element(fields, "pinned_locations", i);
            value.Object? && DescribesLocation(value.fields, pinned[i]))
      && forall i | 0 <= i < |pinned| :: CanPinLocation(pinned[..i], pinned[i])
    else pinned == []
  }

  predicate DescribesGroups(fields: Fields, groups: seq<GroupState>) {
    && SaysList(fields, "groups", |groups|)
    && forall g | 0 <= g < |groups| :: DescribesGroup(Element(fields, "groups", g), groups[g])
  }

  predicate DescribesSession(fields: Fields, application: ApplicationState) {
    && SaysInteger(fields, "schema_version", 1) && application.schemaVersion == 1
    && SaysText(fields, "active_group_id", application.activeGroupId)
    && DescribesSidebar(fields, application.sidebarWidth)
    && DescribesPlacement(fields, application.windowPlacement)
    && DescribesFont(fields, application.listFontPoints)
    && DescribesPins(fields, application.pinnedLocations)
    && DescribesGroups(fields, application.groups)
  }

  // ----- decode() finds what the tree describes

  lemma IntegerExactly(fields: Fields, name: string, value: Int32)
    ensures IntegerField(fields, name) == Some(value) <==> SaysInteger(fields, name, value)
  {
    IntegerRead(value);
  }

  lemma ParentExactly(fields: Fields, parent: Option<LocationParent>)
    ensures DecodeParent(fields) == Some(parent) <==> DescribesParent(fields, parent)
  {
  }

  lemma LocationExactly(fields: Fields, location: ShellLocation)
    ensures DecodeLocation(fields) == Some(location) <==> DescribesLocation(fields, location)
  {
    if "navigation_parent" in fields && fields["navigation_parent"].Object? {
      ParentExactly(fields["navigation_parent"].fields, location.navigationParent);
    }
  }

  lemma TabExactly(value: Json, tab: TabState)
    ensures DecodeTab(value) == Some(tab) <==> DescribesTab(value, tab)
  {
    if value.Object? && "shell_location" in value.fields && value.fields["shell_location"].Object? {
      LocationExactly(value.fields["shell_location"].fields, tab.location);
    }
    hide DecodeLocation, DescribesLocation;
  }

  lemma MapAllExactly<A, B>(f: A -> Option<B>, values: seq<A>, results: seq<B>)
    ensures MapAll(f, values) == Some(results)
      <==> |results| == |values| && forall i | 0 <= i < |values| :: f(values[i]) == Some(results[i])
  {
    if |results| == |values| && forall i | 0 <= i < |values| :: f(values[i]) == Some(results[i]) {
      assert MapAll(f, values).value == results;
    }
  }

  lemma PaneExactly(value: Json, pane: PaneState)
    ensures DecodePane(value) == Some(pane) <==> DescribesPane(value, pane)
  {
    hide DecodeTab, DescribesTab;
    if value.Object? && SaysList(value.fields, "tabs", |pane.tabs|) {
      MapAllExactly(DecodeTab, value.fields["tabs"].items, pane.tabs);
      forall t | 0 <= t < |pane.tabs|
        ensures DecodeTab(value.fields["tabs"].items[t]) == Some(pane.tabs[t])
          <==> DescribesTab(Element(value.fields, "tabs", t), pane.tabs[t])
      {
        TabExactly(value.fields["tabs"].items[t], pane.tabs[t]);
      }
    }
  }

  lemma LayoutExactly(text: string, layout: LayoutTemplate)
    ensures TemplateOf(text) == Some(layout) <==> text in LAYOUTS && LAYOUTS[text] == layout
  {
  }

  lemma GroupExactly(value: Json, group: GroupState)
    ensures DecodeGroup(value) == Some(group) <==> DescribesGroup(value, group)
  {
    hide DecodePane, DescribesPane, TemplateOf;
    if value.Object? && "layout_template" in value.fields && value.fields["layout_template"].String? {
      LayoutExactly(value.fields["layout_template"].text, group.layoutTemplate);
    }
    if value.Object? && SaysList(value.fields, "divider_ratios", |group.dividerRatios|) {
      MapAllExactly(DecodeRatio, value.fields["divider_ratios"].items, group.dividerRatios);
    }
    if value.Object? && SaysList(value.fields, "panes", |group.panes|) {
      MapAllExactly(DecodePane, value.fields["panes"].items, group.panes);
      forall p | 0 <= p < |group.panes|
        ensures DecodePane(value.fields["panes"].items[p]) == Some(group.panes[p])
          <==> DescribesPane(Element(value.fields, "panes", p), group.panes[p])
      {
        PaneExactly(value.fields["panes"].items[p], group.panes[p]);
      }
    }
  }

  lemma PinsExactly(fields: Fields, pinned: seq<ShellLocation>)
    ensures DecodePinnedLocations(fields) == Some(pinned) <==> DescribesPins(fields, pinned)
  {
    hide DecodeLocation, DescribesLocation;
    if "pinned_locations" in fields && SaysList(fields, "pinned_locations", |pinned|) {
      var items := fields["pinned_locations"].items;
      MapAllExactly(DecodePinned, items, pinned);
      forall i | 0 <= i < |pinned|
        ensures DecodePinned(items[i]) == Some(pinned[i])
          <==> items[i].Object? && DescribesLocation(items[i].fields, pinned[i])
      {
        if items[i].Object? {
          LocationExactly(items[i].fields, pinned[i]);
        }
      }
    }
  }

  lemma FontExactly(fields: Fields, points: Int32)
    ensures DecodeListFontPoints(fields) == points <==> DescribesFont(fields, points)
  {
    hide IntegerField, SaysInteger;
    var read := IntegerField(fields, "list_font_points");
    forall p: Int32 ensures SaysInteger(fields, "list_font_points", p) <==> read == Some(p) {
      IntegerExactly(fields, "list_font_points", p);
    }
    assert forall p: int :: ValidListFontPoints(p) <==> p in FONT_SIZES;
    if read.Some? && read.value in FONT_SIZES {
      assert SaysInteger(fields, "list_font_points", read.value);
    }
  }

  lemma PlacementExactly(fields: Fields, placement: WindowPlacement)
    ensures DecodePlacement(fields) == Some(placement) <==> DescribesPlacement(fields, placement)
  {
    if "window_placement" in fields && fields["window_placement"].Object? {
      var inner := fields["window_placement"].fields;
      IntegerExactly(inner, "x", placement.x);
      IntegerExactly(inner, "y", placement.y);
      IntegerExactly(inner, "width", placement.width);
      IntegerExactly(inner, "height", placement.height);
      hide IntegerField, SaysInteger;
    }
  }

  lemma SidebarExactly(fields: Fields, width: Int32)
    ensures DecodeSidebarWidth(fields) == Some(width) <==> DescribesSidebar(fields, width)
  {
    IntegerExactly(fields, "sidebar_width", width);
    hide IntegerField, SaysInteger;
  }

  lemma GroupsExactly(fields: Fields, groups: seq<GroupState>)
    ensures "groups" in fields && fields["groups"].Array? && MapAll(DecodeGroup, fields["groups"].items) == Some(groups)
      <==> DescribesGroups(fields, groups)
  {
    hide DecodeGroup, DescribesGroup;
    if SaysList(fields, "groups", |groups|) {
      MapAllExactly(DecodeGroup, fields["groups"].items, groups);
      forall g | 0 <= g < |groups|
        ensures DecodeGroup(fields["groups"].items[g]) == Some(groups[g])
          <==> DescribesGroup(Element(fields, "groups", g), groups[g])
      {
        GroupExactly(fields["groups"].items[g], groups[g]);
      }
    }
  }

  /** decode() takes a tree exactly when it describes a valid state, and then gives that state. */
  lemma DecodeExactly(root: Json, application: ApplicationState)
    ensures Decode(root) == Some(application)
      <==> root.Object? && DescribesSession(root.fields, application) && ValidApplication(application)
  {
    hide IntegerField, SaysInteger, DecodeSidebarWidth, DescribesSidebar, DecodePlacement, DescribesPlacement,
         DecodeListFontPoints, DescribesFont, DecodePinnedLocations, DescribesPins, MapAll, DescribesGroups,
         ValidApplication;
    if root.Object? {
      var fields := root.fields;
      IntegerExactly(fields, "schema_version", SCHEMA_VERSION);
      SidebarExactly(fields, application.sidebarWidth);
      PlacementExactly(fields, application.windowPlacement);
      FontExactly(fields, application.listFontPoints);
      PinsExactly(fields, application.pinnedLocations);
      GroupsExactly(fields, application.groups);
    }
  }

  /** What is written is such a tree: every member stands under its name. */
  lemma WrittenDescribes(application: ApplicationState, root: Json, cleanShutdown: bool)
    requires Storable(application, root) && application.schemaVersion == 1
    ensures var fields := Encode(application, root, cleanShutdown).fields;
      && DescribesSession(fields, Forget(application))
      && SaysFlag(fields, "clean_shutdown", cleanShutdown)
  {
    hide DescribesSession, Encode, Decode;
    DecodeEncode(application, root, cleanShutdown);
    DecodeExactly(Encode(application, root, cleanShutdown), Forget(application));
    FlagWritten(application, root, cleanShutdown);
  }

  lemma FlagWritten(application: ApplicationState, root: Json, cleanShutdown: bool)
    ensures SaysFlag(Encode(application, root, cleanShutdown).fields, "clean_shutdown", cleanShutdown)
  {
    hide EncodeGroups, EncodePinnedLocations;
  }

  // ----- Members of the root that are absent, changed or unknown

  /** The two trees agree on every member but these. */
  ghost predicate AgreeBut(fields: Fields, other: Fields, names: set<string>) {
    forall name | name !in names ::
      (name in fields <==> name in other) && (name in fields ==> fields[name] == other[name])
  }

  /** Every part of a session depends on its own member alone. */
  lemma PartsDepend(fields: Fields, other: Fields, names: set<string>)
    requires AgreeBut(fields, other, names)
    ensures "schema_version" !in names ==>
      (SaysInteger(fields, "schema_version", 1) <==> SaysInteger(other, "schema_version", 1))
    ensures "active_group_id" !in names ==>
      forall text :: SaysText(fields, "active_group_id", text) <==> SaysText(other, "active_group_id", text)
    ensures "sidebar_width" !in names ==>
      forall width :: DescribesSidebar(fields, width) <==> DescribesSidebar(other, width)
    ensures "window_placement" !in names ==>
      forall placement :: DescribesPlacement(fields, placement) <==> DescribesPlacement(other, placement)
    ensures "list_font_points" !in names ==>
      forall points :: DescribesFont(fields, points) <==> DescribesFont(other, points)
    ensures "pinned_locations" !in names ==>
      forall pinned :: DescribesPins(fields, pinned) <==> DescribesPins(other, pinned)
    ensures "groups" !in names ==> forall groups :: DescribesGroups(fields, groups) <==> DescribesGroups(other, groups)
  {
    hide DescribesLocation, DescribesGroup, CanPinLocation, DescribesPins;
    if "pinned_locations" !in names {
      forall pinned ensures DescribesPins(fields, pinned) <==> DescribesPins(other, pinned) {
        PinsDepend(fields, other, pinned);
      }
    }
  }

  lemma PinsDepend(fields: Fields, other: Fields, pinned: seq<ShellLocation>)
    requires "pinned_locations" in fields <==> "pinned_locations" in other
    requires "pinned_locations" in fields ==> fields["pinned_locations"] == other["pinned_locations"]
    ensures DescribesPins(fields, pinned) <==> DescribesPins(other, pinned)
  {
    hide DescribesLocation, CanPinLocation;
    if "pinned_locations" in fields && fields["pinned_locations"].Array? {
      assert forall i | 0 <= i < |fields["pinned_locations"].items| ::
        Element(fields, "pinned_locations", i) == Element(other, "pinned_locations", i);
    }
  }

  /** The session one member of the root gives when it is left out or given another value. */
  lemma OtherMember(fields: Fields, other: Fields, name: string, before: ApplicationState, after: ApplicationState)
    requires AgreeBut(fields, other, {name}) && ValidApplication(after)
    requires Decode(Object(fields)) == Some(before)
    requires name !in {"schema_version", "active_group_id", "window_placement", "groups"}
    requires after == before.(sidebarWidth := after.sidebarWidth, pinnedLocations := after.pinnedLocations,
                              listFontPoints := after.listFontPoints)
    requires if name == "sidebar_width" then DescribesSidebar(other, after.sidebarWidth)
             else after.sidebarWidth == before.sidebarWidth
    requires if name == "pinned_locations" then DescribesPins(other, after.pinnedLocations)
             else after.pinnedLocations == before.pinnedLocations
    requires if name == "list_font_points" then DescribesFont(other, after.listFontPoints)
             else after.listFontPoints == before.listFontPoints
    ensures Decode(Object(other)) == Some(after)
  {
    hide Decode, SaysInteger, SaysText, DescribesSidebar, DescribesPlacement, DescribesFont, DescribesPins,
         DescribesGroups, ValidApplication, AgreeBut;
    DecodeExactly(Object(fields), before);
    PartsDepend(fields, other, {name});
    DecodeExactly(Object(other), after);
  }

  lemma StillValid(application: ApplicationState, width: Int32, pinned: seq<ShellLocation>, points: Int32)
    requires ValidApplication(application)
    ensures ValidApplication(application.(sidebarWidth := width, pinnedLocations := pinned, listFontPoints := points))
  {
  }

  lemma DecodedIsValid(root: Json, application: ApplicationState)
    requires Decode(root) == Some(application)
    ensures root.Object? && ValidApplication(application)
  {
  }

  /** A session of an older build: without these members it is read all the same, with their defaults. */
  lemma DefaultsAtRoot(root: Json, application: ApplicationState)
    requires Decode(root) == Some(application)
    ensures Decode(Object(root.fields - {"sidebar_width"})) == Some(application.(sidebarWidth := 194))
    ensures Decode(Object(root.fields - {"pinned_locations"})) == Some(application.(pinnedLocations := []))
    ensures Decode(Object(root.fields - {"list_font_points"})) == Some(application.(listFontPoints := 0))
    ensures Decode(Object(root.fields - {"clean_shutdown"})) == Some(application)
    ensures CleanShutdownOf(Object(root.fields - {"clean_shutdown"}))
  {
    hide Decode, ValidApplication, DescribesSidebar, DescribesPins, DescribesFont, AgreeBut;
    DecodedIsValid(root, application);
    var fields := root.fields;
    AbsentMembers(fields);
    StillValid(application, 194, application.pinnedLocations, application.listFontPoints);
    OtherMember(fields, fields - {"sidebar_width"}, "sidebar_width", application, application.(sidebarWidth := 194));
    StillValid(application, application.sidebarWidth, [], application.listFontPoints);
    OtherMember(fields, fields - {"pinned_locations"}, "pinned_locations", application,
                application.(pinnedLocations := []));
    StillValid(application, application.sidebarWidth, application.pinnedLocations, 0);
    OtherMember(fields, fields - {"list_font_points"}, "list_font_points", application,
                application.(listFontPoints := 0));
    OtherMember(fields, fields - {"clean_shutdown"}, "clean_shutdown", application, application);
  }

  lemma AbsentMembers(fields: Fields)
    ensures forall name: string :: AgreeBut(fields, fields - {name}, {name})
    ensures DescribesSidebar(fields - {"sidebar_width"}, 194)
    ensures DescribesPins(fields - {"pinned_locations"}, [])
    ensures DescribesFont(fields - {"list_font_points"}, 0)
  {
  }

  /** A member of a newer build is ignored, and so is what clean_shutdown says to anything but the flag. */
  lemma UnknownAtRoot(root: Json, application: ApplicationState, name: string, value: Json)
    requires Decode(root) == Some(application)
    requires name !in ROOT_NAMES || name == "clean_shutdown"
    ensures Decode(Object(root.fields[name := value])) == Some(application)
    ensures CleanShutdownOf(Object(root.fields["clean_shutdown" := value])) == if value.Bool? then value.flag else true
  {
    DecodedIsValid(root, application);
    hide Decode, ValidApplication, DescribesSidebar, DescribesPins, DescribesFont;
    OtherMember(root.fields, root.fields[name := value], name, application, application);
  }

  /** A list font that is not one of the valid sizes does not discard the session, but counts as none. */
  lemma BadFont(root: Json, application: ApplicationState, value: Json)
    requires Decode(root) == Some(application)
    requires forall points: Int32 | points in FONT_SIZES ::
      !SaysInteger(root.fields["list_font_points" := value], "list_font_points", points)
    ensures Decode(Object(root.fields["list_font_points" := value])) == Some(application.(listFontPoints := 0))
  {
    var other := root.fields["list_font_points" := value];
    DecodedIsValid(root, application);
    hide Decode, ValidApplication, SaysInteger;
    StillValid(application, application.sidebarWidth, application.pinnedLocations, 0);
    OtherMember(root.fields, other, "list_font_points", application, application.(listFontPoints := 0));
  }

  /** No session is read from a root that lacks one of these members, or has another kind of value there. */
  lemma NeededAtRoot(root: Json, name: string)
    requires root.Object? && name in {"schema_version", "active_group_id", "window_placement", "groups"}
    ensures Decode(Object(root.fields - {name})) == None
    ensures forall value: Json ::
      !(match name case "schema_version" => value.Number? case "active_group_id" => value.String?
        case "window_placement" => value.Object? case _ => value.Array?)
      ==> Decode(Object(root.fields[name := value])) == None
  {
  }

  /** Optional members of the root are refused when they are there and are not of their kind. */
  lemma WrongKindAtRoot(root: Json, value: Json)
    requires root.Object?
    ensures !value.Number? ==> Decode(Object(root.fields["sidebar_width" := value])) == None
    ensures !value.Array? ==> Decode(Object(root.fields["pinned_locations" := value])) == None
  {
  }

  // ----- Members of tabs and locations that are absent or unknown

  /** Which other locations an object describes once members of older or newer builds are gone or added. */
  lemma DefaultsOfLocation(fields: Fields, location: ShellLocation, name: string, value: Json)
    requires DescribesLocation(fields, location)
    ensures DescribesLocation(fields - {"namespace_location"}, location.(namespaceLocation := false))
    ensures DescribesLocation(fields - {"navigation_parent"}, location.(navigationParent := None))
    ensures location.navigationParent.Some? ==>
      && "navigation_parent" in fields && fields["navigation_parent"].Object?
      && var parent := fields["navigation_parent"].fields - {"namespace_location"};
      DescribesLocation(fields["navigation_parent" := Object(parent)],
                        location.(navigationParent :=
                                    Some(location.navigationParent.value.(namespaceLocation := false))))
    ensures name !in IDENTITY_NAMES + {"navigation_parent"} ==> DescribesLocation(fields[name := value], location)
  {
  }

  lemma DefaultsOfTab(fields: Fields, tab: TabState, name: string, value: Json)
    requires DescribesTab(Object(fields), tab)
    ensures DescribesTab(Object(fields - {"columns"}), tab.(columns := ""))
    ensures name !in TAB_NAMES ==> DescribesTab(Object(fields[name := value]), tab)
  {
    hide DescribesLocation;
  }

  lemma OtherLocation(fields: Fields, tab: TabState, inner: Fields, location: ShellLocation)
    requires DescribesTab(Object(fields), tab) && DescribesLocation(inner, location)
    ensures DescribesTab(Object(fields["shell_location" := Object(inner)]), tab.(location := location))
  {
    hide DescribesLocation;
  }

  /** A list member with another value at one place. */
  function Edited(fields: Fields, name: string, i: nat, value: Json): Json
    requires name in fields && fields[name].Array? && i < |fields[name].items|
  {
    Object(fields[name := Array(fields[name].items[i := value])])
  }

  predicate HasElement(value: Json, name: string, i: nat) {
    value.Object? && name in value.fields && value.fields[name].Array? && i < |value.fields[name].items|
  }

  /** There is an element where tab `t` of pane `p` of group `g` stands. */
  predicate HasTabAt(root: Json, g: nat, p: nat, t: nat) {
    && HasElement(root, "groups", g)
    && HasElement(Element(root.fields, "groups", g), "panes", p)
    && HasElement(Element(Element(root.fields, "groups", g).fields, "panes", p), "tabs", t)
  }

  function TabAt(root: Json, g: nat, p: nat, t: nat): Json
    requires HasTabAt(root, g, p, t)
  {
    Element(Element(Element(root.fields, "groups", g).fields, "panes", p).fields, "tabs", t)
  }

  /** The root with another value there. */
  function WithTabAt(root: Json, g: nat, p: nat, t: nat, value: Json): Json
    requires HasTabAt(root, g, p, t)
  {
    var group := Element(root.fields, "groups", g);
    var pane := Element(group.fields, "panes", p);
    Edited(root.fields, "groups", g, Edited(group.fields, "panes", p, Edited(pane.fields, "tabs", t, value)))
  }

  predicate IsTab(application: ApplicationState, g: nat, p: nat, t: nat) {
    && g < |application.groups| && p < |application.groups[g].panes|
    && t < |application.groups[g].panes[p].tabs|
  }

  function WithTab(application: ApplicationState, g: nat, p: nat, t: nat, tab: TabState): ApplicationState
    requires IsTab(application, g, p, t)
  {
    var group := application.groups[g];
    var pane := group.panes[p];
    var panes := group.panes[p := pane.(tabs := pane.tabs[t := tab])];
    application.(groups := application.groups[g := group.(panes := panes)])
  }

  lemma PaneEdited(value: Json, pane: PaneState, t: nat, other: Json, tab: TabState)
    requires DescribesPane(value, pane) && t < |pane.tabs| && DescribesTab(other, tab)
    ensures HasElement(value, "tabs", t)
    ensures DescribesPane(Edited(value.fields, "tabs", t, other), pane.(tabs := pane.tabs[t := tab]))
  {
    hide DescribesTab;
  }

  lemma GroupEdited(value: Json, group: GroupState, p: nat, other: Json, pane: PaneState)
    requires DescribesGroup(value, group) && p < |group.panes| && DescribesPane(other, pane)
    ensures HasElement(value, "panes", p)
    ensures DescribesGroup(Edited(value.fields, "panes", p, other), group.(panes := group.panes[p := pane]))
  {
    hide DescribesPane;
    var text :| text in LAYOUTS && SaysText(value.fields, "layout_template", text)
                && LAYOUTS[text] == group.layoutTemplate;
    var edited := Edited(value.fields, "panes", p, other).fields;
    assert SaysText(edited, "layout_template", text);
    assert forall i | 0 <= i < |group.dividerRatios| ::
      Element(edited, "divider_ratios", i) == Element(value.fields, "divider_ratios", i);
  }

  lemma GroupsEdited(fields: Fields, groups: seq<GroupState>, g: nat, other: Json, group: GroupState)
    requires DescribesGroups(fields, groups) && g < |groups| && DescribesGroup(other, group)
    ensures HasElement(Object(fields), "groups", g)
    ensures DescribesGroups(Edited(fields, "groups", g, other).fields, groups[g := group])
  {
    hide DescribesGroup;
  }

  lemma OtherTabValid(application: ApplicationState, g: nat, p: nat, t: nat, tab: TabState)
    requires ValidApplication(application) && IsTab(application, g, p, t)
    requires tab.id == application.groups[g].panes[p].tabs[t].id && tab.history == []
    ensures ValidApplication(WithTab(application, g, p, t, tab))
  {
    var group := application.groups[g];
    var pane := group.panes[p];
    var other := pane.(tabs := pane.tabs[t := tab]);
    assert group in application.groups && pane in group.panes;
    assert TabIds(other.tabs) == TabIds(pane.tabs);
    assert ValidPane(other);
    PaneTabs.PaneReplacedValid(group, p, other);
    hide ValidGroup, ValidPane;
    assert GroupIds(WithTab(application, g, p, t, tab).groups) == GroupIds(application.groups);
  }

  /** One tab of a session gives way to another description, and nothing else of the session changes. */
  lemma TabEdited(root: Json, application: ApplicationState, g: nat, p: nat, t: nat, other: Json, tab: TabState)
    requires Decode(root) == Some(application) && IsTab(application, g, p, t)
    requires DescribesTab(other, tab) && tab.id == application.groups[g].panes[p].tabs[t].id
    ensures HasTabAt(root, g, p, t) && DescribesTab(TabAt(root, g, p, t), application.groups[g].panes[p].tabs[t])
    ensures Decode(WithTabAt(root, g, p, t, other)) == Some(WithTab(application, g, p, t, tab))
  {
    hide Decode, DescribesGroups, DescribesTab, ValidApplication, WithTabAt, WithTab, SaysInteger, AgreeBut;
    OneTab(root, application, g, p, t);
    DecodeExactly(root, application);
    DescribedTab(other, tab);
    OtherTabValid(application, g, p, t, tab);
    TabOfGroupsEdited(root, application, g, p, t, other, tab);
    OtherGroups(root, application, WithTabAt(root, g, p, t, other).fields, WithTab(application, g, p, t, tab));
  }

  lemma DescribedTab(value: Json, tab: TabState)
    requires DescribesTab(value, tab)
    ensures value.Object? && tab.history == []
  {
  }

  lemma OtherGroups(root: Json, application: ApplicationState, other: Fields, after: ApplicationState)
    requires Decode(root) == Some(application) && root.Object? && AgreeBut(root.fields, other, {"groups"})
    requires after == application.(groups := after.groups) && DescribesGroups(other, after.groups)
    requires ValidApplication(after)
    ensures Decode(Object(other)) == Some(after)
  {
    hide Decode, DescribesGroups, DescribesSidebar, DescribesPlacement, DescribesFont, DescribesPins, ValidApplication,
         SaysInteger, SaysText, AgreeBut;
    DecodeExactly(root, application);
    PartsDepend(root.fields, other, {"groups"});
    DecodeExactly(Object(other), after);
  }

  lemma TabOfGroupsEdited(root: Json, application: ApplicationState, g: nat, p: nat, t: nat, other: Json, tab: TabState)
    requires root.Object? && DescribesGroups(root.fields, application.groups) && IsTab(application, g, p, t)
    requires HasTabAt(root, g, p, t) && DescribesTab(other, tab)
    ensures var edited, after := WithTabAt(root, g, p, t, other), WithTab(application, g, p, t, tab);
      && edited.Object? && AgreeBut(root.fields, edited.fields, {"groups"})
      && DescribesGroups(edited.fields, after.groups) && after == application.(groups := after.groups)
  {
    hide DescribesGroup, DescribesGroups, DescribesTab, DescribesPane;
    GroupsHere(root.fields, application.groups, g);
    var value, group := Element(root.fields, "groups", g), application.groups[g];
    TabOfGroupEdited(value, group, p, t, other, tab);
    GroupsEdited(root.fields, application.groups, g,
                 Edited(value.fields, "panes", p, Edited(Element(value.fields, "panes", p).fields, "tabs", t, other)),
                 WithTab(application, g, p, t, tab).groups[g]);
  }

  lemma TabOfGroupEdited(value: Json, group: GroupState, p: nat, t: nat, other: Json, tab: TabState)
    requires DescribesGroup(value, group) && p < |group.panes| && t < |group.panes[p].tabs|
    requires DescribesTab(other, tab)
    ensures HasElement(value, "panes", p) && HasElement(Element(value.fields, "panes", p), "tabs", t)
    ensures var pane := group.panes[p];
      DescribesGroup(Edited(value.fields, "panes", p,
                            Edited(Element(value.fields, "panes", p).fields, "tabs", t, other)),
                     group.(panes := group.panes[p := pane.(tabs := pane.tabs[t := tab])]))
  {
    hide DescribesGroup, DescribesPane, DescribesTab;
    var pane := group.panes[p];
    PanesHere(value, group, p);
    PaneEdited(Element(value.fields, "panes", p), pane, t, other, tab);
    GroupEdited(value, group, p, Edited(Element(value.fields, "panes", p).fields, "tabs", t, other),
                pane.(tabs := pane.tabs[t := tab]));
  }

  lemma GroupsHere(fields: Fields, groups: seq<GroupState>, g: nat)
    requires DescribesGroups(fields, groups) && g < |groups|
    ensures HasElement(Object(fields), "groups", g) && DescribesGroup(Element(fields, "groups", g), groups[g])
  {
    hide DescribesGroup;
  }

  lemma PanesHere(value: Json, group: GroupState, p: nat)
    requires DescribesGroup(value, group) && p < |group.panes|
    ensures HasElement(value, "panes", p) && DescribesPane(Element(value.fields, "panes", p), group.panes[p])
  {
    hide DescribesPane;
  }

  /** A tab of an older build has no columns, no namespace flag and no parent of its location, and one of a newer
      build has members that are not known: the session is read all the same. */
  lemma DefaultsAtTab(root: Json, application: ApplicationState, g: nat, p: nat, t: nat, name: string, value: Json)
    requires Decode(root) == Some(application) && IsTab(application, g, p, t)
    ensures HasTabAt(root, g, p, t) && TabAt(root, g, p, t).Object?
    ensures var fields, tab := TabAt(root, g, p, t).fields, application.groups[g].panes[p].tabs[t];
      && "shell_location" in fields && fields["shell_location"].Object?
      && var inner := fields["shell_location"].fields;
      && Decode(WithTabAt(root, g, p, t, Object(fields - {"columns"})))
           == Some(WithTab(application, g, p, t, tab.(columns := "")))
      && Decode(WithTabAt(root, g, p, t,
                          Object(fields["shell_location" := Object(inner - {"namespace_location"})])))
           == Some(WithTab(application, g, p, t, tab.(location := tab.location.(namespaceLocation := false))))
      && Decode(WithTabAt(root, g, p, t, Object(fields["shell_location" := Object(inner - {"navigation_parent"})])))
           == Some(WithTab(application, g, p, t, tab.(location := tab.location.(navigationParent := None))))
      && (tab.location.navigationParent.Some? ==>
            && "navigation_parent" in inner && inner["navigation_parent"].Object?
            && var bare := inner["navigation_parent" :=
                                 Object(inner["navigation_parent"].fields - {"namespace_location"})];
            && var parent := tab.location.navigationParent.value.(namespaceLocation := false);
            && Decode(WithTabAt(root, g, p, t, Object(fields["shell_location" := Object(bare)])))
                 == Some(WithTab(application, g, p, t,
                                 tab.(location := tab.location.(navigationParent := Some(parent))))))
      && (name !in TAB_NAMES ==>
            Decode(WithTabAt(root, g, p, t, Object(fields[name := value]))) == Some(application))
  {
    var tab := application.groups[g].panes[p].tabs[t];
    hide Decode, DescribesLocation, WithTabAt, WithTab;
    OneTab(root, application, g, p, t);
    var fields := TabAt(root, g, p, t).fields;
    var inner := fields["shell_location"].fields;
    DefaultsOfLocation(inner, tab.location, name, value);
    DefaultsOfTab(fields, tab, name, value);
    var flat, single := tab.location.(namespaceLocation := false), tab.location.(navigationParent := None);
    OtherLocation(fields, tab, inner - {"namespace_location"}, flat);
    OtherLocation(fields, tab, inner - {"navigation_parent"}, single);
    hide DescribesTab;
    TabEdited(root, application, g, p, t, Object(fields - {"columns"}), tab.(columns := ""));
    TabEdited(root, application, g, p, t, Object(fields["shell_location" := Object(inner - {"namespace_location"})]),
              tab.(location := flat));
    TabEdited(root, application, g, p, t, Object(fields["shell_location" := Object(inner - {"navigation_parent"})]),
              tab.(location := single));
    if tab.location.navigationParent.Some? {
      var bare := inner["navigation_parent" :=
                        Object(inner["navigation_parent"].fields - {"namespace_location"})];
      var parent := tab.location.navigationParent.value.(namespaceLocation := false);
      var location := tab.location.(navigationParent := Some(parent));
      OtherLocation(fields, tab, bare, location);
      TabEdited(root, application, g, p, t, Object(fields["shell_location" := Object(bare)]),
                tab.(location := location));
    }
    if name !in TAB_NAMES {
      TabEdited(root, application, g, p, t, Object(fields[name := value]), tab);
      SameTab(application, g, p, t);
    }
  }

  lemma OneTab(root: Json, application: ApplicationState, g: nat, p: nat, t: nat)
    requires Decode(root) == Some(application) && IsTab(application, g, p, t)
    ensures HasTabAt(root, g, p, t) && DescribesTab(TabAt(root, g, p, t), application.groups[g].panes[p].tabs[t])
  {
    DecodeExactly(root, application);
    hide Decode, DescribesGroup, DescribesPane, DescribesTab, ValidApplication, DescribesPins, DescribesPlacement,
         DescribesFont, DescribesSidebar, DescribesGroups;
    GroupsHere(root.fields, application.groups, g);
    var groupJson, group := Element(root.fields, "groups", g), application.groups[g];
    PanesHere(groupJson, group, p);
    TabsHere(Element(groupJson.fields, "panes", p), group.panes[p], t);
  }

  lemma TabsHere(value: Json, pane: PaneState, t: nat)
    requires DescribesPane(value, pane) && t < |pane.tabs|
    ensures HasElement(value, "tabs", t) && DescribesTab(Element(value.fields, "tabs", t), pane.tabs[t])
  {
    hide DescribesTab;
  }

  lemma SameTab(application: ApplicationState, g: nat, p: nat, t: nat)
    requires IsTab(application, g, p, t)
    ensures WithTab(application, g, p, t, application.groups[g].panes[p].tabs[t]) == application
  {
    var group := application.groups[g];
    assert group.panes[p].tabs[t := group.panes[p].tabs[t]] == group.panes[p].tabs;
    assert group.panes[p := group.panes[p]] == group.panes;
    assert application.groups[g := group] == application.groups;
  }

  /** Another location under the same name in the list of pins. */
  lemma PinEdited(root: Json, application: ApplicationState, i: nat, inner: Fields, location: ShellLocation)
    requires Decode(root) == Some(application) && i < |application.pinnedLocations|
    requires DescribesLocation(inner, location)
    requires location.parsingName == application.pinnedLocations[i].parsingName
    ensures HasElement(root, "pinned_locations", i)
    ensures Decode(Edited(root.fields, "pinned_locations", i, Object(inner)))
         == Some(application.(pinnedLocations := application.pinnedLocations[i := location]))
  {
    var pinned := application.pinnedLocations[i := location];
    DecodeExactly(root, application);
    PinsEdited(root.fields, application.pinnedLocations, i, inner, location);
    StillValid(application, application.sidebarWidth, pinned, application.listFontPoints);
    hide Decode, DescribesPins, DescribesSidebar, DescribesFont, ValidApplication, DescribesLocation, DescribesSession,
         AgreeBut, SaysInteger;
    EditedAgrees(root.fields, "pinned_locations", i, Object(inner));
    OtherMember(root.fields, Edited(root.fields, "pinned_locations", i, Object(inner)).fields, "pinned_locations",
                application, application.(pinnedLocations := pinned));
  }

  lemma EditedAgrees(fields: Fields, name: string, i: nat, value: Json)
    requires name in fields && fields[name].Array? && i < |fields[name].items|
    ensures AgreeBut(fields, Edited(fields, name, i, value).fields, {name})
  {
  }

  lemma PinsEdited(fields: Fields, pinned: seq<ShellLocation>, i: nat, inner: Fields, location: ShellLocation)
    requires DescribesPins(fields, pinned) && i < |pinned| && DescribesLocation(inner, location)
    requires location.parsingName == pinned[i].parsingName
    ensures HasElement(Object(fields), "pinned_locations", i)
    ensures DescribesPins(Edited(fields, "pinned_locations", i, Object(inner)).fields, pinned[i := location])
  {
    hide DescribesLocation;
    var edited := Edited(fields, "pinned_locations", i, Object(inner)).fields;
    var after := pinned[i := location];
    assert forall k | 0 <= k < |after| ::
      Element(edited, "pinned_locations", k)
      == (if k == i then Object(inner) else Element(fields, "pinned_locations", k));
    forall k | 0 <= k < |after| ensures CanPinLocation(after[..k], after[k]) {
      assert CanPinLocation(pinned[..k], pinned[k]);
      forall other | other in after[..k] ensures other.parsingName != after[k].parsingName {
        var j :| 0 <= j < k && after[..k][j] == other;
        assert pinned[..k][j] == pinned[j] && pinned[j] in pinned[..k];
      }
    }
  }

  /** The same of a pinned location: without the namespace flag, or without a parent, it is read with the default. */
  lemma DefaultsAtPin(root: Json, application: ApplicationState, i: nat, name: string, value: Json)
    requires Decode(root) == Some(application) && i < |application.pinnedLocations|
    ensures HasElement(root, "pinned_locations", i) && Element(root.fields, "pinned_locations", i).Object?
    ensures var inner, location, pinned :=
        Element(root.fields, "pinned_locations", i).fields, application.pinnedLocations[i], application.pinnedLocations;
      && Decode(Edited(root.fields, "pinned_locations", i, Object(inner - {"namespace_location"})))
           == Some(application.(pinnedLocations := pinned[i := location.(namespaceLocation := false)]))
      && Decode(Edited(root.fields, "pinned_locations", i, Object(inner - {"navigation_parent"})))
           == Some(application.(pinnedLocations := pinned[i := location.(navigationParent := None)]))
      && (name !in IDENTITY_NAMES + {"navigation_parent"} ==>
            Decode(Edited(root.fields, "pinned_locations", i, Object(inner[name := value]))) == Some(application))
  {
    hide Decode, DescribesLocation, Edited;
    OnePin(root, application, i);
    var location, pinned := application.pinnedLocations[i], application.pinnedLocations;
    var inner := Element(root.fields, "pinned_locations", i).fields;
    DefaultsOfLocation(inner, location, name, value);
    PinEdited(root, application, i, inner - {"namespace_location"}, location.(namespaceLocation := false));
    PinEdited(root, application, i, inner - {"navigation_parent"}, location.(navigationParent := None));
    if name !in IDENTITY_NAMES + {"navigation_parent"} {
      PinEdited(root, application, i, inner[name := value], location);
      assert pinned[i := location] == pinned;
    }
  }

  lemma OnePin(root: Json, application: ApplicationState, i: nat)
    requires Decode(root) == Some(application) && i < |application.pinnedLocations|
    ensures HasElement(root, "pinned_locations", i)
    ensures var value := Element(root.fields, "pinned_locations", i);
      value.Object? && DescribesLocation(value.fields, application.pinnedLocations[i])
  {
    DecodeExactly(root, application);
    PinsHere(root.fields, application.pinnedLocations, i);
  }

  lemma PinsHere(fields: Fields, pinned: seq<ShellLocation>, i: nat)
    requires DescribesPins(fields, pinned) && i < |pinned|
    ensures HasElement(Object(fields), "pinned_locations", i)
    ensures var value := Element(fields, "pinned_locations", i);
      value.Object? && DescribesLocation(value.fields, pinned[i])
  {
    hide DescribesLocation;
  }
}
