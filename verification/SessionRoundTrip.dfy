/** Decoding what encode() wrote: exactly when it succeeds, and that it gives the state back. */
module SessionRoundTrip {
  import opened Options
  import opened JsonTree
  import opened Model
  import opened Wtf8
  import opened SessionCodec

  // ----- What the session file keeps

  function ForgetTab(tab: TabState): TabState {
    tab.(history := [], historyIndex := 0)
  }

  function ForgetTabs(tabs: seq<TabState>): seq<TabState> {
    seq(|tabs|, i requires 0 <= i < |tabs| => ForgetTab(tabs[i]))
  }

  function ForgetPane(pane: PaneState): PaneState {
    pane.(tabs := ForgetTabs(pane.tabs))
  }

  function ForgetPanes(panes: seq<PaneState>): seq<PaneState> {
    seq(|panes|, i requires 0 <= i < |panes| => ForgetPane(panes[i]))
  }

  function ForgetGroup(group: GroupState): GroupState {
    group.(panes := ForgetPanes(group.panes))
  }

  function ForgetGroups(groups: seq<GroupState>): seq<GroupState> {
    seq(|groups|, i requires 0 <= i < |groups| => ForgetGroup(groups[i]))
  }

  /** The state without tab histories, and with an unusable font setting reset. */
  function Forget(application: ApplicationState): ApplicationState {
    application.(
      schemaVersion := SCHEMA_VERSION,
      groups := ForgetGroups(application.groups),
      listFontPoints := if ValidListFontPoints(application.listFontPoints) then application.listFontPoints else 0)
  }

  // ----- Which states and which previous roots can be stored

  /** A parent without a name is read as an error; without a parent, whatever the previous write
      stored under navigation_parent stays, and anything but an object is read as an error. */
  predicate LocationKept(former: Fields, location: ShellLocation) {
    match location.navigationParent
    case Some(parent) => parent.parsingName != []
    case None => "navigation_parent" in former ==> former["navigation_parent"].Object?
  }

  predicate TabKept(oldTabs: seq<Json>, oldPanes: seq<Json>, tab: TabState) {
    LocationKept(ObjectField(TabBase(oldTabs, oldPanes, tab.id), "shell_location"), tab.location)
  }

  predicate TabsKept(oldTabs: seq<Json>, oldPanes: seq<Json>, tabs: seq<TabState>) {
    forall i | 0 <= i < |tabs| :: TabKept(oldTabs, oldPanes, tabs[i])
  }

  predicate PaneKept(oldPanes: seq<Json>, pane: PaneState) {
    TabsKept(ArrayField(PreservedBy(oldPanes, "id", pane.id), "tabs"), oldPanes, pane.tabs)
  }

  predicate PanesKept(oldPanes: seq<Json>, panes: seq<PaneState>) {
    forall i | 0 <= i < |panes| :: PaneKept(oldPanes, panes[i])
  }

  predicate GroupKept(oldGroups: seq<Json>, group: GroupState) {
    PanesKept(ArrayField(PreservedBy(oldGroups, "id", group.id), "panes"), group.panes)
  }

  predicate GroupsKept(oldGroups: seq<Json>, groups: seq<GroupState>) {
    forall i | 0 <= i < |groups| :: GroupKept(oldGroups, groups[i])
  }

  predicate PinnedKept(oldPinned: seq<Json>, location: ShellLocation) {
    LocationKept(PreservedBy(oldPinned, "parsing_name", Utf8(location.parsingName)), location)
  }

  predicate AllPinnedKept(oldPinned: seq<Json>, pinned: seq<ShellLocation>) {
    forall i | 0 <= i < |pinned| :: PinnedKept(oldPinned, pinned[i])
  }

  predicate LocationsKept(application: ApplicationState, root: Json) {
    && GroupsKept(ArrayField(RootFields(root), "groups"), application.groups)
    && AllPinnedKept(ArrayField(RootFields(root), "pinned_locations"), application.pinnedLocations)
  }

  // ----- One location

  lemma WideOfUtf8(fields: Fields, name: string, text: WString)
    requires name in fields && fields[name] == String(Utf8(text))
    ensures WideField(fields, name) == Some(text)
  {
    WideUtf8(text);
  }

  /** The four identity fields after encode_location_identity; every other field is untouched. */
  lemma IdentityFields(
    former: Fields, parsingName: WString, known: WString, fallback: WString, namespaceLocation: bool)
    ensures var encoded := EncodeIdentity(former, parsingName, known, fallback, namespaceLocation);
      && WideField(encoded, "parsing_name") == Some(parsingName)
      && WideField(encoded, "known_folder_identity") == Some(known)
      && WideField(encoded, "fallback_path") == Some(fallback)
      && NamespaceField(encoded) == Some(namespaceLocation)
      && "parsing_name" in encoded
      && (forall name | name !in {"parsing_name", "known_folder_identity", "fallback_path", "namespace_location"} ::
            (name in encoded <==> name in former) && (name in former ==> encoded[name] == former[name]))
  {
    var encoded := EncodeIdentity(former, parsingName, known, fallback, namespaceLocation);
    WideOfUtf8(encoded, "parsing_name", parsingName);
    WideOfUtf8(encoded, "known_folder_identity", known);
    WideOfUtf8(encoded, "fallback_path", fallback);
  }

  lemma ParentRoundTrip(former: Fields, parent: Option<LocationParent>)
    ensures DecodeParent(EncodeParent(former, parent))
         == if parent.Some? && parent.value.parsingName == [] then None else Some(parent)
  {
    match parent
    case Some(p) =>
      IdentityFields(former, p.parsingName, p.knownFolderIdentity, p.fallbackPath, p.namespaceLocation);
    case None =>
  }

  lemma LocationRoundTrip(former: Fields, location: ShellLocation)
    ensures DecodeLocation(EncodeLocation(former, location))
         == if LocationKept(former, location) then Some(location) else None
  {
    var encoded := EncodeIdentity(former, location.parsingName, location.knownFolderIdentity,
                                  location.fallbackPath, location.namespaceLocation);
    IdentityFields(former, location.parsingName, location.knownFolderIdentity,
                   location.fallbackPath, location.namespaceLocation);
    assert "navigation_parent" !in {"parsing_name", "known_folder_identity", "fallback_path", "namespace_location"};
    var formerParent := ObjectField(encoded, "navigation_parent");
    ParentRoundTrip(formerParent, location.navigationParent);
    if location.navigationParent.Some? {
      var p := location.navigationParent.value;
      IdentityFields(formerParent, p.parsingName, p.knownFolderIdentity, p.fallbackPath, p.namespaceLocation);
    }
    var result := EncodeLocation(former, location);
    OtherThanParent(encoded, result);
  }

  /** Changing only navigation_parent leaves the identity fields as they are. */
  lemma OtherThanParent(encoded: Fields, result: Fields)
    requires forall name | name != "navigation_parent" ::
      (name in result <==> name in encoded) && (name in encoded ==> result[name] == encoded[name])
    ensures WideField(result, "parsing_name") == WideField(encoded, "parsing_name")
    ensures WideField(result, "known_folder_identity") == WideField(encoded, "known_folder_identity")
    ensures WideField(result, "fallback_path") == WideField(encoded, "fallback_path")
    ensures NamespaceField(result) == NamespaceField(encoded)
  {
  }

  // ----- Tabs, panes, groups

  /** The members encode() writes for a tab. */
  lemma TabMembers(base: Fields, tab: TabState)
    ensures var fields := EncodeTabOver(base, tab).fields;
      && StringField(fields, "id") == Some(tab.id)
      && "shell_location" in fields
      && fields["shell_location"] == Object(EncodeLocation(ObjectField(base, "shell_location"), tab.location))
      && StringField(fields, "view_mode") == Some(tab.viewMode)
      && StringField(fields, "sort_column") == Some(tab.sortColumn)
      && BoolField(fields, "sort_ascending") == Some(tab.sortAscending)
      && StringField(fields, "columns") == if tab.columns == "" then None else Some(tab.columns)
  {
  }

  lemma TabFromMembers(fields: Fields, tab: TabState, former: Fields)
    requires StringField(fields, "id") == Some(tab.id)
    requires "shell_location" in fields
    requires fields["shell_location"] == Object(EncodeLocation(former, tab.location))
    requires StringField(fields, "view_mode") == Some(tab.viewMode)
    requires StringField(fields, "sort_column") == Some(tab.sortColumn)
    requires BoolField(fields, "sort_ascending") == Some(tab.sortAscending)
    requires StringField(fields, "columns") == if tab.columns == "" then None else Some(tab.columns)
    ensures DecodeTabFields(fields) == if LocationKept(former, tab.location) then Some(ForgetTab(tab)) else None
  {
    LocationRoundTrip(former, tab.location);
  }

  lemma TabRoundTrip(base: Fields, tab: TabState)
    ensures DecodeTab(EncodeTabOver(base, tab))
         == if LocationKept(ObjectField(base, "shell_location"), tab.location) then Some(ForgetTab(tab)) else None
  {
    TabMembers(base, tab);
    TabFromMembers(EncodeTabOver(base, tab).fields, tab, ObjectField(base, "shell_location"));
  }

  /** Decoding a list of encoded elements, when each element alone is known to read back or not. */
  lemma MapAllEncoded<A, B, C>(
    decode: A -> Option<B>, encoded: seq<A>, values: seq<C>, kept: C -> bool, forget: C -> B)
    requires |encoded| == |values|
    requires forall i | 0 <= i < |encoded| ::
      decode(encoded[i]) == if kept(values[i]) then Some(forget(values[i])) else None
    ensures MapAll(decode, encoded).Some? <==> forall i | 0 <= i < |values| :: kept(values[i])
    ensures MapAll(decode, encoded).Some? ==>
      forall i | 0 <= i < |values| :: MapAll(decode, encoded).value[i] == forget(values[i])
  {
    if forall i | 0 <= i < |values| :: kept(values[i]) {
      forall i | 0 <= i < |encoded| ensures decode(encoded[i]).Some? {
        assert kept(values[i]);
      }
    } else {
      var i :| 0 <= i < |values| && !kept(values[i]);
      assert decode(encoded[i]).None?;
    }
  }

  lemma TabsRoundTrip(oldTabs: seq<Json>, oldPanes: seq<Json>, tabs: seq<TabState>)
    ensures MapAll(DecodeTab, EncodeTabs(oldTabs, oldPanes, tabs))
         == if TabsKept(oldTabs, oldPanes, tabs) then Some(ForgetTabs(tabs)) else None
  {
    forall i | 0 <= i < |tabs| {
      TabRoundTrip(TabBase(oldTabs, oldPanes, tabs[i].id), tabs[i]);
    }
    MapAllEncoded(DecodeTab, EncodeTabs(oldTabs, oldPanes, tabs), tabs,
                  tab => TabKept(oldTabs, oldPanes, tab), ForgetTab);
    var decoded := MapAll(DecodeTab, EncodeTabs(oldTabs, oldPanes, tabs));
    assert decoded.Some? ==> decoded.value == ForgetTabs(tabs);
  }

  /** The members encode() writes for a pane. */
  lemma PaneMembers(oldPanes: seq<Json>, pane: PaneState)
    ensures var base := PreservedBy(oldPanes, "id", pane.id);
      var fields := EncodePane(oldPanes, pane).fields;
      && StringField(fields, "id") == Some(pane.id)
      && StringField(fields, "active_tab_id") == Some(pane.activeTabId)
      && "tabs" in fields
      && fields["tabs"] == Array(EncodeTabs(ArrayField(base, "tabs"), oldPanes, pane.tabs))
  {
  }

  lemma PaneFromMembers(fields: Fields, pane: PaneState, oldTabs: seq<Json>, oldPanes: seq<Json>)
    requires StringField(fields, "id") == Some(pane.id)
    requires StringField(fields, "active_tab_id") == Some(pane.activeTabId)
    requires "tabs" in fields && fields["tabs"] == Array(EncodeTabs(oldTabs, oldPanes, pane.tabs))
    ensures DecodePane(Object(fields))
         == if TabsKept(oldTabs, oldPanes, pane.tabs) then Some(ForgetPane(pane)) else None
  {
    TabsRoundTrip(oldTabs, oldPanes, pane.tabs);
  }

  lemma PaneRoundTrip(oldPanes: seq<Json>, pane: PaneState)
    ensures DecodePane(EncodePane(oldPanes, pane))
         == if PaneKept(oldPanes, pane) then Some(ForgetPane(pane)) else None
  {
    PaneMembers(oldPanes, pane);
    PaneFromMembers(EncodePane(oldPanes, pane).fields, pane,
                    ArrayField(PreservedBy(oldPanes, "id", pane.id), "tabs"), oldPanes);
  }

  lemma PanesRoundTrip(oldPanes: seq<Json>, panes: seq<PaneState>)
    ensures MapAll(DecodePane, EncodePanes(oldPanes, panes))
         == if PanesKept(oldPanes, panes) then Some(ForgetPanes(panes)) else None
  {
    forall i | 0 <= i < |panes| {
      PaneRoundTrip(oldPanes, panes[i]);
    }
    MapAllEncoded(DecodePane, EncodePanes(oldPanes, panes), panes, pane => PaneKept(oldPanes, pane), ForgetPane);
    var decoded := MapAll(DecodePane, EncodePanes(oldPanes, panes));
    assert decoded.Some? ==> decoded.value == ForgetPanes(panes);
  }

  lemma RatiosRoundTrip(ratios: seq<Double>)
    ensures MapAll(DecodeRatio, EncodeRatios(ratios)) == Some(ratios)
  {
    assert MapAll(DecodeRatio, EncodeRatios(ratios)).value == ratios;
  }

  lemma TemplateRoundTrip(layout: LayoutTemplate)
    ensures TemplateOf(TemplateName(layout)) == Some(layout)
  {
  }

  /** The members encode() writes for a group. */
  lemma GroupMembers(oldGroups: seq<Json>, group: GroupState)
    ensures var oldPanes := ArrayField(PreservedBy(oldGroups, "id", group.id), "panes");
      var fields := EncodeGroup(oldGroups, group).fields;
      && StringField(fields, "id") == Some(group.id)
      && WideField(fields, "name") == Some(group.name)
      && StringField(fields, "layout_template") == Some(TemplateName(group.layoutTemplate))
      && "divider_ratios" in fields && fields["divider_ratios"] == Array(EncodeRatios(group.dividerRatios))
      && "panes" in fields && fields["panes"] == Array(EncodePanes(oldPanes, group.panes))
      && StringField(fields, "active_pane_id") == Some(group.activePaneId)
  {
    var fields := EncodeGroup(oldGroups, group).fields;
    WideOfUtf8(fields, "name", group.name);
  }

  lemma GroupFromMembers(fields: Fields, group: GroupState, oldPanes: seq<Json>)
    requires StringField(fields, "id") == Some(group.id)
    requires WideField(fields, "name") == Some(group.name)
    requires StringField(fields, "layout_template") == Some(TemplateName(group.layoutTemplate))
    requires "divider_ratios" in fields && fields["divider_ratios"] == Array(EncodeRatios(group.dividerRatios))
    requires "panes" in fields && fields["panes"] == Array(EncodePanes(oldPanes, group.panes))
    requires StringField(fields, "active_pane_id") == Some(group.activePaneId)
    ensures DecodeGroupFields(fields)
         == if PanesKept(oldPanes, group.panes) then Some(ForgetGroup(group)) else None
  {
    PanesRoundTrip(oldPanes, group.panes);
    RatiosRoundTrip(group.dividerRatios);
    TemplateRoundTrip(group.layoutTemplate);
  }

  lemma GroupRoundTrip(oldGroups: seq<Json>, group: GroupState)
    ensures DecodeGroup(EncodeGroup(oldGroups, group))
         == if GroupKept(oldGroups, group) then Some(ForgetGroup(group)) else None
  {
    var oldPanes := ArrayField(PreservedBy(oldGroups, "id", group.id), "panes");
    GroupMembers(oldGroups, group);
    GroupFromMembers(EncodeGroup(oldGroups, group).fields, group, oldPanes);
  }

  lemma GroupsRoundTrip(oldGroups: seq<Json>, groups: seq<GroupState>)
    ensures MapAll(DecodeGroup, EncodeGroups(oldGroups, groups))
         == if GroupsKept(oldGroups, groups) then Some(ForgetGroups(groups)) else None
  {
    forall i | 0 <= i < |groups| {
      GroupRoundTrip(oldGroups, groups[i]);
    }
    MapAllEncoded(DecodeGroup, EncodeGroups(oldGroups, groups), groups,
                  group => GroupKept(oldGroups, group), ForgetGroup);
    var decoded := MapAll(DecodeGroup, EncodeGroups(oldGroups, groups));
    assert decoded.Some? ==> decoded.value == ForgetGroups(groups);
  }

  lemma PinnedRoundTrip(oldPinned: seq<Json>, pinned: seq<ShellLocation>)
    ensures MapAll(DecodePinned, EncodePinnedLocations(oldPinned, pinned))
         == if AllPinnedKept(oldPinned, pinned) then Some(pinned) else None
  {
    forall i | 0 <= i < |pinned| {
      LocationRoundTrip(PreservedBy(oldPinned, "parsing_name", Utf8(pinned[i].parsingName)), pinned[i]);
    }
    MapAllEncoded(DecodePinned, EncodePinnedLocations(oldPinned, pinned), pinned,
                  location => PinnedKept(oldPinned, location), location => location);
    var decoded := MapAll(DecodePinned, EncodePinnedLocations(oldPinned, pinned));
    assert decoded.Some? ==> decoded.value == pinned;
  }

  // ----- The whole state

  lemma IntegerStored(fields: Fields, name: string, value: Int32)
    requires name in fields && fields[name] == Integer(value)
    ensures IntegerField(fields, name) == Some(value)
  {
    IntegerRead(value);
  }

  lemma PlacementRoundTrip(former: Fields, placement: WindowPlacement, fields: Fields)
    requires "window_placement" in fields
    requires fields["window_placement"] == Object(EncodePlacement(former, placement))
    ensures DecodePlacement(fields) == Some(placement)
  {
    var encoded := EncodePlacement(former, placement);
    IntegerStored(encoded, "x", placement.x);
    IntegerStored(encoded, "y", placement.y);
    IntegerStored(encoded, "width", placement.width);
    IntegerStored(encoded, "height", placement.height);
    assert BoolField(encoded, "maximized") == Some(placement.maximized);
  }

  /** The members encode() writes at the root. */
  lemma RootMembers(application: ApplicationState, root: Json, cleanShutdown: bool)
    ensures var former := RootFields(root);
      var fields := Encode(application, root, cleanShutdown).fields;
      && "schema_version" in fields && fields["schema_version"] == Integer(SCHEMA_VERSION)
      && StringField(fields, "active_group_id") == Some(application.activeGroupId)
      && "groups" in fields
      && fields["groups"] == Array(EncodeGroups(ArrayField(former, "groups"), application.groups))
      && "pinned_locations" in fields
      && fields["pinned_locations"]
           == Array(EncodePinnedLocations(ArrayField(former, "pinned_locations"), application.pinnedLocations))
      && BoolField(fields, "clean_shutdown") == Some(cleanShutdown)
      && "window_placement" in fields
      && fields["window_placement"]
           == Object(EncodePlacement(ObjectField(former, "window_placement"), application.windowPlacement))
      && "sidebar_width" in fields && fields["sidebar_width"] == Integer(application.sidebarWidth)
      && "list_font_points" in fields && fields["list_font_points"] == Integer(application.listFontPoints)
  {
  }

  lemma RootFromMembers(fields: Fields, application: ApplicationState, former: Fields)
    requires "schema_version" in fields && fields["schema_version"] == Integer(SCHEMA_VERSION)
    requires StringField(fields, "active_group_id") == Some(application.activeGroupId)
    requires "groups" in fields
    requires fields["groups"] == Array(EncodeGroups(ArrayField(former, "groups"), application.groups))
    requires "pinned_locations" in fields
    requires fields["pinned_locations"]
          == Array(EncodePinnedLocations(ArrayField(former, "pinned_locations"), application.pinnedLocations))
    requires "window_placement" in fields
    requires fields["window_placement"]
          == Object(EncodePlacement(ObjectField(former, "window_placement"), application.windowPlacement))
    requires "sidebar_width" in fields && fields["sidebar_width"] == Integer(application.sidebarWidth)
    requires "list_font_points" in fields && fields["list_font_points"] == Integer(application.listFontPoints)
    ensures DecodeFields(fields)
         == if AllPinned(application.pinnedLocations)
               && GroupsKept(ArrayField(former, "groups"), application.groups)
               && AllPinnedKept(ArrayField(former, "pinned_locations"), application.pinnedLocations)
            then Some(Forget(application)) else None
  {
    IntegerStored(fields, "schema_version", SCHEMA_VERSION);
    IntegerStored(fields, "sidebar_width", application.sidebarWidth);
    IntegerStored(fields, "list_font_points", application.listFontPoints);
    PlacementRoundTrip(ObjectField(former, "window_placement"), application.windowPlacement, fields);
    GroupsRoundTrip(ArrayField(former, "groups"), application.groups);
    PinnedRoundTrip(ArrayField(former, "pinned_locations"), application.pinnedLocations);
  }

  /** Everything a state must satisfy, with this previous root, to be readable once stored. */
  predicate Storable(application: ApplicationState, root: Json) {
    && ValidApplication(Forget(application))
    && AllPinned(application.pinnedLocations)
    && LocationsKept(application, root)
  }

  /** A stored state reads back, without its histories, exactly when it is storable. */
  lemma DecodeEncode(application: ApplicationState, root: Json, cleanShutdown: bool)
    ensures Decode(Encode(application, root, cleanShutdown))
         == if Storable(application, root) then Some(Forget(application)) else None
  {
    RootMembers(application, root, cleanShutdown);
    RootFromMembers(Encode(application, root, cleanShutdown).fields, application, RootFields(root));
  }

  // ----- A valid state after reading an own session is always storable

  lemma ForgetValid(application: ApplicationState)
    requires ValidApplication(application)
    ensures ValidApplication(Forget(application))
  {
    var forgotten := Forget(application);
    assert GroupIds(forgotten.groups) == GroupIds(application.groups);
    forall i | 0 <= i < |application.groups| ensures ValidGroup(forgotten.groups[i]) {
      assert application.groups[i] in application.groups;
      ForgetValidGroup(application.groups[i]);
    }
  }

  lemma ForgetValidGroup(group: GroupState)
    requires ValidGroup(group)
    ensures ValidGroup(ForgetGroup(group))
  {
    var forgotten := ForgetGroup(group);
    assert PaneIds(forgotten.panes) == PaneIds(group.panes);
    forall i | 0 <= i < |group.panes| ensures ValidPane(forgotten.panes[i]) {
      assert group.panes[i] in group.panes;
      assert TabIds(forgotten.panes[i].tabs) == TabIds(group.panes[i].tabs);
    }
  }

  predicate ParentsNamed(application: ApplicationState) {
    && (forall i, p, t | 0 <= i < |application.groups| && 0 <= p < |application.groups[i].panes|
          && 0 <= t < |application.groups[i].panes[p].tabs| ::
          ParentNamed(application.groups[i].panes[p].tabs[t].location))
    && (forall i | 0 <= i < |application.pinnedLocations| :: ParentNamed(application.pinnedLocations[i]))
  }

  predicate ParentNamed(location: ShellLocation) {
    location.navigationParent.Some? ==> location.navigationParent.value.parsingName != []
  }

  /** The object a lookup returns comes from the list, unless it is empty. */
  lemma {:induction false} PreservedFrom(values: seq<Json>, name: string, text: string)
    ensures var found := PreservedBy(values, name, text);
      found == map[] || exists i :: 0 <= i < |values| && values[i] == Object(found)
  {
    if values != [] && !(values[0].Object? && StringField(values[0].fields, name) == Some(text)) {
      PreservedFrom(values[1..], name, text);
      var found := PreservedBy(values, name, text);
      if found != map[] {
        var i :| 0 <= i < |values[1..]| && values[1..][i] == Object(found);
        assert values[i + 1] == Object(found);
      }
    } else if values != [] {
      assert values[0] == Object(values[0].fields);
    }
  }

  /** The location fields of a tab object that decodes never hold a parent that is not an object. */
  predicate DecodableTabFields(base: Fields) {
    base == map[] || DecodeTabFields(base).Some?
  }

  lemma DecodableTabKeeps(base: Fields, tab: TabState)
    requires DecodableTabFields(base) && ParentNamed(tab.location)
    ensures LocationKept(ObjectField(base, "shell_location"), tab.location)
  {
  }

  lemma PreservedTabDecodable(values: seq<Json>, id: string)
    requires MapAll(DecodeTab, values).Some?
    ensures DecodableTabFields(PreservedBy(values, "id", id))
  {
    PreservedFrom(values, "id", id);
    var found := PreservedBy(values, "id", id);
    if found != map[] {
      var i :| 0 <= i < |values| && values[i] == Object(found);
      assert DecodeTab(values[i]).Some?;
    }
  }

  lemma {:induction false} AnyPreservedTabDecodable(panes: seq<Json>, id: string)
    requires forall i | 0 <= i < |panes| :: DecodePane(panes[i]).Some?
    ensures DecodableTabFields(PreservedTab(panes, id))
  {
    if panes != [] {
      assert DecodePane(panes[0]).Some?;
      PreservedTabDecodable(ArrayField(panes[0].fields, "tabs"), id);
      forall i | 0 <= i < |panes[1..]| ensures DecodePane(panes[1..][i]).Some? {
        assert panes[1..][i] == panes[i + 1];
      }
      AnyPreservedTabDecodable(panes[1..], id);
    }
  }

  lemma DecodablePaneKeeps(oldPanes: seq<Json>, pane: PaneState)
    requires forall i | 0 <= i < |oldPanes| :: DecodePane(oldPanes[i]).Some?
    requires forall t | 0 <= t < |pane.tabs| :: ParentNamed(pane.tabs[t].location)
    ensures PaneKept(oldPanes, pane)
  {
    PreservedFrom(oldPanes, "id", pane.id);
    var base := PreservedBy(oldPanes, "id", pane.id);
    var oldTabs := ArrayField(base, "tabs");
    assert MapAll(DecodeTab, oldTabs).Some? by {
      if base != map[] {
        var i :| 0 <= i < |oldPanes| && oldPanes[i] == Object(base);
        assert DecodePane(oldPanes[i]).Some?;
      }
    }
    forall t | 0 <= t < |pane.tabs| ensures TabKept(oldTabs, oldPanes, pane.tabs[t]) {
      PreservedTabDecodable(oldTabs, pane.tabs[t].id);
      AnyPreservedTabDecodable(oldPanes, pane.tabs[t].id);
      DecodableTabKeeps(TabBase(oldTabs, oldPanes, pane.tabs[t].id), pane.tabs[t]);
    }
  }

  lemma DecodableGroupKeeps(oldGroups: seq<Json>, group: GroupState)
    requires forall i | 0 <= i < |oldGroups| :: DecodeGroup(oldGroups[i]).Some?
    requires forall p, t | 0 <= p < |group.panes| && 0 <= t < |group.panes[p].tabs| ::
      ParentNamed(group.panes[p].tabs[t].location)
    ensures GroupKept(oldGroups, group)
  {
    PreservedFrom(oldGroups, "id", group.id);
    var base := PreservedBy(oldGroups, "id", group.id);
    var oldPanes := ArrayField(base, "panes");
    assert MapAll(DecodePane, oldPanes).Some? by {
      if base != map[] {
        var i :| 0 <= i < |oldGroups| && oldGroups[i] == Object(base);
        assert DecodeGroup(oldGroups[i]).Some?;
      }
    }
    forall p | 0 <= p < |group.panes| ensures PaneKept(oldPanes, group.panes[p]) {
      DecodablePaneKeeps(oldPanes, group.panes[p]);
    }
  }

  lemma DecodablePinnedKeeps(oldPinned: seq<Json>, location: ShellLocation)
    requires MapAll(DecodePinned, oldPinned).Some? && ParentNamed(location)
    ensures PinnedKept(oldPinned, location)
  {
    var name := Utf8(location.parsingName);
    PreservedFrom(oldPinned, "parsing_name", name);
    var base := PreservedBy(oldPinned, "parsing_name", name);
    if base != map[] {
      var i :| 0 <= i < |oldPinned| && oldPinned[i] == Object(base);
      assert DecodePinned(oldPinned[i]).Some?;
    }
  }

  /** With a previous root that is empty or itself decodes, every valid state is storable. */
  lemma StorableOverOwnRoot(application: ApplicationState, root: Json)
    requires ValidApplication(application) && AllPinned(application.pinnedLocations) && ParentsNamed(application)
    requires RootFields(root) == map[] || Decode(root).Some?
    ensures Storable(application, root)
  {
    ForgetValid(application);
    var oldGroups := ArrayField(RootFields(root), "groups");
    var oldPinned := ArrayField(RootFields(root), "pinned_locations");
    assert MapAll(DecodeGroup, oldGroups).Some?;
    assert MapAll(DecodePinned, oldPinned).Some?;
    forall i | 0 <= i < |application.groups| ensures GroupKept(oldGroups, application.groups[i]) {
      DecodableGroupKeeps(oldGroups, application.groups[i]);
    }
    forall i | 0 <= i < |application.pinnedLocations|
      ensures PinnedKept(oldPinned, application.pinnedLocations[i])
    {
      DecodablePinnedKeeps(oldPinned, application.pinnedLocations[i]);
    }
  }
}
