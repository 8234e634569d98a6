/** What encode() keeps of the previous write: its own output is a fixed point, and members it
    does not know survive. */
module SessionPreservation {
  import opened Options
  import opened JsonTree
  import opened Model
  import opened Wtf8
  import opened SessionCodec
  import opened SessionRoundTrip

  // ----- Finding an element again

  predicate Named(value: Json, name: string, text: string) {
    value.Object? && StringField(value.fields, name) == Some(text)
  }

  predicate FirstNamed(values: seq<Json>, name: string, text: string, i: nat) {
    && i < |values| && Named(values[i], name, text)
    && forall j | 0 <= j < i :: !Named(values[j], name, text)
  }

  lemma {:induction false} FindFirst(values: seq<Json>, name: string, text: string, i: nat)
    requires FirstNamed(values, name, text, i)
    ensures PreservedBy(values, name, text) == values[i].fields
  {
    if i > 0 {
      FindFirst(values[1..], name, text, i - 1);
    }
  }

  lemma {:induction false} FindNone(values: seq<Json>, name: string, text: string)
    requires forall j | 0 <= j < |values| :: !Named(values[j], name, text)
    ensures PreservedBy(values, name, text) == map[]
  {
    if values != [] {
      FindNone(values[1..], name, text);
    }
  }

  // ----- Own output is a fixed point

  lemma ParentAgain(former: Fields, parent: Option<LocationParent>)
    ensures EncodeParent(EncodeParent(former, parent), parent) == EncodeParent(former, parent)
  {
  }

  lemma LocationAgain(former: Fields, location: ShellLocation)
    ensures EncodeLocation(EncodeLocation(former, location), location) == EncodeLocation(former, location)
  {
    var once := EncodeLocation(former, location);
    var identity := EncodeIdentity(former, location.parsingName, location.knownFolderIdentity,
                                   location.fallbackPath, location.namespaceLocation);
    ParentAgain(ObjectField(identity, "navigation_parent"), location.navigationParent);
    IdentityTwice(former, once, location);
  }

  lemma IdentityOverItself(once: Fields, location: ShellLocation)
    requires "parsing_name" in once && once["parsing_name"] == String(Utf8(location.parsingName))
    requires "known_folder_identity" in once
    requires once["known_folder_identity"] == String(Utf8(location.knownFolderIdentity))
    requires "fallback_path" in once && once["fallback_path"] == String(Utf8(location.fallbackPath))
    requires "namespace_location" in once && once["namespace_location"] == Bool(location.namespaceLocation)
    ensures EncodeIdentity(once, location.parsingName, location.knownFolderIdentity,
                           location.fallbackPath, location.namespaceLocation) == once
  {
  }

  lemma IdentityStored(former: Fields, location: ShellLocation)
    ensures var identity := EncodeIdentity(former, location.parsingName, location.knownFolderIdentity,
                                           location.fallbackPath, location.namespaceLocation);
      && identity["parsing_name"] == String(Utf8(location.parsingName))
      && identity["known_folder_identity"] == String(Utf8(location.knownFolderIdentity))
      && identity["fallback_path"] == String(Utf8(location.fallbackPath))
      && identity["namespace_location"] == Bool(location.namespaceLocation)
  {
  }

  lemma OnlyParentDiffers(former: Fields, location: ShellLocation)
    ensures var identity := EncodeIdentity(former, location.parsingName, location.knownFolderIdentity,
                                           location.fallbackPath, location.namespaceLocation);
      var once := EncodeLocation(former, location);
      forall name | name != "navigation_parent" ::
        (name in once <==> name in identity) && (name in once ==> once[name] == identity[name])
  {
  }

  /** Writing the identity fields over a location that already has them changes nothing. */
  lemma IdentityTwice(former: Fields, once: Fields, location: ShellLocation)
    requires once == EncodeLocation(former, location)
    ensures EncodeIdentity(once, location.parsingName, location.knownFolderIdentity,
                           location.fallbackPath, location.namespaceLocation) == once
  {
    IdentityStored(former, location);
    OnlyParentDiffers(former, location);
    IdentityOverItself(once, location);
  }

  lemma TabAgain(base: Fields, tab: TabState)
    ensures EncodeTabOver(EncodeTabOver(base, tab).fields, tab) == EncodeTabOver(base, tab)
  {
    TabMembers(base, tab);
    var once := EncodeTabOver(base, tab).fields;
    LocationAgain(ObjectField(base, "shell_location"), tab.location);
    assert ObjectField(once, "shell_location") == EncodeLocation(ObjectField(base, "shell_location"), tab.location);
    assert EncodeTabOver(once, tab).fields == once;
  }

  lemma FindTab(oldTabs: seq<Json>, oldPanes: seq<Json>, tabs: seq<TabState>, i: nat)
    requires i < |tabs| && UniqueIds(TabIds(tabs))
    ensures PreservedBy(EncodeTabs(oldTabs, oldPanes, tabs), "id", tabs[i].id)
         == EncodeTab(oldTabs, oldPanes, tabs[i]).fields
  {
    var encoded := EncodeTabs(oldTabs, oldPanes, tabs);
    forall j | 0 <= j < |tabs| ensures Named(encoded[j], "id", tabs[i].id) <==> i == j {
      TabMembers(TabBase(oldTabs, oldPanes, tabs[j].id), tabs[j]);
      assert TabIds(tabs)[j] == tabs[j].id && TabIds(tabs)[i] == tabs[i].id;
    }
    FindFirst(encoded, "id", tabs[i].id, i);
  }

  lemma TabsAgain(oldTabs: seq<Json>, oldPanes: seq<Json>, newPanes: seq<Json>, tabs: seq<TabState>)
    requires UniqueIds(TabIds(tabs))
    ensures var once := EncodeTabs(oldTabs, oldPanes, tabs); EncodeTabs(once, newPanes, tabs) == once
  {
    var once := EncodeTabs(oldTabs, oldPanes, tabs);
    forall i | 0 <= i < |tabs| ensures EncodeTab(once, newPanes, tabs[i]) == once[i] {
      FindTab(oldTabs, oldPanes, tabs, i);
      var base := TabBase(oldTabs, oldPanes, tabs[i].id);
      TabMembers(base, tabs[i]);
      TabAgain(base, tabs[i]);
    }
  }

  lemma FindPane(oldPanes: seq<Json>, panes: seq<PaneState>, i: nat)
    requires i < |panes| && UniqueIds(PaneIds(panes))
    ensures PreservedBy(EncodePanes(oldPanes, panes), "id", panes[i].id) == EncodePane(oldPanes, panes[i]).fields
  {
    var encoded := EncodePanes(oldPanes, panes);
    forall j | 0 <= j < |panes| ensures Named(encoded[j], "id", panes[i].id) <==> i == j {
      PaneMembers(oldPanes, panes[j]);
      assert PaneIds(panes)[j] == panes[j].id && PaneIds(panes)[i] == panes[i].id;
    }
    FindFirst(encoded, "id", panes[i].id, i);
  }

  lemma PanesAgain(oldPanes: seq<Json>, panes: seq<PaneState>)
    requires UniqueIds(PaneIds(panes))
    requires forall i | 0 <= i < |panes| :: UniqueIds(TabIds(panes[i].tabs))
    ensures var once := EncodePanes(oldPanes, panes); EncodePanes(once, panes) == once
  {
    var once := EncodePanes(oldPanes, panes);
    forall i | 0 <= i < |panes| ensures EncodePane(once, panes[i]) == once[i] {
      FindPane(oldPanes, panes, i);
      PaneMembers(oldPanes, panes[i]);
      var oldTabs := ArrayField(PreservedBy(oldPanes, "id", panes[i].id), "tabs");
      TabsAgain(oldTabs, oldPanes, once, panes[i].tabs);
      assert EncodePane(once, panes[i]).fields == once[i].fields;
    }
  }

  lemma FindGroup(oldGroups: seq<Json>, groups: seq<GroupState>, i: nat)
    requires i < |groups| && UniqueIds(GroupIds(groups))
    ensures PreservedBy(EncodeGroups(oldGroups, groups), "id", groups[i].id) == EncodeGroup(oldGroups, groups[i]).fields
  {
    var encoded := EncodeGroups(oldGroups, groups);
    forall j | 0 <= j < |groups| ensures Named(encoded[j], "id", groups[i].id) <==> i == j {
      GroupMembers(oldGroups, groups[j]);
      assert GroupIds(groups)[j] == groups[j].id && GroupIds(groups)[i] == groups[i].id;
    }
    FindFirst(encoded, "id", groups[i].id, i);
  }

  lemma GroupAgain(oldGroups: seq<Json>, newGroups: seq<Json>, group: GroupState)
    requires ValidGroup(group)
    requires PreservedBy(newGroups, "id", group.id) == EncodeGroup(oldGroups, group).fields
    ensures EncodeGroup(newGroups, group) == EncodeGroup(oldGroups, group)
  {
    var once := EncodeGroup(oldGroups, group).fields;
    var oldPanes := ArrayField(PreservedBy(oldGroups, "id", group.id), "panes");
    GroupMembers(oldGroups, group);
    forall i | 0 <= i < |group.panes| ensures UniqueIds(TabIds(group.panes[i].tabs)) {
      assert group.panes[i] in group.panes;
    }
    PanesAgain(oldPanes, group.panes);
    GroupOverItself(once, group, newGroups);
  }

  /** Writing a group's members over an object that already has them changes nothing. */
  lemma GroupOverItself(once: Fields, group: GroupState, newGroups: seq<Json>)
    requires PreservedBy(newGroups, "id", group.id) == once
    requires "id" in once && once["id"] == String(group.id)
    requires "name" in once && once["name"] == String(Utf8(group.name))
    requires "layout_template" in once && once["layout_template"] == String(TemplateName(group.layoutTemplate))
    requires "divider_ratios" in once && once["divider_ratios"] == Array(EncodeRatios(group.dividerRatios))
    requires "panes" in once && once["panes"] == Array(EncodePanes(ArrayField(once, "panes"), group.panes))
    requires "active_pane_id" in once && once["active_pane_id"] == String(group.activePaneId)
    ensures EncodeGroup(newGroups, group) == Object(once)
  {
  }

  lemma GroupsAgain(oldGroups: seq<Json>, groups: seq<GroupState>)
    requires UniqueIds(GroupIds(groups)) && forall group | group in groups :: ValidGroup(group)
    ensures var once := EncodeGroups(oldGroups, groups); EncodeGroups(once, groups) == once
  {
    var once := EncodeGroups(oldGroups, groups);
    forall i | 0 <= i < |groups| ensures EncodeGroup(once, groups[i]) == once[i] {
      assert groups[i] in groups;
      FindGroup(oldGroups, groups, i);
      GroupAgain(oldGroups, once, groups[i]);
    }
  }

  lemma PinnedAgain(oldPinned: seq<Json>, pinned: seq<ShellLocation>)
    requires AllPinned(pinned)
    ensures var once := EncodePinnedLocations(oldPinned, pinned); EncodePinnedLocations(once, pinned) == once
  {
    var once := EncodePinnedLocations(oldPinned, pinned);
    forall i | 0 <= i < |pinned| ensures EncodePinned(once, pinned[i]) == once[i] {
      var text := Utf8(pinned[i].parsingName);
      var former := PreservedBy(oldPinned, "parsing_name", text);
      forall j | 0 <= j <= i ensures Named(once[j], "parsing_name", text) <==> i == j {
        PinnedNamed(oldPinned, pinned[j]);
        if j < i {
          assert CanPinLocation(pinned[..i], pinned[i]);
          assert pinned[..i][j] in pinned[..i];
          if Utf8(pinned[j].parsingName) == text {
            Utf8Injective(pinned[j].parsingName, pinned[i].parsingName);
          }
        }
      }
      FindFirst(once, "parsing_name", text, i);
      LocationAgain(former, pinned[i]);
    }
  }

  lemma PinnedNamed(oldPinned: seq<Json>, location: ShellLocation)
    ensures Named(EncodePinned(oldPinned, location), "parsing_name", Utf8(location.parsingName))
  {
  }

  /** Re-encoding with one's own output as the previous root gives the identical tree. */
  lemma EncodeAgain(application: ApplicationState, root: Json, cleanShutdown: bool)
    requires ValidApplication(application) && AllPinned(application.pinnedLocations)
    ensures var once := Encode(application, root, cleanShutdown);
      Encode(application, once, cleanShutdown) == once
  {
    var once := Encode(application, root, cleanShutdown).fields;
    RootMembers(application, root, cleanShutdown);
    GroupsAgain(ArrayField(RootFields(root), "groups"), application.groups);
    PinnedAgain(ArrayField(RootFields(root), "pinned_locations"), application.pinnedLocations);
    PlacementAgain(ObjectField(RootFields(root), "window_placement"), application.windowPlacement);
    RootOverItself(once, application, cleanShutdown);
  }

  lemma PlacementAgain(former: Fields, placement: WindowPlacement)
    ensures EncodePlacement(EncodePlacement(former, placement), placement) == EncodePlacement(former, placement)
  {
  }

  lemma RootOverItself(once: Fields, application: ApplicationState, cleanShutdown: bool)
    requires "schema_version" in once && once["schema_version"] == Integer(SCHEMA_VERSION)
    requires "active_group_id" in once && once["active_group_id"] == String(application.activeGroupId)
    requires "groups" in once && once["groups"] == Array(EncodeGroups(ArrayField(once, "groups"), application.groups))
    requires "pinned_locations" in once
    requires once["pinned_locations"]
          == Array(EncodePinnedLocations(ArrayField(once, "pinned_locations"), application.pinnedLocations))
    requires "clean_shutdown" in once && once["clean_shutdown"] == Bool(cleanShutdown)
    requires "window_placement" in once
    requires once["window_placement"]
          == Object(EncodePlacement(ObjectField(once, "window_placement"), application.windowPlacement))
    requires "sidebar_width" in once && once["sidebar_width"] == Integer(application.sidebarWidth)
    requires "list_font_points" in once && once["list_font_points"] == Integer(application.listFontPoints)
    ensures Encode(application, Object(once), cleanShutdown) == Object(once)
  {
  }

  // ----- Members this build does not know

  const ROOT_NAMES := {"schema_version", "active_group_id", "groups", "pinned_locations", "clean_shutdown",
                       "window_placement", "sidebar_width", "list_font_points"}
  const GROUP_NAMES := {"id", "name", "layout_template", "divider_ratios", "panes", "active_pane_id"}
  const PANE_NAMES := {"id", "active_tab_id", "tabs"}
  const TAB_NAMES := {"id", "shell_location", "view_mode", "sort_column", "sort_ascending", "columns"}
  const IDENTITY_NAMES := {"parsing_name", "known_folder_identity", "fallback_path", "namespace_location"}
  const PLACEMENT_NAMES := {"x", "y", "width", "height", "maximized"}

  /** Outside the known names the two objects agree: nothing is lost and nothing is made up. */
  predicate SameOutside(known: set<string>, former: Fields, written: Fields) {
    && (forall name | name in former && name !in known :: name in written && written[name] == former[name])
    && (forall name | name in written && name !in known :: name in former)
  }

  /** The same for a location and the parent in it. */
  predicate LocationKept(former: Fields, written: Fields) {
    && SameOutside(IDENTITY_NAMES + {"navigation_parent"}, former, written)
    && SameOutside(IDENTITY_NAMES, ObjectField(former, "navigation_parent"), ObjectField(written, "navigation_parent"))
  }

  predicate TabKept(former: Fields, written: Fields) {
    && SameOutside(TAB_NAMES, former, written)
    && LocationKept(ObjectField(former, "shell_location"), ObjectField(written, "shell_location"))
  }

  lemma LocationUnknown(former: Fields, location: ShellLocation)
    ensures LocationKept(former, EncodeLocation(former, location))
  {
    var identity := EncodeIdentity(former, location.parsingName, location.knownFolderIdentity,
                                   location.fallbackPath, location.namespaceLocation);
    var oldParent := ObjectField(former, "navigation_parent");
    assert ObjectField(identity, "navigation_parent") == oldParent;
    ParentUnknown(oldParent, location.navigationParent);
    OnlyParentDiffers(former, location);
  }

  lemma ParentUnknown(former: Fields, parent: Option<LocationParent>)
    ensures SameOutside(IDENTITY_NAMES, former, EncodeParent(former, parent))
  {
  }

  lemma TabUnknown(base: Fields, tab: TabState)
    ensures TabKept(base, EncodeTabOver(base, tab).fields)
  {
    hide EncodeLocation, LocationKept;
    LocationUnknown(ObjectField(base, "shell_location"), tab.location);
    TabMembers(base, tab);
  }

  /** The root and its window placement. */
  lemma RootUnknown(application: ApplicationState, root: Json, cleanShutdown: bool)
    ensures var written := Encode(application, root, cleanShutdown).fields;
      && SameOutside(ROOT_NAMES, RootFields(root), written)
      && SameOutside(PLACEMENT_NAMES, ObjectField(RootFields(root), "window_placement"),
                     ObjectField(written, "window_placement"))
  {
    hide EncodeGroups, EncodePinnedLocations;
  }

  // ----- Lookups from the written root back to the previous one

  /** The object at index `i` of the array stored under `name`. */
  function ElementAt(fields: Fields, name: string, i: nat): Fields {
    var elements := ArrayField(fields, name);
    if i < |elements| && elements[i].Object? then elements[i].fields else map[]
  }

  function WrittenGroup(written: Json, g: nat): Fields {
    ElementAt(RootFields(written), "groups", g)
  }

  function WrittenPane(written: Json, g: nat, p: nat): Fields {
    ElementAt(WrittenGroup(written, g), "panes", p)
  }

  function WrittenTab(written: Json, g: nat, p: nat, t: nat): Fields {
    ElementAt(WrittenPane(written, g, p), "tabs", t)
  }

  function OldGroups(root: Json): seq<Json> { ArrayField(RootFields(root), "groups") }

  /** The previous panes of a group, from whichever object it has in the previous root. */
  function OldPanes(root: Json, group: GroupState): seq<Json> {
    ArrayField(PreservedBy(OldGroups(root), "id", group.id), "panes")
  }

  lemma WrittenGroupIs(application: ApplicationState, root: Json, cleanShutdown: bool, g: nat)
    requires g < |application.groups|
    ensures WrittenGroup(Encode(application, root, cleanShutdown), g)
         == EncodeGroup(OldGroups(root), application.groups[g]).fields
  {
    RootMembers(application, root, cleanShutdown);
  }

  lemma WrittenPaneIs(application: ApplicationState, root: Json, cleanShutdown: bool, g: nat, p: nat)
    requires g < |application.groups| && p < |application.groups[g].panes|
    ensures var group := application.groups[g];
      WrittenPane(Encode(application, root, cleanShutdown), g, p)
      == EncodePane(OldPanes(root, group), group.panes[p]).fields
  {
    WrittenGroupIs(application, root, cleanShutdown, g);
    GroupMembers(OldGroups(root), application.groups[g]);
  }

  lemma WrittenTabIs(application: ApplicationState, root: Json, cleanShutdown: bool, g: nat, p: nat, t: nat)
    requires g < |application.groups| && p < |application.groups[g].panes|
    requires t < |application.groups[g].panes[p].tabs|
    ensures var group := application.groups[g];
      var oldPanes := OldPanes(root, group);
      var oldTabs := ArrayField(PreservedBy(oldPanes, "id", group.panes[p].id), "tabs");
      WrittenTab(Encode(application, root, cleanShutdown), g, p, t)
      == EncodeTab(oldTabs, oldPanes, group.panes[p].tabs[t]).fields
  {
    var group := application.groups[g];
    WrittenPaneIs(application, root, cleanShutdown, g, p);
    PaneMembers(OldPanes(root, group), group.panes[p]);
  }

  /** Unknown members of a group stay in the group with its id. */
  lemma GroupUnknown(application: ApplicationState, root: Json, cleanShutdown: bool, g: nat, oldG: nat)
    requires g < |application.groups| && FirstNamed(OldGroups(root), "id", application.groups[g].id, oldG)
    ensures SameOutside(GROUP_NAMES, OldGroups(root)[oldG].fields,
                        WrittenGroup(Encode(application, root, cleanShutdown), g))
  {
    hide Encode, EncodePanes;
    WrittenGroupIs(application, root, cleanShutdown, g);
    FindFirst(OldGroups(root), "id", application.groups[g].id, oldG);
  }

  lemma PaneUnknown(application: ApplicationState, root: Json, cleanShutdown: bool, g: nat, p: nat, oldP: nat)
    requires g < |application.groups| && p < |application.groups[g].panes|
    requires var group := application.groups[g]; FirstNamed(OldPanes(root, group), "id", group.panes[p].id, oldP)
    ensures SameOutside(PANE_NAMES, OldPanes(root, application.groups[g])[oldP].fields,
                        WrittenPane(Encode(application, root, cleanShutdown), g, p))
  {
    hide Encode, EncodeTabs, OldPanes;
    var group := application.groups[g];
    WrittenPaneIs(application, root, cleanShutdown, g, p);
    FindFirst(OldPanes(root, group), "id", group.panes[p].id, oldP);
  }

  /** Unknown members of a pinned location stay with the name it is pinned under. */
  lemma PinnedUnknown(application: ApplicationState, root: Json, cleanShutdown: bool, i: nat, oldI: nat)
    requires i < |application.pinnedLocations|
    requires FirstNamed(ArrayField(RootFields(root), "pinned_locations"), "parsing_name",
                        Utf8(application.pinnedLocations[i].parsingName), oldI)
    ensures LocationKept(ArrayField(RootFields(root), "pinned_locations")[oldI].fields,
                         ElementAt(Encode(application, root, cleanShutdown).fields, "pinned_locations", i))
  {
    var oldPinned, location := ArrayField(RootFields(root), "pinned_locations"), application.pinnedLocations[i];
    RootMembers(application, root, cleanShutdown);
    hide Encode, EncodeLocation, LocationKept;
    FindFirst(oldPinned, "parsing_name", Utf8(location.parsingName), oldI);
    LocationUnknown(oldPinned[oldI].fields, location);
  }

  // ----- The previous object of a tab

  /** The tabs of pane `p` in a list of pane objects. */
  function TabsOf(panes: seq<Json>, p: nat): seq<Json>
    requires p < |panes|
  {
    if panes[p].Object? then ArrayField(panes[p].fields, "tabs") else []
  }

  predicate NoneNamed(values: seq<Json>, name: string, text: string) {
    forall i | 0 <= i < |values| :: !Named(values[i], name, text)
  }

  /** The previous object of a tab that is now in the pane `paneId` is object `t` of pane `p`: the first with
      its id in the pane of that name, or, when none is there, the first in all panes. */
  predicate PreviousTab(panes: seq<Json>, paneId: string, id: string, p: nat, t: nat) {
    && p < |panes| && FirstNamed(TabsOf(panes, p), "id", id, t)
    && (FirstNamed(panes, "id", paneId, p)
        || (&& (forall q | 0 <= q < |panes| && FirstNamed(panes, "id", paneId, q) ::
                  NoneNamed(TabsOf(panes, q), "id", id))
            && (forall q | 0 <= q < p :: NoneNamed(TabsOf(panes, q), "id", id))))
  }

  lemma {:induction false} FindMovedTab(panes: seq<Json>, p: nat, t: nat, id: string)
    requires p < |panes| && FirstNamed(TabsOf(panes, p), "id", id, t)
    requires forall q | 0 <= q < p :: NoneNamed(TabsOf(panes, q), "id", id)
    ensures PreservedTab(panes, id) == TabsOf(panes, p)[t].fields
  {
    if p == 0 {
      FindFirst(TabsOf(panes, 0), "id", id, t);
    } else {
      FindNone(TabsOf(panes, 0), "id", id);
      assert forall q | 0 <= q < |panes| - 1 :: TabsOf(panes[1..], q) == TabsOf(panes, q + 1);
      FindMovedTab(panes[1..], p - 1, t, id);
    }
  }

  /** The tabs of the pane object found under an id, if there is one. */
  lemma OwnTabs(panes: seq<Json>, paneId: string) returns (q: nat)
    ensures q <= |panes| && (q < |panes| ==> FirstNamed(panes, "id", paneId, q))
    ensures q == |panes| ==> forall p | 0 <= p < |panes| :: !FirstNamed(panes, "id", paneId, p)
    ensures ArrayField(PreservedBy(panes, "id", paneId), "tabs") == if q < |panes| then TabsOf(panes, q) else []
  {
    q := 0;
    while q < |panes| && !Named(panes[q], "id", paneId)
      invariant q <= |panes| && forall j | 0 <= j < q :: !Named(panes[j], "id", paneId)
    {
      q := q + 1;
    }
    if q < |panes| {
      FindFirst(panes, "id", paneId, q);
    } else {
      FindNone(panes, "id", paneId);
    }
  }

  /** encode() finds the previous object of a tab, in its own pane or in another. */
  lemma FindTabAnywhere(panes: seq<Json>, paneId: string, p: nat, t: nat, id: string)
    requires PreviousTab(panes, paneId, id, p, t)
    ensures TabBase(ArrayField(PreservedBy(panes, "id", paneId), "tabs"), panes, id) == TabsOf(panes, p)[t].fields
  {
    var q := OwnTabs(panes, paneId);
    if FirstNamed(panes, "id", paneId, p) {
      assert p == q;
      FindFirst(TabsOf(panes, p), "id", id, t);
    } else {
      FindMovedTab(panes, p, t, id);
      FindNone(if q < |panes| then TabsOf(panes, q) else [], "id", id);
    }
  }

  /** Among all panes of the previous write, only tab `t` of pane `p` has this id. */
  predicate OnlyTab(panes: seq<Json>, p: nat, t: nat, id: string) {
    && p < |panes| && t < |TabsOf(panes, p)|
    && Named(TabsOf(panes, p)[t], "id", id)
    && forall q, u | 0 <= q < |panes| && 0 <= u < |TabsOf(panes, q)| && Named(TabsOf(panes, q)[u], "id", id) ::
         q == p && u == t
  }

  /** Where ids are unique, that is the tab's object wherever the tab has been dragged to since. */
  lemma OnlyTabIsPrevious(panes: seq<Json>, p: nat, t: nat, id: string, paneId: string)
    requires OnlyTab(panes, p, t, id)
    ensures PreviousTab(panes, paneId, id, p, t)
  {
    forall q | 0 <= q < |panes| && q != p ensures NoneNamed(TabsOf(panes, q), "id", id) {
    }
  }

  /** Unknown members of a tab, of its location and of its location's parent survive in whichever pane of its
      group the tab now is. */
  lemma TabUnknownSurvives(
    application: ApplicationState, root: Json, cleanShutdown: bool, g: nat, p: nat, t: nat, oldP: nat, oldT: nat)
    requires g < |application.groups| && p < |application.groups[g].panes|
    requires t < |application.groups[g].panes[p].tabs|
    requires var group := application.groups[g];
      PreviousTab(OldPanes(root, group), group.panes[p].id, group.panes[p].tabs[t].id, oldP, oldT)
    ensures TabKept(TabsOf(OldPanes(root, application.groups[g]), oldP)[oldT].fields,
                    WrittenTab(Encode(application, root, cleanShutdown), g, p, t))
  {
    var group := application.groups[g];
    var tab, oldPanes := group.panes[p].tabs[t], OldPanes(root, group);
    WrittenTabIs(application, root, cleanShutdown, g, p, t);
    FindTabAnywhere(oldPanes, group.panes[p].id, oldP, oldT, tab.id);
    hide Encode, OldPanes, TabKept, EncodeTabOver, PreviousTab;
    TabUnknown(TabsOf(oldPanes, oldP)[oldT].fields, tab);
  }
}
