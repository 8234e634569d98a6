/** The loops of encode() and decode() in src/core/session.cpp, against `SessionCodec`. */
module SessionCodecLoops {
  import opened Options
  import opened JsonTree
  import opened Model
  import opened Wtf8
  import opened SessionCodec

  // ----- encode

  method EncodeTabsLoop(oldTabs: seq<Json>, oldPanes: seq<Json>, tabs: seq<TabState>) returns (encoded: seq<Json>)
    ensures encoded == EncodeTabs(oldTabs, oldPanes, tabs)
  {
    encoded := [];
    for ti := 0 to |tabs|
      invariant encoded == EncodeTabs(oldTabs, oldPanes, tabs[..ti])
    {
      var tab := tabs[ti];
      var entry := PreservedBy(oldTabs, "id", tab.id);
      if entry == map[] { entry := PreservedTab(oldPanes, tab.id); }
      ghost var base := entry;
      entry := entry["id" := String(tab.id)];
      var location := EncodeLocation(ObjectField(entry, "shell_location"), tab.location);
      entry := entry["shell_location" := Object(location)];
      entry := entry["view_mode" := String(tab.viewMode)];
      entry := entry["sort_column" := String(tab.sortColumn)];
      entry := entry["sort_ascending" := Bool(tab.sortAscending)];
      if tab.columns == "" { entry := entry - {"columns"}; }
      else { entry := entry["columns" := String(tab.columns)]; }
      assert Object(entry) == EncodeTabOver(base, tab);
      encoded := encoded + [Object(entry)];
      assert tabs[..ti + 1] == tabs[..ti] + [tab];
    }
    assert tabs[..|tabs|] == tabs;
  }

  method EncodePanesLoop(oldPanes: seq<Json>, panes: seq<PaneState>) returns (encoded: seq<Json>)
    ensures encoded == EncodePanes(oldPanes, panes)
  {
    encoded := [];
    for pi := 0 to |panes|
      invariant encoded == EncodePanes(oldPanes, panes[..pi])
    {
      var pane := panes[pi];
      var entry := PreservedBy(oldPanes, "id", pane.id);
      entry := entry["id" := String(pane.id)];
      entry := entry["active_tab_id" := String(pane.activeTabId)];
      var tabs := EncodeTabsLoop(ArrayField(entry, "tabs"), oldPanes, pane.tabs);
      entry := entry["tabs" := Array(tabs)];
      encoded := encoded + [Object(entry)];
      assert panes[..pi + 1] == panes[..pi] + [pane];
    }
    assert panes[..|panes|] == panes;
  }

  method EncodeGroupsLoop(oldGroups: seq<Json>, groups: seq<GroupState>) returns (encoded: seq<Json>)
    ensures encoded == EncodeGroups(oldGroups, groups)
  {
    encoded := [];
    for gi := 0 to |groups|
      invariant encoded == EncodeGroups(oldGroups, groups[..gi])
    {
      var group := groups[gi];
      var entry := PreservedBy(oldGroups, "id", group.id);
      entry := entry["id" := String(group.id)];
      entry := entry["name" := String(Utf8(group.name))];
      entry := entry["layout_template" := String(TemplateName(group.layoutTemplate))];
      var ratios: seq<Json> := [];
      for ri := 0 to |group.dividerRatios|
        invariant ratios == EncodeRatios(group.dividerRatios[..ri])
      {
        ratios := ratios + [Number(group.dividerRatios[ri])];
      }
      assert group.dividerRatios[..|group.dividerRatios|] == group.dividerRatios;
      entry := entry["divider_ratios" := Array(ratios)];
      var panes := EncodePanesLoop(ArrayField(entry, "panes"), group.panes);
      entry := entry["panes" := Array(panes)];
      entry := entry["active_pane_id" := String(group.activePaneId)];
      assert Object(entry) == EncodeGroup(oldGroups, group);
      encoded := encoded + [Object(entry)];
      assert groups[..gi + 1] == groups[..gi] + [group];
    }
    assert groups[..|groups|] == groups;
  }

  method EncodePinnedLoop(oldPinned: seq<Json>, locations: seq<ShellLocation>) returns (encoded: seq<Json>)
    ensures encoded == EncodePinnedLocations(oldPinned, locations)
  {
    encoded := [];
    for i := 0 to |locations|
      invariant encoded == EncodePinnedLocations(oldPinned, locations[..i])
    {
      var location := locations[i];
      var entry := PreservedBy(oldPinned, "parsing_name", Utf8(location.parsingName));
      entry := EncodeLocation(entry, location);
      encoded := encoded + [Object(entry)];
      assert locations[..i + 1] == locations[..i] + [location];
    }
    assert locations[..|locations|] == locations;
  }

  method EncodeSession(application: ApplicationState, root: Json, cleanShutdown: bool) returns (encoded: Json)
    ensures encoded == Encode(application, root, cleanShutdown)
  {
    var result: Fields := if root.Object? then root.fields else map[];
    ghost var former := result;
    result := result["schema_version" := Integer(SCHEMA_VERSION)];
    result := result["active_group_id" := String(application.activeGroupId)];
    assert ArrayField(result, "groups") == ArrayField(former, "groups");
    var groups := EncodeGroupsLoop(ArrayField(result, "groups"), application.groups);
    result := result["groups" := Array(groups)];
    assert ArrayField(result, "pinned_locations") == ArrayField(former, "pinned_locations");
    var pinned := EncodePinnedLoop(ArrayField(result, "pinned_locations"), application.pinnedLocations);
    result := result["pinned_locations" := Array(pinned)];
    result := result["clean_shutdown" := Bool(cleanShutdown)];
    assert ObjectField(result, "window_placement") == ObjectField(former, "window_placement");
    var placement := EncodePlacement(ObjectField(result, "window_placement"), application.windowPlacement);
    result := result["window_placement" := Object(placement)];
    result := result["sidebar_width" := Integer(application.sidebarWidth)];
    result := result["list_font_points" := Integer(application.listFontPoints)];
    encoded := Object(result);
  }

  // ----- decode

  /** A list that decodes so far goes on decoding exactly when the next element does. */
  lemma MapAllStep<A, B>(f: A -> Option<B>, values: seq<A>, i: nat, done: seq<B>)
    requires i < |values| && MapAll(f, values[..i]) == Some(done)
    ensures f(values[i]).Some? ==> MapAll(f, values[..i + 1]) == Some(done + [f(values[i]).value])
    ensures f(values[i]).None? ==> MapAll(f, values) == None
  {
    var next := values[..i + 1];
    assert forall j | 0 <= j < i :: values[..i][j] == next[j] == values[j];
    if f(values[i]).Some? {
      forall j | 0 <= j < |next| ensures f(next[j]).Some? {
        if j < i { assert f(values[..i][j]).Some?; }
      }
      assert MapAll(f, next).value == done + [f(values[i]).value];
    }
  }

  method DecodeTabsLoop(values: seq<Json>) returns (result: Option<seq<TabState>>)
    ensures result == MapAll(DecodeTab, values)
  {
    var tabs: seq<TabState> := [];
    for i := 0 to |values|
      invariant MapAll(DecodeTab, values[..i]) == Some(tabs)
    {
      MapAllStep(DecodeTab, values, i, tabs);
      var tab := DecodeTab(values[i]);
      if tab.None? { return None; }
      tabs := tabs + [tab.value];
    }
    assert values[..|values|] == values;
    return Some(tabs);
  }

  method DecodePanesLoop(values: seq<Json>) returns (result: Option<seq<PaneState>>)
    ensures result == MapAll(DecodePane, values)
  {
    var panes: seq<PaneState> := [];
    for i := 0 to |values|
      invariant MapAll(DecodePane, values[..i]) == Some(panes)
    {
      MapAllStep(DecodePane, values, i, panes);
      if !values[i].Object? { return None; }
      var pane := values[i].fields;
      var id, active := StringField(pane, "id"), StringField(pane, "active_tab_id");
      if id.None? || active.None? || "tabs" !in pane || !pane["tabs"].Array? { return None; }
      var tabs := DecodeTabsLoop(pane["tabs"].items);
      if tabs.None? { return None; }
      panes := panes + [PaneState(id.value, tabs.value, active.value)];
    }
    assert values[..|values|] == values;
    return Some(panes);
  }

  method DecodeRatiosLoop(values: seq<Json>) returns (result: Option<seq<Double>>)
    ensures result == MapAll(DecodeRatio, values)
  {
    var ratios: seq<Double> := [];
    for i := 0 to |values|
      invariant MapAll(DecodeRatio, values[..i]) == Some(ratios)
    {
      MapAllStep(DecodeRatio, values, i, ratios);
      if !values[i].Number? { return None; }
      ratios := ratios + [values[i].lexeme];
    }
    assert values[..|values|] == values;
    return Some(ratios);
  }

  method DecodeGroupLoop(value: Json) returns (result: Option<GroupState>)
    ensures result == DecodeGroup(value)
  {
    if !value.Object? { return None; }
    var fields := value.fields;
    var id, layoutText := StringField(fields, "id"), StringField(fields, "layout_template");
    var name, active := WideField(fields, "name"), StringField(fields, "active_pane_id");
    var layout := match layoutText case Some(text) => TemplateOf(text) case None => None;
    if id.None? || name.None? || layout.None? || active.None? { return None; }
    if "divider_ratios" !in fields || !fields["divider_ratios"].Array? { return None; }
    if "panes" !in fields || !fields["panes"].Array? { return None; }
    var ratios := DecodeRatiosLoop(fields["divider_ratios"].items);
    if ratios.None? { return None; }
    var panes := DecodePanesLoop(fields["panes"].items);
    if panes.None? { return None; }
    return Some(GroupState(id.value, name.value, layout.value, ratios.value, panes.value, active.value));
  }

  method DecodeGroupsLoop(values: seq<Json>) returns (result: Option<seq<GroupState>>)
    ensures result == MapAll(DecodeGroup, values)
  {
    var groups: seq<GroupState> := [];
    for i := 0 to |values|
      invariant MapAll(DecodeGroup, values[..i]) == Some(groups)
    {
      MapAllStep(DecodeGroup, values, i, groups);
      var group := DecodeGroupLoop(values[i]);
      if group.None? { return None; }
      groups := groups + [group.value];
    }
    assert values[..|values|] == values;
    return Some(groups);
  }

  /** The pinned locations are added one by one, and each must be addable. */
  method DecodePinnedLoop(values: seq<Json>) returns (result: Option<seq<ShellLocation>>)
    ensures result == match MapAll(DecodePinned, values)
                      case Some(pinned) => if AllPinned(pinned) then Some(pinned) else None
                      case None => None
  {
    var pinned: seq<ShellLocation> := [];
    for i := 0 to |values|
      invariant MapAll(DecodePinned, values[..i]) == Some(pinned) && AllPinned(pinned)
    {
      MapAllStep(DecodePinned, values, i, pinned);
      var location := DecodePinned(values[i]);
      if location.None? { return None; }
      if !CanPinLocation(pinned, location.value) {
        RepeatedPinned(values, i, pinned, location.value);
        return None;
      }
      ghost var before := pinned;
      pinned := pinned + [location.value];
      assert forall j | 0 <= j <= i :: pinned[..j] == before[..j];
    }
    assert values[..|values|] == values;
    return Some(pinned);
  }

  lemma RepeatedPinned(values: seq<Json>, i: nat, pinned: seq<ShellLocation>, location: ShellLocation)
    requires i < |values| && MapAll(DecodePinned, values[..i]) == Some(pinned)
    requires DecodePinned(values[i]) == Some(location) && !CanPinLocation(pinned, location)
    ensures MapAll(DecodePinned, values).Some? ==> !AllPinned(MapAll(DecodePinned, values).value)
  {
    var all := MapAll(DecodePinned, values);
    if all.Some? {
      assert all.value[..i] == pinned by {
        assert forall j | 0 <= j < i :: values[..i][j] == values[j];
      }
      assert !CanPinLocation(all.value[..i], all.value[i]);
    }
  }

  method DecodeSession(root: Json) returns (result: Option<ApplicationState>)
    ensures result == Decode(root)
  {
    if !root.Object? { return None; }
    var fields := root.fields;
    if IntegerField(fields, "schema_version") != Some(SCHEMA_VERSION) { return None; }
    var active := StringField(fields, "active_group_id");
    var sidebar := DecodeSidebarWidth(fields);
    if active.None? || "groups" !in fields || !fields["groups"].Array? || sidebar.None? { return None; }
    if "pinned_locations" in fields && !fields["pinned_locations"].Array? { return None; }
    var pinned: seq<ShellLocation> := [];
    if "pinned_locations" in fields {
      var decoded := DecodePinnedLoop(fields["pinned_locations"].items);
      if decoded.None? { return None; }
      pinned := decoded.value;
    }
    var placement := DecodePlacement(fields);
    if placement.None? { return None; }
    var groups := DecodeGroupsLoop(fields["groups"].items);
    if groups.None? { return None; }
    var application := ApplicationState(SCHEMA_VERSION, groups.value, active.value, placement.value, sidebar.value,
                                        pinned, DecodeListFontPoints(fields));
    if !ValidApplication(application) { return None; }
    return Some(application);
  }
}
