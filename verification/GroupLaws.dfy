/**
 What an operation on groups, panes and tabs changes, and that it changes nothing else: element by element
 and field by field, beside the invariants that `Groups`, `GroupLayout` and `PaneTabs` keep.
 */
module GroupLaws {
  import opened Options
  import opened Model
  import opened Vectors
  import opened Wtf8
  import opened PaneTabs
  import opened GroupLayout
  import opened Groups
  import RatioText

  /** The elements but the one at `i`, in their order. */
  predicate IsWithout<T(==)>(s: seq<T>, i: nat, rest: seq<T>) {
    && i < |s| && |rest| == |s| - 1
    && forall k | 0 <= k < |rest| :: rest[k] == s[if k < i then k else k + 1]
  }

  // ----- Validity, place by place

  /** A pane has tabs, with names of their own; one of them is active, and each stands where its history says. */
  lemma ValidPaneReads(pane: PaneState)
    ensures ValidPane(pane) <==>
      && |pane.tabs| > 0
      && (forall i | 0 <= i < |pane.tabs| :: pane.tabs[i].id != "")
      && (forall i, j | 0 <= i < j < |pane.tabs| :: pane.tabs[i].id != pane.tabs[j].id)
      && (exists i | 0 <= i < |pane.tabs| :: pane.tabs[i].id == pane.activeTabId)
      && forall i | 0 <= i < |pane.tabs| ::
           var tab := pane.tabs[i];
           |tab.history| > 0 ==> tab.historyIndex < |tab.history| && tab.history[tab.historyIndex] == tab.location
  {
    GoodIsValid(pane);
    NoSuchTab(pane.tabs, pane.activeTabId);
  }

  /** A group has at least the panes its layout shows and at most four, with names of their own; one of them is
      active; and it has a ratio from 0 to 1 for each divider of the layout. */
  lemma ValidGroupReads(group: GroupState)
    ensures ValidGroup(group) <==>
      && group.id != ""
      && (match group.layoutTemplate
          case Single => 1
          case LeftRight | TopBottom => 2
          case ThreePane | TwoOverOne | OneOverTwo | TwoBesideOne => 3
          case FourPaneGrid => 4) <= |group.panes| <= 4
      && |group.dividerRatios| == (match group.layoutTemplate
                                   case Single => 0
                                   case LeftRight | TopBottom => 1
                                   case _ => 2)
      && (forall i | 0 <= i < |group.dividerRatios| :: 0.0 <= RatioText.ValueOf(group.dividerRatios[i]) <= 1.0)
      && (forall i | 0 <= i < |group.panes| :: group.panes[i].id != "")
      && (forall i, j | 0 <= i < j < |group.panes| :: group.panes[i].id != group.panes[j].id)
      && (exists i | 0 <= i < |group.panes| :: group.panes[i].id == group.activePaneId)
      && forall i | 0 <= i < |group.panes| :: ValidPane(group.panes[i])
  {
    hide ValidPane, IsRatio, RatioText.ValueOf;
    var ids := PaneIds(group.panes);
    assert forall i | 0 <= i < |ids| :: ids[i] == group.panes[i].id && ids[i] in ids && group.panes[i] in group.panes;
    forall i | 0 <= i < |group.dividerRatios|
      ensures group.dividerRatios[i] in group.dividerRatios
      ensures IsRatio(group.dividerRatios[i]) <==> 0.0 <= RatioText.ValueOf(group.dividerRatios[i]) <= 1.0
    {
      RatioText.RatioMeans(group.dividerRatios[i]);
    }
  }

  /** A session has valid groups, with names of their own, and an active one if it has any. */
  lemma ValidApplicationReads(a: ApplicationState)
    ensures ValidApplication(a) <==>
      && (forall i | 0 <= i < |a.groups| :: ValidGroup(a.groups[i]))
      && (forall i, j | 0 <= i < j < |a.groups| :: a.groups[i].id != a.groups[j].id)
      && if |a.groups| == 0 then a.activeGroupId == ""
         else exists i | 0 <= i < |a.groups| :: a.groups[i].id == a.activeGroupId
  {
    forall i | 0 <= i < |a.groups| && ValidGroup(a.groups[i]) ensures a.groups[i].id != "" {
      ValidGroupHasId(a.groups[i]);
    }
    hide ValidGroup;
    var ids := GroupIds(a.groups);
    assert forall i | 0 <= i < |ids| :: ids[i] == a.groups[i].id && ids[i] in ids && a.groups[i] in a.groups;
  }

  // ----- Tabs of a pane

  /** A tab is added behind the others; the active one stays, and so does all else of the pane. */
  lemma AddedLast(pane: PaneState, tab: TabState)
    ensures Added(pane, tab).Some? <==> tab.id != "" && forall i | 0 <= i < |pane.tabs| :: pane.tabs[i].id != tab.id
    ensures Added(pane, tab).Some? ==> Added(pane, tab).value == PaneState(pane.id, pane.tabs + [tab], pane.activeTabId)
  {
    if HasTab(pane.tabs, tab.id) {
      assert pane.tabs[TabAt(pane.tabs, tab.id)].id == tab.id;
    }
  }

  /** The tab stands at the target, and the others are in the order they were in. */
  lemma ReorderedOnly(pane: PaneState, id: string, target: nat, i: nat)
    requires ValidPane(pane) && i < |pane.tabs| && pane.tabs[i].id == id
    ensures Reordered(pane, id, target).Some? <==> target < |pane.tabs|
    ensures target < |pane.tabs| ==>
      var next := Reordered(pane, id, target).value;
      && next == pane.(tabs := next.tabs) && |next.tabs| == |pane.tabs| && next.tabs[target] == pane.tabs[i]
      && IsWithout(next.tabs, target, pane.tabs[..i] + pane.tabs[i + 1..])
  {
    PlaceOfTab(pane, id, i);
    if target < |pane.tabs| {
      ReorderedIsWithout(pane.tabs, i, target);
      hide ValidPane, Reorder, IsWithout;
    }
  }

  lemma ReorderedIsWithout<T>(s: seq<T>, i: nat, target: nat)
    requires i < |s| && target < |s|
    ensures |Reorder(s, i, target)| == |s| && Reorder(s, i, target)[target] == s[i]
    ensures IsWithout(Reorder(s, i, target), target, s[..i] + s[i + 1..])
  {
  }

  lemma PlaceOfTab(pane: PaneState, id: string, i: nat)
    requires ValidPane(pane) && i < |pane.tabs| && pane.tabs[i].id == id
    ensures TabAt(pane.tabs, id) == i
  {
    GoodIsValid(pane);
    TabFound(pane.tabs, i);
  }

  /** Closing takes out the one tab. If it was active, the one that took its place is, or the last. The only tab
      stays, goes back to the default location and forgets its history, and keeps its view. */
  lemma ClosedOnly(pane: PaneState, id: string, location: ShellLocation, i: nat)
    requires ValidPane(pane) && i < |pane.tabs| && pane.tabs[i].id == id
    ensures Closed(pane, id, location).Some?
    ensures var next := Closed(pane, id, location).value;
      && next.id == pane.id
      && if |pane.tabs| == 1 then
           && next.activeTabId == id
           && next.tabs == [TabState(id, location, pane.tabs[0].viewMode, pane.tabs[0].sortColumn,
                                     pane.tabs[0].sortAscending, [], 0, pane.tabs[0].columns)]
         else
           && IsWithout(pane.tabs, i, next.tabs)
           && next.activeTabId
              == if pane.activeTabId != id then pane.activeTabId
                 else pane.tabs[if i + 1 < |pane.tabs| then i + 1 else i - 1].id
  {
    PlaceOfTab(pane, id, i);
    if |pane.tabs| == 1 {
      GoodIsValid(pane);
      TabFound(pane.tabs, 0);
    }
  }

  /** A move takes the tab, with all it remembers, out of the one pane and puts it into the other at the index, or
      behind the last, where it is active. A pane that loses its only tab keeps a copy of it at the default location
      under the retained id. */
  lemma MovedOnly(source: PaneState, target: PaneState, id: string, index: nat, location: ShellLocation,
                  retained: string, i: nat)
    requires ValidPane(source) && i < |source.tabs| && source.tabs[i].id == id
    ensures Moved(source, target, id, index, location, retained).Some? <==>
      && (forall k | 0 <= k < |target.tabs| :: target.tabs[k].id != id)
      && (|source.tabs| == 1 ==>
            retained != "" && retained != id && forall k | 0 <= k < |target.tabs| :: target.tabs[k].id != retained)
    ensures Moved(source, target, id, index, location, retained).Some? ==>
      var next := Moved(source, target, id, index, location, retained).value;
      var place := if index < |target.tabs| then index else |target.tabs|;
      && next.source.id == source.id && next.target.id == target.id && next.target.activeTabId == id
      && IsWithout(next.target.tabs, place, target.tabs) && next.target.tabs[place] == source.tabs[i]
      && if |source.tabs| == 1 then
           && next.source.activeTabId == retained
           && next.source.tabs == [TabState(retained, location, source.tabs[0].viewMode, source.tabs[0].sortColumn,
                                            source.tabs[0].sortAscending, [], 0, source.tabs[0].columns)]
         else
           && IsWithout(source.tabs, i, next.source.tabs)
           && next.source.activeTabId
              == if source.activeTabId != id then source.activeTabId
                 else source.tabs[if i + 1 < |source.tabs| then i + 1 else i - 1].id
  {
    PlaceOfTab(source, id, i);
    NoSuchTab(target.tabs, id);
    NoSuchTab(target.tabs, retained);
  }

  lemma NoSuchTab(tabs: seq<TabState>, id: string)
    ensures !HasTab(tabs, id) <==> forall k | 0 <= k < |tabs| :: tabs[k].id != id
  {
    if HasTab(tabs, id) {
      assert tabs[TabAt(tabs, id)].id == id;
    }
  }

  /** What is asked of a tab that is not there is refused. */
  lemma UnknownTabRefused(pane: PaneState, other: PaneState, id: string, index: nat, location: ShellLocation,
                          retained: string)
    requires forall k | 0 <= k < |pane.tabs| :: pane.tabs[k].id != id
    ensures Closed(pane, id, location) == Reordered(pane, id, index) == Activated(pane, id) == None
    ensures Moved(pane, other, id, index, location, retained) == None
  {
    NoSuchTab(pane.tabs, id);
  }

  // ----- Panes of a group

  /** A switch of layout adds panes of one tab each at the location it is given, with the default view. Its ratios
      start from halves if the layout is another one. Of the panes that were there nothing changes, and the active
      one stays active if it is still shown; else the first one is. */
  lemma SwitchedOnly(group: GroupState, layout: LayoutTemplate, location: ShellLocation, paneIds: seq<string>,
                     tabIds: seq<string>, k: nat)
    requires Switched(group, layout, location, paneIds, tabIds).Some?
    ensures var next := Switched(group, layout, location, paneIds, tabIds).value;
      && next.id == group.id && next.name == group.name && next.layoutTemplate == layout
      && group.panes <= next.panes && |next.panes| == |group.panes| + |paneIds| == |group.panes| + |tabIds|
      && (k < |paneIds| ==>
            next.panes[|group.panes| + k]
            == PaneState(paneIds[k], [TabState(tabIds[k], location, "", "", true, [], 0, "")], tabIds[k]))
      && next.dividerRatios == (if layout == group.layoutTemplate then group.dividerRatios
                                else match layout
                                     case Single => []
                                     case LeftRight | TopBottom => ["0.5"]
                                     case _ => ["0.5", "0.5"])
      && (|next.panes| > 0 && next.activePaneId
          == if exists p | 0 <= p < PaneCount(layout) :: p < |group.panes| && group.panes[p].id == group.activePaneId
             then group.activePaneId else next.panes[0].id)
  {
    var next := Switched(group, layout, location, paneIds, tabIds).value;
    SwitchedKeepsPanes(group, layout, location, paneIds, tabIds);
    PaneFound(group.panes, group.activePaneId);
    var active := PaneAt(group.panes, group.activePaneId);
    assert next.panes[active].id == group.activePaneId;
    hide ValidGroup;
    assert forall p | 0 <= p < |group.panes| :: next.panes[p] == group.panes[p];
    if exists p | 0 <= p < PaneCount(layout) :: p < |group.panes| && group.panes[p].id == group.activePaneId {
      var p :| 0 <= p < PaneCount(layout) && p < |group.panes| && group.panes[p].id == group.activePaneId;
      assert active <= p;
    }
  }

  // ----- Groups of the application

  lemma PlaceOfGroup(a: ApplicationState, id: string, i: nat)
    requires ValidApplication(a) && i < |a.groups| && a.groups[i].id == id
    ensures GroupAt(a.groups, id) == i
  {
    GoodIsValidApplication(a);
    GroupFound(a.groups, i);
  }

  /** A valid group with a new id is added behind the others, and is active if none was. */
  lemma GroupAddedLast(a: ApplicationState, group: GroupState)
    requires ValidApplication(a) && GroupAdded(a, group).Some?
    ensures var next := GroupAdded(a, group).value;
      && next == a.(groups := a.groups + [group], activeGroupId := next.activeGroupId)
      && next.activeGroupId == if a.groups == [] then group.id else a.activeGroupId
  {
    GoodIsValidApplication(a);
  }

  lemma GroupRenamedOnly(a: ApplicationState, id: string, name: WString, i: nat)
    requires ValidApplication(a) && i < |a.groups| && a.groups[i].id == id
    ensures GroupRenamed(a, id, name).Some?
    ensures var next := GroupRenamed(a, id, name).value;
      && next == a.(groups := next.groups) && |next.groups| == |a.groups|
      && forall k | 0 <= k < |a.groups| ::
           next.groups[k] == if k == i then a.groups[k].(name := name) else a.groups[k]
  {
    PlaceOfGroup(a, id, i);
  }

  /** A duplicate is a copy behind the others, alike in all but id and name, and not active. */
  lemma GroupDuplicatedLast(a: ApplicationState, id: string, newId: string, name: WString, i: nat)
    requires ValidApplication(a) && i < |a.groups| && a.groups[i].id == id
    ensures GroupDuplicated(a, id, newId, name).Some?
      <==> newId != "" && forall k | 0 <= k < |a.groups| :: a.groups[k].id != newId
    ensures GroupDuplicated(a, id, newId, name).Some? ==>
      var next := GroupDuplicated(a, id, newId, name).value;
      && next == a.(groups := next.groups) && |next.groups| == |a.groups| + 1
      && (forall k | 0 <= k < |a.groups| :: next.groups[k] == a.groups[k])
      && var copy, group := next.groups[|a.groups|], a.groups[i];
      && copy == GroupState(newId, name, group.layoutTemplate, group.dividerRatios, group.panes, group.activePaneId)
  {
    PlaceOfGroup(a, id, i);
    if HasGroup(a.groups, newId) {
      assert a.groups[GroupAt(a.groups, newId)].id == newId;
    }
  }

  /** The one group goes. If it was active, the one that took its place is, or the last, or none if it was alone. */
  lemma GroupDeletedOnly(a: ApplicationState, id: string, i: nat)
    requires ValidApplication(a) && i < |a.groups| && a.groups[i].id == id
    ensures GroupDeleted(a, id).Some?
    ensures var next := GroupDeleted(a, id).value;
      && next == a.(groups := next.groups, activeGroupId := next.activeGroupId)
      && IsWithout(a.groups, i, next.groups)
      && next.activeGroupId
         == if |a.groups| == 1 then ""
            else if a.activeGroupId != id then a.activeGroupId
            else a.groups[if i + 1 < |a.groups| then i + 1 else i - 1].id
  {
    PlaceOfGroup(a, id, i);
  }

  lemma GroupReorderedOnly(a: ApplicationState, id: string, target: nat, i: nat)
    requires ValidApplication(a) && i < |a.groups| && a.groups[i].id == id
    ensures GroupReordered(a, id, target).Some? <==> target < |a.groups|
    ensures target < |a.groups| ==>
      var next := GroupReordered(a, id, target).value;
      && next == a.(groups := next.groups) && |next.groups| == |a.groups| && next.groups[target] == a.groups[i]
      && IsWithout(next.groups, target, a.groups[..i] + a.groups[i + 1..])
  {
    PlaceOfGroup(a, id, i);
    if target < |a.groups| {
      ReorderedIsWithout(a.groups, i, target);
      hide ValidApplication, Reorder, IsWithout;
    }
  }

  lemma PinnedLast(a: ApplicationState, location: ShellLocation)
    ensures LocationPinned(a, location).Some? <==>
      location.parsingName != []
      && forall i | 0 <= i < |a.pinnedLocations| :: a.pinnedLocations[i].parsingName != location.parsingName
    ensures LocationPinned(a, location).Some? ==>
      LocationPinned(a, location).value == a.(pinnedLocations := a.pinnedLocations + [location])
  {
    assert forall i | 0 <= i < |a.pinnedLocations| :: a.pinnedLocations[i] in a.pinnedLocations;
  }

  /** What is asked of a group that is not there is refused. */
  lemma UnknownGroupRefused(a: ApplicationState, id: string, newId: string, name: WString, target: nat)
    requires forall k | 0 <= k < |a.groups| :: a.groups[k].id != id
    ensures GroupRenamed(a, id, name) == GroupDuplicated(a, id, newId, name) == GroupDeleted(a, id) == None
    ensures GroupReordered(a, id, target) == None
  {
  }
}
