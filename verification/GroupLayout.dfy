/** switch_layout() and set_active_pane(): lines 314-318, 349-411 and 503-509 of src/core/model.cpp. */
module GroupLayout {
  import opened Options
  import opened Model
  import opened PaneTabs
  import opened References
  import opened Vectors

  /** The position of the first pane with this id, or the number of panes. */
  function PaneAt(panes: seq<PaneState>, id: string): (i: nat)
    ensures i <= |panes| && (i < |panes| ==> panes[i].id == id)
    ensures forall j | 0 <= j < i :: panes[j].id != id
  {
    Find(panes, id, (pane: PaneState) => pane.id)
  }

  /** find_active_pane_index(). */
  function ActivePane(group: GroupState): Option<nat> {
    var i := PaneAt(group.panes, group.activePaneId);
    if i < |group.panes| then Some(i) else None
  }

  function SeededPane(id: string, tabId: string, location: ShellLocation): PaneState {
    PaneState(id, [TabState(tabId, location, "", "", true, [], 0, "")], tabId)
  }

  function SeededPanes(ids: seq<string>, tabIds: seq<string>, location: ShellLocation): (panes: seq<PaneState>)
    requires |ids| == |tabIds|
    ensures |panes| == |ids|
    ensures forall i | 0 <= i < |ids| :: panes[i] == SeededPane(ids[i], tabIds[i], location)
  {
    if ids == [] then []
    else [SeededPane(ids[0], tabIds[0], location)] + SeededPanes(ids[1..], tabIds[1..], location)
  }

  function PanesMissing(group: GroupState, layout: LayoutTemplate): nat {
    if PaneCount(layout) > |group.panes| then PaneCount(layout) - |group.panes| else 0
  }

  /** The group switch_layout() builds before it checks it. */
  function Candidate(group: GroupState, layout: LayoutTemplate, location: ShellLocation, paneIds: seq<string>,
                     tabIds: seq<string>): GroupState
    requires group.panes != [] && |paneIds| == |tabIds|
  {
    var panes := group.panes + SeededPanes(paneIds, tabIds, location);
    group.(
      panes := panes,
      dividerRatios := if group.layoutTemplate != layout then DefaultDividerRatios(layout) else group.dividerRatios,
      layoutTemplate := layout,
      activePaneId := if PaneAt(panes, group.activePaneId) >= PaneCount(layout) then panes[0].id
                      else group.activePaneId)
  }

  /** switch_layout(); None is a refusal. */
  function Switched(group: GroupState, layout: LayoutTemplate, location: ShellLocation, paneIds: seq<string>,
                    tabIds: seq<string>): Option<GroupState>
  {
    if !ValidGroup(group) || |paneIds| != PanesMissing(group, layout) || |tabIds| != |paneIds| then None
    else
      var candidate := Candidate(group, layout, location, paneIds, tabIds);
      if ValidGroup(candidate) then Some(candidate) else None
  }

  method FindPane(panes: seq<PaneState>, id: string) returns (i: nat)
    ensures i == PaneAt(panes, id)
  {
    i := 0;
    while i < |panes| && panes[i].id != id
      invariant i <= |panes| && forall j | 0 <= j < i :: panes[j].id != id
    {
      i := i + 1;
    }
  }

  method SwitchLayout(group: Ref<GroupState>, layout: LayoutTemplate, location: ShellLocation,
                      paneIds: seq<string>, tabIds: seq<string>)
    returns (done: bool)
    modifies group
    ensures done == Switched(old(group.value), layout, location, paneIds, tabIds).Some?
    ensures group.value == if done then Switched(old(group.value), layout, location, paneIds, tabIds).value
                           else old(group.value)
  {
    if !ValidGroup(group.value) { return false; }
    var oldCount := |group.value.panes|;
    var newCount := PaneCount(layout);
    var added := if newCount > oldCount then newCount - oldCount else 0;
    if |paneIds| != added || |tabIds| != added { return false; }
    var candidate := Build(group.value, layout, location, paneIds, tabIds);
    if !ValidGroup(candidate) { return false; }
    WriteBack(group, candidate);
    return true;
  }

  /** The copy of the group that switch_layout() changes and then checks. */
  method Build(group: GroupState, layout: LayoutTemplate, location: ShellLocation, paneIds: seq<string>,
               tabIds: seq<string>)
    returns (candidate: GroupState)
    requires group.panes != [] && |paneIds| == |tabIds|
    ensures candidate == Candidate(group, layout, location, paneIds, tabIds)
  {
    candidate := group;
    ghost var seeded := SeededPanes(paneIds, tabIds, location);
    for index := 0 to |paneIds|
      invariant candidate == group.(panes := group.panes + seeded[..index])
    {
      candidate := candidate.(panes := candidate.panes + [SeededPane(paneIds[index], tabIds[index], location)]);
      assert group.panes + seeded[..index] + [seeded[index]] == group.panes + seeded[..index + 1];
    }
    assert seeded[..|paneIds|] == seeded;
    if candidate.layoutTemplate != layout {
      candidate := candidate.(dividerRatios := DefaultDividerRatios(layout));
    }
    candidate := candidate.(layoutTemplate := layout);
    var active := FindPane(candidate.panes, candidate.activePaneId);
    if active >= PaneCount(layout) {
      candidate := candidate.(activePaneId := candidate.panes[0].id);
    }
  }

  /** The checked candidate replaces the group field by field and pane by pane. */
  method WriteBack(group: Ref<GroupState>, candidate: GroupState)
    requires |group.value.panes| <= |candidate.panes|
    requires group.value.id == candidate.id && group.value.name == candidate.name
    modifies group
    ensures group.value == candidate
  {
    group.value := group.value.(layoutTemplate := candidate.layoutTemplate,
                                dividerRatios := candidate.dividerRatios,
                                activePaneId := candidate.activePaneId);
    ghost var before := group.value.panes;
    for index := 0 to |candidate.panes|
      invariant group.value == candidate.(panes := group.value.panes)
      invariant |group.value.panes| == if index < |before| then |before| else index
      invariant group.value.panes[..index] == candidate.panes[..index]
    {
      if index < |group.value.panes| {
        group.value := group.value.(panes := group.value.panes[index := candidate.panes[index]]);
      } else {
        group.value := group.value.(panes := group.value.panes + [candidate.panes[index]]);
      }
      assert group.value.panes[..index + 1] == group.value.panes[..index] + [candidate.panes[index]];
    }
    assert group.value.panes == candidate.panes;
  }

  method SetActivePane(group: Ref<GroupState>, id: string) returns (done: bool)
    modifies group
    ensures done <==> id in PaneIds(old(group.value).panes)
    ensures group.value == if done then old(group.value).(activePaneId := id) else old(group.value)
    ensures done && ValidGroup(old(group.value)) ==> ValidGroup(group.value)
  {
    var i := FindPane(group.value.panes, id);
    PaneFound(group.value.panes, id);
    if i == |group.value.panes| { return false; }
    group.value := group.value.(activePaneId := id);
    return true;
  }

  lemma PaneFound(panes: seq<PaneState>, id: string)
    ensures PaneAt(panes, id) < |panes| <==> id in PaneIds(panes)
  {
    var ids := PaneIds(panes);
    assert forall i | 0 <= i < |ids| :: ids[i] == panes[i].id;
    if PaneAt(panes, id) < |panes| {
      assert ids[PaneAt(panes, id)] == id;
    }
  }

  // ----- What a switch keeps and when it is refused

  /** The new identities are usable: non-empty, distinct and not yet in the group. */
  predicate NewIdentities(group: GroupState, paneIds: seq<string>, tabIds: seq<string>) {
    && UniqueIds(PaneIds(group.panes) + paneIds)
    && (forall id | id in tabIds :: id != "")
  }

  lemma SeededValid(id: string, tabId: string, location: ShellLocation)
    ensures ValidPane(SeededPane(id, tabId, location)) <==> tabId != ""
  {
    GoodIsValid(SeededPane(id, tabId, location));
  }

  lemma SeededAllValid(paneIds: seq<string>, tabIds: seq<string>, location: ShellLocation)
    requires |paneIds| == |tabIds|
    ensures (forall pane | pane in SeededPanes(paneIds, tabIds, location) :: ValidPane(pane))
      <==> forall id | id in tabIds :: id != ""
  {
    hide ValidPane;
    var seeded := SeededPanes(paneIds, tabIds, location);
    forall i | 0 <= i < |seeded| ensures ValidPane(seeded[i]) <==> tabIds[i] != "" {
      SeededValid(paneIds[i], tabIds[i], location);
    }
    assert forall i | 0 <= i < |seeded| :: seeded[i] in seeded && tabIds[i] in tabIds;
  }

  lemma CandidatePanes(group: GroupState, location: ShellLocation, paneIds: seq<string>, tabIds: seq<string>)
    requires |paneIds| == |tabIds| && (forall pane | pane in group.panes :: ValidPane(pane))
    ensures var panes := group.panes + SeededPanes(paneIds, tabIds, location);
      && PaneIds(panes) == PaneIds(group.panes) + paneIds
      && ((forall pane | pane in panes :: ValidPane(pane)) <==> forall id | id in tabIds :: id != "")
  {
    hide ValidPane;
    SeededAllValid(paneIds, tabIds, location);
    var seeded := SeededPanes(paneIds, tabIds, location);
    assert forall pane :: pane in group.panes + seeded <==> pane in group.panes || pane in seeded;
  }

  /** The active pane, or the first one if it is not among the visible, is a pane of the candidate. */
  lemma CandidateActive(group: GroupState, layout: LayoutTemplate, location: ShellLocation, paneIds: seq<string>,
                        tabIds: seq<string>)
    requires ValidGroup(group) && |paneIds| == PanesMissing(group, layout) && |tabIds| == |paneIds|
    ensures var next := Candidate(group, layout, location, paneIds, tabIds);
      && PaneAt(next.panes, next.activePaneId) < PaneCount(layout) <= |next.panes| <= MAX_PANE_COUNT
      && next.activePaneId in PaneIds(next.panes)
  {
    var next := Candidate(group, layout, location, paneIds, tabIds);
    PaneFound(group.panes, group.activePaneId);
    PaneFound(next.panes, next.activePaneId);
    var active := PaneAt(group.panes, group.activePaneId);
    assert next.panes[active].id == group.activePaneId;
  }

  /** A switch of a valid group is refused only for the identities it is given. */
  lemma SwitchedIffNewIdentities(group: GroupState, layout: LayoutTemplate, location: ShellLocation,
                                 paneIds: seq<string>, tabIds: seq<string>)
    requires ValidGroup(group)
    ensures Switched(group, layout, location, paneIds, tabIds).Some?
      <==> |paneIds| == PanesMissing(group, layout) && |tabIds| == |paneIds| && NewIdentities(group, paneIds, tabIds)
  {
    if |paneIds| == PanesMissing(group, layout) && |tabIds| == |paneIds| {
      CandidatePanes(group, location, paneIds, tabIds);
      CandidateActive(group, layout, location, paneIds, tabIds);
    }
  }

  /** Panes are never discarded: a switch only adds to them, and the active pane is visible after it. */
  lemma SwitchedKeepsPanes(group: GroupState, layout: LayoutTemplate, location: ShellLocation,
                           paneIds: seq<string>, tabIds: seq<string>)
    requires Switched(group, layout, location, paneIds, tabIds).Some?
    ensures var next := Switched(group, layout, location, paneIds, tabIds).value;
      && ValidGroup(next) && next.layoutTemplate == layout && next.id == group.id && next.name == group.name
      && group.panes <= next.panes
      && |next.panes| == |group.panes| + PanesMissing(group, layout)
      && ActivePane(next).Some? && ActivePane(next).value < PaneCount(layout)
      && (ActivePane(group).value < PaneCount(layout) ==> next.activePaneId == group.activePaneId)
      && (layout == group.layoutTemplate ==> next.dividerRatios == group.dividerRatios)
  {
    var next := Switched(group, layout, location, paneIds, tabIds).value;
    CandidateActive(group, layout, location, paneIds, tabIds);
    PaneFound(group.panes, group.activePaneId);
    var active := PaneAt(group.panes, group.activePaneId);
    if active < PaneCount(layout) {
      assert next.panes[active].id == group.activePaneId;
    }
  }

  /** There and back again needs no new identities and loses no pane: what was there is there. */
  lemma SwitchedBack(group: GroupState, layout: LayoutTemplate, location: ShellLocation,
                     paneIds: seq<string>, tabIds: seq<string>, elsewhere: ShellLocation)
    requires Switched(group, layout, location, paneIds, tabIds).Some?
    ensures var next := Switched(group, layout, location, paneIds, tabIds).value;
      var back := Switched(next, group.layoutTemplate, elsewhere, [], []);
      && back.Some? && back.value.panes == next.panes && back.value.layoutTemplate == group.layoutTemplate
  {
    var next := Switched(group, layout, location, paneIds, tabIds).value;
    SwitchedIffNewIdentities(next, group.layoutTemplate, elsewhere, [], []);
    assert PaneIds(next.panes) + [] == PaneIds(next.panes);
  }

  /** The ids of the tabs are still distinct across the group exactly when the ids of the tabs in the
      new panes were free in it and distinct; the switch does not look at that. */
  lemma SwitchedIdsDistinct(group: GroupState, layout: LayoutTemplate, location: ShellLocation,
                            paneIds: seq<string>, tabIds: seq<string>)
    requires Switched(group, layout, location, paneIds, tabIds).Some? && DistinctAcross(group.panes)
    ensures DistinctAcross(Switched(group, layout, location, paneIds, tabIds).value.panes)
      <==> && (forall i | 0 <= i < |tabIds| :: IsFree(group.panes, tabIds[i]))
           && (forall i, j | 0 <= i < j < |tabIds| :: tabIds[i] != tabIds[j])
  {
    hide Switched, DistinctAcross, IsFree, HoldsOnly;
    SwitchedSeeds(group, layout, location, paneIds, tabIds);
    NewPanesDistinct(group.panes, Switched(group, layout, location, paneIds, tabIds).value.panes, tabIds);
  }

  lemma SwitchedSeeds(group: GroupState, layout: LayoutTemplate, location: ShellLocation,
                      paneIds: seq<string>, tabIds: seq<string>)
    requires Switched(group, layout, location, paneIds, tabIds).Some?
    ensures var next := Switched(group, layout, location, paneIds, tabIds).value.panes;
      && group.panes <= next && |next| == |group.panes| + |tabIds|
      && forall i | 0 <= i < |tabIds| :: HoldsOnly(next[|group.panes| + i], tabIds[i])
  {
    var n, next := |group.panes|, Switched(group, layout, location, paneIds, tabIds).value.panes;
    SwitchedIffNewIdentities(group, layout, location, paneIds, tabIds);
    hide ValidGroup, HoldsOnly;
    forall i | 0 <= i < |tabIds| ensures HoldsOnly(next[n + i], tabIds[i]) {
      assert next[n + i] == SeededPane(paneIds[i], tabIds[i], location) && tabIds[i] in tabIds;
      SeededHolds(paneIds[i], tabIds[i], location);
    }
  }

  lemma SeededHolds(id: string, tabId: string, location: ShellLocation)
    ensures tabId != "" ==> HoldsOnly(SeededPane(id, tabId, location), tabId)
  {
    OnlyTab(SeededPane(id, tabId, location).tabs, tabId);
  }

  ghost predicate HoldsOnly(pane: PaneState, id: string) {
    DistinctIds(pane.tabs) && forall other :: HasTab(pane.tabs, other) <==> other == id
  }

  lemma NewPanesDistinct(panes: seq<PaneState>, next: seq<PaneState>, tabIds: seq<string>)
    requires DistinctAcross(panes) && panes <= next && |next| == |panes| + |tabIds|
    requires forall i | 0 <= i < |tabIds| :: HoldsOnly(next[|panes| + i], tabIds[i])
    ensures DistinctAcross(next)
      <==> && (forall i | 0 <= i < |tabIds| :: IsFree(panes, tabIds[i]))
           && (forall i, j | 0 <= i < j < |tabIds| :: tabIds[i] != tabIds[j])
  {
    hide HasTab, DistinctIds;
    var n := |panes|;
    assert forall p | 0 <= p < n :: next[p] == panes[p];
    if DistinctAcross(next) {
      forall i, p | 0 <= i < |tabIds| && 0 <= p < n ensures !HasTab(panes[p].tabs, tabIds[i]) {
        assert HoldsOnly(next[n + i], tabIds[i]) && HasTab(next[n + i].tabs, tabIds[i]);
        assert next[p] == panes[p];
      }
      forall i, j | 0 <= i < j < |tabIds| ensures tabIds[i] != tabIds[j] {
        assert HoldsOnly(next[n + i], tabIds[i]) && HasTab(next[n + i].tabs, tabIds[i]);
        assert HoldsOnly(next[n + j], tabIds[j]) && HasTab(next[n + j].tabs, tabIds[j]);
      }
    }
    if (forall i | 0 <= i < |tabIds| :: IsFree(panes, tabIds[i]))
       && (forall i, j | 0 <= i < j < |tabIds| :: tabIds[i] != tabIds[j])
    {
      forall q | n <= q < |next| ensures HoldsOnly(next[q], tabIds[q - n]) {
        assert next[q] == next[n + (q - n)];
      }
    }
  }
}
