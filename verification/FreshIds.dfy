/** Where new identities and names come from: lines 168-228 and 243-252 of src/core/model.cpp, and
    the two callers in src/app_shell/main.cpp that need ids free across a whole group. */
module FreshIds {
  import opened Options
  import opened Decimals
  import JsonGrammar
  import opened Model
  import opened Wtf8
  import opened References
  import opened PaneTabs
  import opened GroupLayout
  import Groups
  import GroupLaws

  // ----- A search through numbered names comes to an end

  ghost predicate Injective<T(!new)>(name: nat -> T) {
    forall a: nat, b: nat | a != b :: name(a) != name(b)
  }

  /** Of more numbers than there are names in use, one gives a name that is not. */
  lemma {:induction false} SomeNumberIsFree<T(!new)>(used: set<T>, name: nat -> T, start: nat) returns (free: nat)
    requires Injective(name)
    ensures start <= free <= start + |used| && name(free) !in used
    decreases |used|
  {
    free := start + |used|;
    if name(free) in used {
      var rest := used - {name(free)};
      assert |rest| == |used| - 1;
      free := SomeNumberIsFree(rest, name, start);
      assert name(free) != name(start + |used|);
    }
  }

  // ----- next_tab_id

  function TabName(n: nat): string { "tab-" + Digits(n) }

  lemma TabNamesDiffer(a: nat, b: nat)
    requires TabName(a) == TabName(b)
    ensures a == b
  {
    assert TabName(a)[4..] == Digits(a) && TabName(b)[4..] == Digits(b);
    DigitsInjective(a, b);
  }

  lemma TabNamesInjective()
    ensures Injective(TabName)
  {
    forall a: nat, b: nat | a != b ensures TabName(a) != TabName(b) {
      if TabName(a) == TabName(b) {
        TabNamesDiffer(a, b);
      }
    }
  }

  predicate IdInUse(panes: seq<PaneState>, id: string) {
    exists p | 0 <= p < |panes| :: HasTab(panes[p].tabs, id)
  }

  ghost function TabIdsInUse(panes: seq<PaneState>): (ids: set<string>)
    ensures forall id :: id in ids <==> IdInUse(panes, id)
  {
    if panes == [] then {}
    else
      var shorter, last := panes[..|panes| - 1], panes[|panes| - 1];
      var ids := TabIdsInUse(shorter) + set i | 0 <= i < |last.tabs| :: last.tabs[i].id;
      assert forall id :: id in ids <==> IdInUse(panes, id) by {
        forall id ensures id in ids <==> IdInUse(panes, id) {
          LastPaneIds(panes, id);
        }
      }
      ids
  }

  lemma LastPaneIds(panes: seq<PaneState>, id: string)
    requires panes != []
    ensures var shorter, last := panes[..|panes| - 1], panes[|panes| - 1];
      IdInUse(panes, id) <==> IdInUse(shorter, id) || id in set i | 0 <= i < |last.tabs| :: last.tabs[i].id
  {
    var shorter, last := panes[..|panes| - 1], panes[|panes| - 1];
    assert forall p | 0 <= p < |shorter| :: shorter[p] == panes[p];
    if HasTab(last.tabs, id) {
      assert last.tabs[TabAt(last.tabs, id)].id == id;
    }
    if IdInUse(shorter, id) {
      var p :| 0 <= p < |shorter| && HasTab(shorter[p].tabs, id);
      assert HasTab(panes[p].tabs, id);
    }
  }

  method TabIdExists(group: GroupState, id: string) returns (found: bool)
    ensures found <==> IdInUse(group.panes, id)
  {
    for p := 0 to |group.panes|
      invariant forall q | 0 <= q < p :: !HasTab(group.panes[q].tabs, id)
    {
      var i := FindTab(group.panes[p].tabs, id);
      if i < |group.panes[p].tabs| { return true; }
    }
    return false;
  }

  /** The first free tab id from the cursor on; the cursor moves past it. */
  method NextTabId(group: GroupState, cursor: nat) returns (id: string, next: nat)
    ensures next > cursor && id == TabName(next - 1) && !IdInUse(group.panes, id)
    ensures forall n | cursor <= n < next - 1 :: IdInUse(group.panes, TabName(n))
  {
    TabNamesInjective();
    ghost var free := SomeNumberIsFree(TabIdsInUse(group.panes), TabName, cursor);
    next := cursor;
    while true
      invariant cursor <= next <= free
      invariant forall n | cursor <= n < next :: IdInUse(group.panes, TabName(n))
      decreases free - next
    {
      id := TabName(next);
      next := next + 1;
      var taken := TabIdExists(group, id);
      if !taken { return; }
    }
  }

  /** Ids for the tabs of new panes, from one cursor: all free in the group, and no two the same. */
  method NewTabIds(group: GroupState, count: nat) returns (ids: seq<string>)
    ensures |ids| == count && (forall i | 0 <= i < count :: ids[i] != "" && IsFree(group.panes, ids[i]))
    ensures forall i, j | 0 <= i < j < count :: ids[i] != ids[j]
  {
    ids := [];
    var cursor := 0;
    ghost var numbers: seq<nat> := [];
    while |ids| < count
      invariant |numbers| == |ids| <= count
      invariant forall i | 0 <= i < |ids| ::
        numbers[i] < cursor && ids[i] == TabName(numbers[i]) && IsFree(group.panes, ids[i])
      invariant forall i, j | 0 <= i < j < |ids| :: numbers[i] != numbers[j]
    {
      var id;
      id, cursor := NextTabId(group, cursor);
      ids, numbers := ids + [id], numbers + [cursor - 1];
    }
    forall i, j | 0 <= i < j < count ensures ids[i] != ids[j] {
      if ids[i] == ids[j] {
        TabNamesDiffer(numbers[i], numbers[j]);
      }
    }
  }

  // ----- Changing the layout of a group, with new identities

  function PaneName(n: nat): string { "pane-" + Digits(n) }

  lemma PaneNamesDiffer(a: nat, b: nat)
    requires PaneName(a) == PaneName(b)
    ensures a == b
  {
    assert PaneName(a)[5..] == Digits(a) && PaneName(b)[5..] == Digits(b);
    DigitsInjective(a, b);
  }

  /** Pane ids as the application gives them: by position. */
  ghost predicate Numbered(panes: seq<PaneState>) {
    forall i | 0 <= i < |panes| :: panes[i].id == PaneName(i)
  }

  /** The names of the panes a layout needs beyond those of the group. */
  function NewPaneNames(group: GroupState, layout: LayoutTemplate): (names: seq<string>)
    ensures |names| == PanesMissing(group, layout)
    ensures forall i | 0 <= i < |names| :: names[i] == PaneName(|group.panes| + i)
  {
    seq(PanesMissing(group, layout), i requires i >= 0 => PaneName(|group.panes| + i))
  }

  /** No pane of the group bears one of those names already. */
  predicate PaneNamesFree(group: GroupState, layout: LayoutTemplate) {
    forall k | |group.panes| <= k < PaneCount(layout) :: PaneName(k) !in PaneIds(group.panes)
  }

  /** Names by position are usable exactly when no pane bears one of them. */
  lemma NamesUsable(group: GroupState, layout: LayoutTemplate, tabIds: seq<string>)
    requires UniqueIds(PaneIds(group.panes)) && forall id | id in tabIds :: id != ""
    ensures NewIdentities(group, NewPaneNames(group, layout), tabIds) <==> PaneNamesFree(group, layout)
  {
    hide PaneName, PaneNamesFree;
    if PaneNamesFree(group, layout) {
      FreeNamesUnique(group, layout);
    } else {
      TakenName(group, layout);
    }
  }

  lemma FreeNamesUnique(group: GroupState, layout: LayoutTemplate)
    requires UniqueIds(PaneIds(group.panes)) && PaneNamesFree(group, layout)
    ensures UniqueIds(PaneIds(group.panes) + NewPaneNames(group, layout))
  {
    var n, taken, names := |group.panes|, PaneIds(group.panes), NewPaneNames(group, layout);
    forall i | 0 <= i < |names| ensures names[i] != "" && names[i] !in taken {
      assert names[i] == PaneName(n + i);
    }
    hide PaneNamesFree, PaneName, NewPaneNames;
    forall i, j | 0 <= i < j < |names| ensures names[i] != names[j] {
      NamesApart(group, layout, n + i, n + j);
    }
    UniqueJoined(taken, names);
  }

  lemma UniqueJoined(a: seq<string>, b: seq<string>)
    requires UniqueIds(a) && UniqueIds(b) && forall i | 0 <= i < |b| :: b[i] !in a
    ensures UniqueIds(a + b)
  {
    var ids := a + b;
    forall i, j | 0 <= i < j < |ids| ensures ids[i] != ids[j] {
      if i < |a| <= j {
        assert ids[i] == a[i] && ids[j] == b[j - |a|];
      }
    }
  }

  lemma TakenName(group: GroupState, layout: LayoutTemplate)
    requires !PaneNamesFree(group, layout)
    ensures !UniqueIds(PaneIds(group.panes) + NewPaneNames(group, layout))
  {
    var n, taken, names := |group.panes|, PaneIds(group.panes), NewPaneNames(group, layout);
    var k :| n <= k < PaneCount(layout) && PaneName(k) in taken;
    var i :| 0 <= i < n && taken[i] == PaneName(k);
    assert (taken + names)[i] == names[k - n] == (taken + names)[k];
  }

  lemma NamesApart(group: GroupState, layout: LayoutTemplate, i: nat, j: nat)
    requires |group.panes| <= i < j < |group.panes| + PanesMissing(group, layout)
    ensures NewPaneNames(group, layout)[i - |group.panes|] != NewPaneNames(group, layout)[j - |group.panes|]
  {
    if PaneName(i) == PaneName(j) {
      PaneNamesDiffer(i, j);
    }
  }

  /** Panes numbered by position leave the names of further panes free. */
  lemma NumberedNamesFree(group: GroupState, layout: LayoutTemplate)
    requires Numbered(group.panes)
    ensures PaneNamesFree(group, layout)
  {
    forall k | |group.panes| <= k < PaneCount(layout) ensures PaneName(k) !in PaneIds(group.panes) {
      if PaneName(k) in PaneIds(group.panes) {
        var i :| 0 <= i < |group.panes| && PaneIds(group.panes)[i] == PaneName(k);
        PaneNamesDiffer(i, k);
      }
    }
  }

  /** A valid group need not be numbered: one whose only pane is called after the second position cannot
      get a second pane this way. */
  lemma MisnumberedRefused(group: GroupState, location: ShellLocation, tabIds: seq<string>)
    requires ValidGroup(group) && group.layoutTemplate == Single
    requires |group.panes| == 1 && group.panes[0].id == PaneName(1)
    ensures !PaneNamesFree(group, LeftRight)
    ensures Switched(group, LeftRight, location, NewPaneNames(group, LeftRight), tabIds) == None
  {
    assert PaneIds(group.panes)[0] == PaneName(1);
    SwitchedIffNewIdentities(group, LeftRight, location, NewPaneNames(group, LeftRight), tabIds);
    if forall id | id in tabIds :: id != "" {
      NamesUsable(group, LeftRight, tabIds);
    }
  }

  /** What set_layout() makes of a group: the panes it had, and a fresh one for each that was missing. */
  ghost predicate LaidOut(before: GroupState, after: GroupState, layout: LayoutTemplate, location: ShellLocation) {
    && ValidGroup(after) && after.layoutTemplate == layout
    && before.panes <= after.panes && |after.panes| == |before.panes| + PanesMissing(before, layout)
    && ActivePane(after).Some? && ActivePane(after).value < PaneCount(layout)
    && (forall k | |before.panes| <= k < |after.panes| ::
          && after.panes[k] == SeededPane(PaneName(k), after.panes[k].activeTabId, location)
          && IsFree(before.panes, after.panes[k].activeTabId))
    && (exists tabIds :: Switched(before, layout, location, NewPaneNames(before, layout), tabIds) == Some(after))
    && (DistinctAcross(before.panes) ==> DistinctAcross(after.panes))
    && (Numbered(before.panes) ==> Numbered(after.panes))
  }

  /** set_layout() of src/app_shell/main.cpp: a valid group changes to another layout exactly when no pane
      of it bears a name that a new pane would get; otherwise nothing happens. Where panes are numbered by
      position it cannot fail, and they stay numbered, so that it can be used again. */
  method SetLayout(group: Ref<GroupState>, layout: LayoutTemplate, location: ShellLocation)
    modifies group
    ensures var before, after := old(group.value), group.value;
      if before.layoutTemplate != layout && ValidGroup(before) && PaneNamesFree(before, layout)
      then LaidOut(before, after, layout, location)
      else after == before
    ensures ValidGroup(old(group.value)) && Numbered(old(group.value).panes) ==> group.value.layoutTemplate == layout
  {
    if group.value.layoutTemplate == layout { return; }
    ghost var before := group.value;
    var paneIds: seq<string> := [];
    var index := |group.value.panes|;
    while index < PaneCount(layout)
      invariant index == |before.panes| + |paneIds| && group.value == before
      invariant |paneIds| <= PanesMissing(before, layout)
      invariant forall i | 0 <= i < |paneIds| :: paneIds[i] == PaneName(|before.panes| + i)
    {
      paneIds := paneIds + [PaneName(index)];
      index := index + 1;
    }
    assert paneIds == NewPaneNames(before, layout);
    var tabIds := NewTabIds(group.value, |paneIds|);
    var _ := SwitchLayout(group, layout, location, paneIds, tabIds);
    if ValidGroup(before) {
      SwitchedNames(before, layout, location, tabIds);
      if Numbered(before.panes) {
        NumberedNamesFree(before, layout);
      }
    }
  }

  lemma SwitchedNames(group: GroupState, layout: LayoutTemplate, location: ShellLocation, tabIds: seq<string>)
    requires ValidGroup(group) && |tabIds| == PanesMissing(group, layout)
    requires forall i | 0 <= i < |tabIds| :: tabIds[i] != "" && IsFree(group.panes, tabIds[i])
    requires forall i, j | 0 <= i < j < |tabIds| :: tabIds[i] != tabIds[j]
    ensures var next := Switched(group, layout, location, NewPaneNames(group, layout), tabIds);
      && (next.Some? <==> PaneNamesFree(group, layout))
      && (next.Some? ==> LaidOut(group, next.value, layout, location))
  {
    hide Switched, PaneNamesFree, IsFree, ActivePane, PaneName, DistinctAcross, NewIdentities, Numbered;
    var paneIds := NewPaneNames(group, layout);
    NamesUsable(group, layout, tabIds);
    hide ValidGroup;
    SwitchedIffNewIdentities(group, layout, location, paneIds, tabIds);
    if PaneNamesFree(group, layout) {
      var next := Switched(group, layout, location, paneIds, tabIds).value;
      SwitchedKeepsPanes(group, layout, location, paneIds, tabIds);
      SwitchedNewPanes(group, layout, location, tabIds);
      if DistinctAcross(group.panes) {
        SwitchedIdsDistinct(group, layout, location, paneIds, tabIds);
      }
      NumberedOn(group.panes, next.panes);
    }
  }

  lemma NumberedOn(panes: seq<PaneState>, next: seq<PaneState>)
    requires panes <= next && forall k | |panes| <= k < |next| :: next[k].id == PaneName(k)
    ensures Numbered(panes) ==> Numbered(next)
  {
    hide PaneName;
    assert forall k | 0 <= k < |panes| :: next[k] == panes[k];
  }

  lemma SwitchedNewPanes(group: GroupState, layout: LayoutTemplate, location: ShellLocation, tabIds: seq<string>)
    requires Switched(group, layout, location, NewPaneNames(group, layout), tabIds).Some?
    requires forall i | 0 <= i < |tabIds| :: IsFree(group.panes, tabIds[i])
    ensures var next := Switched(group, layout, location, NewPaneNames(group, layout), tabIds).value;
      forall k | |group.panes| <= k < |next.panes| ::
        && next.panes[k] == SeededPane(PaneName(k), next.panes[k].activeTabId, location)
        && IsFree(group.panes, next.panes[k].activeTabId)
  {
    hide Switched, IsFree, PaneName;
    var n, paneIds := |group.panes|, NewPaneNames(group, layout);
    var next := Switched(group, layout, location, paneIds, tabIds).value;
    GroupLaws.SwitchedOnly(group, layout, location, paneIds, tabIds, 0);
    forall k | n <= k < |next.panes|
      ensures next.panes[k] == SeededPane(PaneName(k), next.panes[k].activeTabId, location)
      ensures IsFree(group.panes, next.panes[k].activeTabId)
    {
      GroupLaws.SwitchedOnly(group, layout, location, paneIds, tabIds, k - n);
    }
  }

  /** What finish_tab_drag() of src/app_shell/main.cpp does to the model: the id for a placeholder is
      found before the move, so the tab ids of the group stay distinct. */
  method MoveTabAcross(group: GroupState, s: nat, t: nat, id: string, index: nat, location: ShellLocation)
    returns (next: GroupState, ghost placeholder: string)
    requires ValidGroup(group) && DistinctAcross(group.panes) && s < |group.panes| && t < |group.panes| && s != t
    ensures ValidGroup(next) && DistinctAcross(next.panes) && next == group.(panes := next.panes)
    ensures HasTab(group.panes[s].tabs, id) ==>
      |next.panes| == |group.panes| && next.panes[t].activeTabId == id && HasTab(next.panes[t].tabs, id)
    ensures HasTab(group.panes[s].tabs, id) ==>
      IsFree(group.panes, placeholder)
      && MovedIn(group.panes, s, t, id, index, location, placeholder) == Some(next.panes)
    ensures !HasTab(group.panes[s].tabs, id) ==> next == group
  {
    var retained, _ := NextTabId(group, 0);
    placeholder := retained;
    assert IsFree(group.panes, retained);
    var source := new Ref(group.panes[s]);
    var target := new Ref(group.panes[t]);
    var done := MoveTab(source, target, id, index, location, retained);
    next := group.(panes := group.panes[s := source.value][t := target.value]);
    if done {
      MoveKeepsGroupValid(group, s, t, id, index, location, retained);
      MoveKeepsIdsDistinct(group.panes, s, t, id, index, location, retained);
      MovedIds(group.panes[s], group.panes[t], id, index, location, retained);
    } else {
      assert next.panes == group.panes;
      MoveNotRefused(group, s, t, id, index, location, retained);
    }
  }

  /** With a free id for the placeholder, only a tab that is not there is refused. */
  lemma MoveNotRefused(group: GroupState, s: nat, t: nat, id: string, index: nat, location: ShellLocation,
                       retained: string)
    requires DistinctAcross(group.panes) && s < |group.panes| && t < |group.panes| && s != t
    requires IsFree(group.panes, retained) && retained != ""
    ensures Moved(group.panes[s], group.panes[t], id, index, location, retained).Some?
      <==> HasTab(group.panes[s].tabs, id)
  {
    OnlyHomeOf(group.panes, s, t, id);
  }

  lemma OnlyHomeOf(panes: seq<PaneState>, s: nat, t: nat, id: string)
    requires DistinctAcross(panes) && s < |panes| && t < |panes| && s != t
    ensures !(HasTab(panes[s].tabs, id) && HasTab(panes[t].tabs, id))
  {
    if HasTab(panes[s].tabs, id) {
      OnlyHome(panes, id, s, t);
    }
  }

  // ----- next_group_id

  /** The largest std::size_t. */
  const SIZE_MAX := 0xFFFF_FFFF_FFFF_FFFF

  predicate StartsWith(s: string, prefix: string) {
    |prefix| <= |s| && s[..|prefix|] == prefix
  }

  /** The number std::from_chars reads from the whole text, if it fits a std::size_t. */
  function FromChars(text: string): Option<nat> {
    if text != "" && JsonGrammar.AllDigits(text) && DigitsValue(text) <= SIZE_MAX then Some(DigitsValue(text))
    else None
  }

  predicate IsNumberedId(id: string) {
    StartsWith(id, "group-")
  }

  function GroupNumber(id: string): Option<nat>
    requires IsNumberedId(id)
  {
    FromChars(id[6..])
  }

  /** Every id that starts with "group-" goes on with a number. */
  predicate AllNumbered(groups: seq<GroupState>) {
    forall i | 0 <= i < |groups| && IsNumberedId(groups[i].id) :: GroupNumber(groups[i].id).Some?
  }

  /** m is the largest group number, or 0 if there is none. */
  ghost predicate IsMaximum(groups: seq<GroupState>, m: nat) {
    && (forall i | 0 <= i < |groups| && IsNumberedId(groups[i].id) && GroupNumber(groups[i].id).Some? ::
          GroupNumber(groups[i].id).value <= m)
    && (m == 0 || exists i | 0 <= i < |groups| ::
          IsNumberedId(groups[i].id) && GroupNumber(groups[i].id) == Some(m))
  }

  function GroupName(n: nat): string { "group-" + Digits(n) }

  /** The ids tried with a timestamp: without and then with a discriminator. */
  function StampedName(ticks: int, discriminator: nat): string {
    "group-" + Decimal(ticks) + if discriminator == 0 then "" else "-" + Digits(discriminator)
  }

  /** Every name with this timestamp and a smaller discriminator is taken. */
  ghost predicate IsFirstStamped(groups: seq<GroupState>, ticks: int, id: string) {
    exists d: nat ::
      id == StampedName(ticks, d) && forall e: nat | e < d :: Groups.HasGroup(groups, StampedName(ticks, e))
  }

  lemma StampedNamesInjective(ticks: int)
    ensures Injective(n => StampedName(ticks, n))
  {
    var base := "group-" + Decimal(ticks);
    forall a: nat, b: nat | a != b ensures StampedName(ticks, a) != StampedName(ticks, b) {
      if a == 0 || b == 0 {
        assert |StampedName(ticks, if a == 0 then b else a)| > |base| + 1;
      } else if StampedName(ticks, a) == StampedName(ticks, b) {
        assert StampedName(ticks, a)[|base| + 1..] == Digits(a);
        assert StampedName(ticks, b)[|base| + 1..] == Digits(b);
        DigitsInjective(a, b);
      }
    }
  }

  ghost function Ids(groups: seq<GroupState>): (ids: set<string>)
    ensures forall id :: id in ids <==> Groups.HasGroup(groups, id)
  {
    var ids := set i | 0 <= i < |groups| :: groups[i].id;
    assert forall id :: id in ids <==> Groups.HasGroup(groups, id) by {
      forall id ensures id in ids <==> Groups.HasGroup(groups, id) {
        if Groups.HasGroup(groups, id) {
          assert groups[Groups.GroupAt(groups, id)].id in ids;
        }
      }
    }
    ids
  }

  /** One more than the largest group number is never taken: an id that reads so would have counted. */
  lemma NextNumberIsFree(groups: seq<GroupState>, maximum: nat)
    requires AllNumbered(groups) && IsMaximum(groups, maximum) && maximum < SIZE_MAX
    ensures !Groups.HasGroup(groups, GroupName(maximum + 1))
  {
    var id := GroupName(maximum + 1);
    assert id[..6] == "group-" && id[6..] == Digits(maximum + 1);
    DigitsRead(maximum + 1);
    assert GroupNumber(id) == Some(maximum + 1);
    forall i | 0 <= i < |groups| ensures groups[i].id != id {
    }
  }

  /** The maximum of the group numbers, and whether an id that cannot be ordered was met. */
  method ScanNumbers(groups: seq<GroupState>) returns (maximum: nat, malformed: bool)
    ensures malformed <==> !AllNumbered(groups)
    ensures !malformed ==> IsMaximum(groups, maximum) && maximum <= SIZE_MAX
  {
    maximum := 0;
    for i := 0 to |groups|
      invariant AllNumbered(groups[..i]) && IsMaximum(groups[..i], maximum) && maximum <= SIZE_MAX
    {
      var id := groups[i].id;
      assert groups[..i + 1] == groups[..i] + [groups[i]];
      if !IsNumberedId(id) { continue; }
      var value := FromChars(id[6..]);
      if value.None? { return maximum, true; }
      ghost var before := maximum;
      maximum := if value.value > maximum then value.value else maximum;
      LargerMaximum(groups[..i], groups[i], before, maximum);
    }
    assert groups[..|groups|] == groups;
    return maximum, false;
  }

  lemma LargerMaximum(groups: seq<GroupState>, group: GroupState, before: nat, maximum: nat)
    requires IsMaximum(groups, before) && IsNumberedId(group.id) && GroupNumber(group.id).Some?
    requires maximum == if GroupNumber(group.id).value > before then GroupNumber(group.id).value else before
    ensures IsMaximum(groups + [group], maximum)
  {
    var more := groups + [group];
    assert more[|groups|] == group;
    if maximum == before && before != 0 {
      var i :| 0 <= i < |groups| && IsNumberedId(groups[i].id) && GroupNumber(groups[i].id) == Some(before);
      assert more[i] == groups[i];
    }
  }

  /** The id of a new group: one more than the largest number, which wraps to 0 past SIZE_MAX; or,
      when an id cannot be ordered or that one is taken, the first free one with the timestamp. No
      group has it already, so adding a valid group under it succeeds. */
  method NextGroupId(a: ApplicationState, ticks: int) returns (id: string)
    ensures !Groups.HasGroup(a.groups, id)
    ensures forall m: nat | AllNumbered(a.groups) && IsMaximum(a.groups, m) && m < SIZE_MAX :: id == GroupName(m + 1)
    ensures AllNumbered(a.groups) && IsMaximum(a.groups, SIZE_MAX) && !Groups.HasGroup(a.groups, GroupName(0)) ==>
      id == GroupName(0)
    ensures !AllNumbered(a.groups) ==> IsFirstStamped(a.groups, ticks, id)
    ensures IsMaximum(a.groups, SIZE_MAX) && Groups.HasGroup(a.groups, GroupName(0)) ==>
      IsFirstStamped(a.groups, ticks, id)
  {
    hide IsMaximum, AllNumbered, GroupName, IsFirstStamped;
    var maximum, malformed := ScanNumbers(a.groups);
    if !malformed {
      var candidate := GroupName((maximum + 1) % (SIZE_MAX + 1));
      var found := Groups.FindGroup(a.groups, candidate);
      MaximumUnique(a.groups, maximum);
      if maximum < SIZE_MAX { NextNumberIsFree(a.groups, maximum); }
      if found == |a.groups| { return candidate; }
    }
    id := StampedGroupId(a, ticks);
  }

  lemma MaximumUnique(groups: seq<GroupState>, m: nat)
    requires IsMaximum(groups, m)
    ensures forall n: nat | IsMaximum(groups, n) :: n == m
  {
  }

  /** The discriminator loop: its first free name. */
  method StampedGroupId(a: ApplicationState, ticks: int) returns (id: string)
    ensures !Groups.HasGroup(a.groups, id)
    ensures IsFirstStamped(a.groups, ticks, id)
  {
    StampedNamesInjective(ticks);
    ghost var free := SomeNumberIsFree(Ids(a.groups), n => StampedName(ticks, n), 0);
    var discriminator: nat := 0;
    id := StampedName(ticks, 0);
    var found := Groups.FindGroup(a.groups, id);
    while found != |a.groups|
      invariant discriminator <= free && id == StampedName(ticks, discriminator)
      invariant found == Groups.GroupAt(a.groups, id)
      invariant forall e: nat | e < discriminator :: Groups.HasGroup(a.groups, StampedName(ticks, e))
      decreases free - discriminator
    {
      discriminator := discriminator + 1;
      id := StampedName(ticks, discriminator);
      found := Groups.FindGroup(a.groups, id);
    }
  }

  // ----- next_group_name

  function Widened(s: string): WString {
    seq(|s|, i requires 0 <= i < |s| => s[i] as int % 0x1_0000)
  }

  function ShownName(n: nat): WString { Widened("Group " + Digits(n)) }

  lemma ShownNamesInjective()
    ensures Injective(ShownName)
  {
    forall a: nat, b: nat | a != b ensures ShownName(a) != ShownName(b) {
      if ShownName(a) == ShownName(b) {
        ShownNamesDiffer(a, b);
      }
    }
  }

  lemma ShownNamesDiffer(a: nat, b: nat)
    requires ShownName(a) == ShownName(b)
    ensures a == b
  {
    hide Digits;
    var s, t := "Group " + Digits(a), "Group " + Digits(b);
    assert |s| == |ShownName(a)| == |ShownName(b)| == |t|;
    forall i | 0 <= i < |Digits(a)| ensures Digits(a)[i] == Digits(b)[i] {
      assert s[6 + i] == Digits(a)[i] && t[6 + i] == Digits(b)[i];
      assert ShownName(a)[6 + i] == ShownName(b)[6 + i];
      assert Digits(a)[i] in Digits(a) && Digits(b)[i] in Digits(b);
    }
    hide ShownName, Widened;
    assert Digits(a) == Digits(b);
    DigitsInjective(a, b);
  }

  predicate NameInUse(groups: seq<GroupState>, name: WString) {
    exists i | 0 <= i < |groups| :: groups[i].name == name
  }

  method NameExists(groups: seq<GroupState>, name: WString) returns (taken: bool)
    ensures taken <==> NameInUse(groups, name)
  {
    for i := 0 to |groups|
      invariant forall j | 0 <= j < i :: groups[j].name != name
    {
      if groups[i].name == name { return true; }
    }
    return false;
  }

  ghost predicate IsLowestName(groups: seq<GroupState>, name: WString) {
    && !NameInUse(groups, name)
    && exists n: nat :: n >= 1 && name == ShownName(n) && forall m: nat | 1 <= m < n :: NameInUse(groups, ShownName(m))
  }

  /** "Group N" for the lowest N >= 1 that no group is named after. */
  method NextGroupName(a: ApplicationState) returns (name: WString)
    ensures IsLowestName(a.groups, name)
  {
    ShownNamesInjective();
    ghost var free := SomeNumberIsFree(set i | 0 <= i < |a.groups| :: a.groups[i].name, ShownName, 1);
    var number: nat := 1;
    while true
      invariant 1 <= number <= free
      invariant forall m: nat | 1 <= m < number :: NameInUse(a.groups, ShownName(m))
      decreases free - number
    {
      name := ShownName(number);
      var taken := NameExists(a.groups, name);
      if !taken { return; }
      number := number + 1;
    }
  }
}
