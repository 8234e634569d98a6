/** The groups of the application: lines 230-241, 262-347 and 519-523 of src/core/model.cpp. */
module Groups {
  import opened Options
  import opened Model
  import opened References
  import opened Vectors
  import opened Wtf8

  /** The position of the first group with this id, or the number of groups. */
  function GroupAt(groups: seq<GroupState>, id: string): (i: nat)
    ensures i <= |groups| && (i < |groups| ==> groups[i].id == id)
    ensures forall j | 0 <= j < i :: groups[j].id != id
  {
    Find(groups, id, (group: GroupState) => group.id)
  }

  predicate HasGroup(groups: seq<GroupState>, id: string) {
    GroupAt(groups, id) < |groups|
  }

  // ----- What each operation makes of the application; None is a refusal

  function GroupAdded(a: ApplicationState, group: GroupState): Option<ApplicationState> {
    if !ValidGroup(group) || HasGroup(a.groups, group.id) then None
    else Some(a.(groups := a.groups + [group],
                 activeGroupId := if a.activeGroupId == "" then group.id else a.activeGroupId))
  }

  function GroupRenamed(a: ApplicationState, id: string, name: WString): Option<ApplicationState> {
    var i := GroupAt(a.groups, id);
    if i == |a.groups| then None
    else Some(a.(groups := a.groups[i := a.groups[i].(name := name)]))
  }

  function GroupDuplicated(a: ApplicationState, id: string, newId: string, name: WString): Option<ApplicationState> {
    var i := GroupAt(a.groups, id);
    if i == |a.groups| || newId == "" || HasGroup(a.groups, newId) then None
    else Some(a.(groups := a.groups + [a.groups[i].(id := newId, name := name)]))
  }

  function GroupDeleted(a: ApplicationState, id: string): Option<ApplicationState> {
    var i := GroupAt(a.groups, id);
    if i == |a.groups| then None
    else
      var rest := RemoveAt(a.groups, i);
      var active :=
        if rest == [] then ""
        else if a.activeGroupId != id then a.activeGroupId
        else if i == |rest| then rest[|rest| - 1].id
        else rest[i].id;
      Some(a.(groups := rest, activeGroupId := active))
  }

  function GroupReordered(a: ApplicationState, id: string, target: nat): Option<ApplicationState> {
    var i := GroupAt(a.groups, id);
    if i == |a.groups| || target >= |a.groups| then None
    else Some(a.(groups := Reorder(a.groups, i, target)))
  }

  function LocationPinned(a: ApplicationState, location: ShellLocation): Option<ApplicationState> {
    if CanPinLocation(a.pinnedLocations, location) then
      Some(a.(pinnedLocations := a.pinnedLocations + [location]))
    else None
  }

  /** reorder_source_index(): which item shows at `destination` while `source` is dragged to `target`. */
  function ReorderSourceIndex(count: nat, source: nat, target: nat, destination: nat): Option<nat> {
    if source >= count || target >= count || destination >= count then None
    else if destination == target then Some(source)
    else
      var remaining := if destination < target then destination else destination - 1;
      Some(if remaining < source then remaining else remaining + 1)
  }

  // ----- The operations, on the application passed by reference

  method FindGroup(groups: seq<GroupState>, id: string) returns (i: nat)
    ensures i == GroupAt(groups, id)
  {
    i := 0;
    while i < |groups| && groups[i].id != id
      invariant i <= |groups| && forall j | 0 <= j < i :: groups[j].id != id
    {
      i := i + 1;
    }
  }

  method AddGroup(a: Ref<ApplicationState>, group: GroupState) returns (done: bool)
    modifies a
    ensures done == GroupAdded(old(a.value), group).Some?
    ensures a.value == if done then GroupAdded(old(a.value), group).value else old(a.value)
  {
    if !ValidGroup(group) { return false; }
    var found := FindGroup(a.value.groups, group.id);
    if found != |a.value.groups| { return false; }
    a.value := a.value.(groups := a.value.groups + [group]);
    if a.value.activeGroupId == "" {
      a.value := a.value.(activeGroupId := a.value.groups[|a.value.groups| - 1].id);
    }
    return true;
  }

  method RenameGroup(a: Ref<ApplicationState>, id: string, name: WString) returns (done: bool)
    modifies a
    ensures done == GroupRenamed(old(a.value), id, name).Some?
    ensures a.value == if done then GroupRenamed(old(a.value), id, name).value else old(a.value)
  {
    var i := FindGroup(a.value.groups, id);
    if i == |a.value.groups| { return false; }
    a.value := a.value.(groups := a.value.groups[i := a.value.groups[i].(name := name)]);
    return true;
  }

  method DuplicateGroup(a: Ref<ApplicationState>, id: string, newId: string, name: WString) returns (done: bool)
    modifies a
    ensures done == GroupDuplicated(old(a.value), id, newId, name).Some?
    ensures a.value == if done then GroupDuplicated(old(a.value), id, newId, name).value else old(a.value)
  {
    var i := FindGroup(a.value.groups, id);
    var clash := FindGroup(a.value.groups, newId);
    if i == |a.value.groups| || newId == "" || clash != |a.value.groups| { return false; }
    var copy := a.value.groups[i];
    copy := copy.(id := newId);
    copy := copy.(name := name);
    a.value := a.value.(groups := a.value.groups + [copy]);
    return true;
  }

  method DeleteGroup(a: Ref<ApplicationState>, id: string) returns (done: bool)
    modifies a
    ensures done == GroupDeleted(old(a.value), id).Some?
    ensures a.value == if done then GroupDeleted(old(a.value), id).value else old(a.value)
  {
    var i := FindGroup(a.value.groups, id);
    if i == |a.value.groups| { return false; }
    var wasActive := a.value.activeGroupId == id;
    a.value := a.value.(groups := RemoveAt(a.value.groups, i));
    var groups := a.value.groups;
    if groups == [] {
      a.value := a.value.(activeGroupId := "");
    } else if wasActive {
      a.value := a.value.(activeGroupId := if i == |groups| then groups[|groups| - 1].id else groups[i].id);
    }
    return true;
  }

  method ReorderGroup(a: Ref<ApplicationState>, id: string, target: nat) returns (done: bool)
    modifies a
    ensures done == GroupReordered(old(a.value), id, target).Some?
    ensures a.value == if done then GroupReordered(old(a.value), id, target).value else old(a.value)
  {
    var i := FindGroup(a.value.groups, id);
    if i == |a.value.groups| || target >= |a.value.groups| { return false; }
    var moved := a.value.groups[i];
    a.value := a.value.(groups := RemoveAt(a.value.groups, i));
    a.value := a.value.(groups := InsertAt(a.value.groups, target, moved));
    return true;
  }

  method AddPinnedLocation(a: Ref<ApplicationState>, location: ShellLocation) returns (done: bool)
    modifies a
    ensures done == LocationPinned(old(a.value), location).Some?
    ensures a.value == if done then LocationPinned(old(a.value), location).value else old(a.value)
  {
    if !CanPinLocation(a.value.pinnedLocations, location) { return false; }
    a.value := a.value.(pinnedLocations := a.value.pinnedLocations + [location]);
    return true;
  }

  // ----- What the operations keep

  predicate DistinctGroups(groups: seq<GroupState>) {
    && (forall i | 0 <= i < |groups| :: groups[i].id != "")
    && (forall i, j | 0 <= i < j < |groups| :: groups[i].id != groups[j].id)
  }

  /** ValidApplication, with the groups named by position. */
  predicate GoodApplication(a: ApplicationState) {
    && DistinctGroups(a.groups)
    && AllValid(a.groups)
    && (if a.groups == [] then a.activeGroupId == "" else HasGroup(a.groups, a.activeGroupId))
  }

  lemma GroupFound(groups: seq<GroupState>, i: nat)
    requires i < |groups|
    ensures HasGroup(groups, groups[i].id)
    ensures DistinctGroups(groups) ==> GroupAt(groups, groups[i].id) == i
  {
  }

  lemma UniqueIsDistinct(groups: seq<GroupState>)
    ensures UniqueIds(GroupIds(groups)) <==> DistinctGroups(groups)
  {
    var ids := GroupIds(groups);
    assert forall i | 0 <= i < |ids| :: ids[i] == groups[i].id && ids[i] in ids;
  }

  lemma GoodIsValidApplication(a: ApplicationState)
    ensures GoodApplication(a) <==> ValidApplication(a)
  {
    hide ValidGroup, DistinctGroups, UniqueIds;
    var ids := GroupIds(a.groups);
    UniqueIsDistinct(a.groups);
    assert forall i | 0 <= i < |ids| :: ids[i] == a.groups[i].id && a.groups[i] in a.groups;
    if a.activeGroupId in ids {
      var i :| 0 <= i < |ids| && ids[i] == a.activeGroupId;
      GroupFound(a.groups, i);
    }
    if HasGroup(a.groups, a.activeGroupId) {
      assert ids[GroupAt(a.groups, a.activeGroupId)] == a.activeGroupId;
    }
  }

  /** A group with a fresh id can be put anywhere. */
  lemma AppendedGood(groups: seq<GroupState>, group: GroupState)
    requires DistinctGroups(groups) && group.id != "" && !HasGroup(groups, group.id)
    ensures DistinctGroups(groups + [group])
    ensures forall id :: HasGroup(groups, id) || id == group.id ==> HasGroup(groups + [group], id)
  {
    var more := groups + [group];
    forall id | HasGroup(groups, id) || id == group.id ensures HasGroup(more, id) {
      GroupFound(more, if HasGroup(groups, id) then GroupAt(groups, id) else |groups|);
    }
  }

  lemma GroupAddedValid(a: ApplicationState, group: GroupState)
    requires ValidApplication(a)
    ensures GroupAdded(a, group).Some? <==> ValidGroup(group) && group.id !in GroupIds(a.groups)
    ensures GroupAdded(a, group).Some? ==> ValidApplication(GroupAdded(a, group).value)
  {
    hide ValidGroup;
    GoodIsValidApplication(a);
    IdsFound(a.groups, group.id);
    if GroupAdded(a, group).Some? {
      ValidGroupHasId(group);
      AppendedGood(a.groups, group);
      GoodIsValidApplication(GroupAdded(a, group).value);
    }
  }

  lemma ValidGroupHasId(group: GroupState)
    requires ValidGroup(group)
    ensures group.id != ""
  {
  }

  lemma IdsFound(groups: seq<GroupState>, id: string)
    ensures HasGroup(groups, id) <==> id in GroupIds(groups)
  {
    var ids := GroupIds(groups);
    assert forall i | 0 <= i < |ids| :: ids[i] == groups[i].id;
    if HasGroup(groups, id) {
      assert ids[GroupAt(groups, id)] == id;
    }
  }

  lemma GroupRenamedValid(a: ApplicationState, id: string, name: WString)
    requires ValidApplication(a) && GroupRenamed(a, id, name).Some?
    ensures ValidApplication(GroupRenamed(a, id, name).value)
  {
    var next := GroupRenamed(a, id, name).value;
    GoodIsValidApplication(a);
    RenamedStaysValid(a.groups[GroupAt(a.groups, id)], name);
    hide ValidGroup;
    if HasGroup(a.groups, a.activeGroupId) {
      assert next.groups[GroupAt(a.groups, a.activeGroupId)].id == a.activeGroupId;
      GroupFound(next.groups, GroupAt(a.groups, a.activeGroupId));
    }
    GoodIsValidApplication(next);
  }

  lemma RenamedStaysValid(group: GroupState, name: WString)
    requires ValidGroup(group)
    ensures ValidGroup(group.(name := name))
  {
  }

  /** A duplicate has the tabs, panes and layout of its source under another id and name. */
  lemma GroupDuplicatedValid(a: ApplicationState, id: string, newId: string, name: WString)
    requires ValidApplication(a) && GroupDuplicated(a, id, newId, name).Some?
    ensures ValidApplication(GroupDuplicated(a, id, newId, name).value)
  {
    var next := GroupDuplicated(a, id, newId, name).value;
    var copy := a.groups[GroupAt(a.groups, id)].(id := newId, name := name);
    GoodIsValidApplication(a);
    CopyStaysValid(a.groups[GroupAt(a.groups, id)], newId, name);
    hide ValidGroup;
    AppendedGood(a.groups, copy);
    GoodIsValidApplication(next);
  }

  lemma CopyStaysValid(group: GroupState, id: string, name: WString)
    requires ValidGroup(group) && id != ""
    ensures ValidGroup(group.(id := id, name := name))
  {
  }

  lemma RemovedGroups(groups: seq<GroupState>, i: nat)
    requires i < |groups| && DistinctGroups(groups)
    ensures DistinctGroups(RemoveAt(groups, i)) && !HasGroup(RemoveAt(groups, i), groups[i].id)
  {
    var rest := RemoveAt(groups, i);
    assert forall k | 0 <= k < |rest| :: rest[k] == groups[if k < i then k else k + 1];
  }

  lemma OthersRemain(groups: seq<GroupState>, i: nat, id: string)
    requires i < |groups| && id != groups[i].id && HasGroup(groups, id)
    ensures HasGroup(RemoveAt(groups, i), id)
  {
    var k := GroupAt(groups, id);
    GroupFound(RemoveAt(groups, i), if k < i then k else k - 1);
  }

  lemma InsertedGroups(groups: seq<GroupState>, i: nat, group: GroupState)
    requires i <= |groups| && DistinctGroups(groups) && group.id != "" && !HasGroup(groups, group.id)
    ensures DistinctGroups(InsertAt(groups, i, group))
  {
    var more := InsertAt(groups, i, group);
    forall k | 0 <= k < |groups| ensures groups[k].id != group.id {
      GroupFound(groups, k);
    }
    hide HasGroup;
    assert forall k | 0 <= k < |more| ::
      more[k] == if k < i then groups[k] else if k == i then group else groups[k - 1];
  }

  lemma AllFoundAfterInsert(groups: seq<GroupState>, i: nat, group: GroupState, id: string)
    requires i <= |groups| && (HasGroup(groups, id) || id == group.id)
    ensures HasGroup(InsertAt(groups, i, group), id)
  {
    var k := GroupAt(groups, id);
    GroupFound(InsertAt(groups, i, group), if k == |groups| then i else if k < i then k else k + 1);
  }

  predicate AllValid(groups: seq<GroupState>) {
    forall i | 0 <= i < |groups| :: ValidGroup(groups[i])
  }

  lemma RemovedAllValid(groups: seq<GroupState>, i: nat)
    requires i < |groups| && AllValid(groups)
    ensures AllValid(RemoveAt(groups, i)) && ValidGroup(groups[i])
  {
    hide ValidGroup;
    var rest := RemoveAt(groups, i);
    assert forall k | 0 <= k < |rest| :: rest[k] == groups[if k < i then k else k + 1];
  }

  lemma InsertedAllValid(groups: seq<GroupState>, i: nat, group: GroupState)
    requires i <= |groups| && AllValid(groups) && ValidGroup(group)
    ensures AllValid(InsertAt(groups, i, group))
  {
    hide ValidGroup;
    var more := InsertAt(groups, i, group);
    assert forall k | 0 <= k < |more| ::
      more[k] == if k < i then groups[k] else if k == i then group else groups[k - 1];
  }

  /** Exactly the one group goes; another is active only if the active one went, and none if none is left. */
  lemma GroupDeletedValid(a: ApplicationState, id: string)
    requires ValidApplication(a) && GroupDeleted(a, id).Some?
    ensures var next := GroupDeleted(a, id).value;
      && ValidApplication(next) && !HasGroup(next.groups, id)
      && multiset(next.groups) + multiset{a.groups[GroupAt(a.groups, id)]} == multiset(a.groups)
      && (next.groups != [] && a.activeGroupId != id ==> next.activeGroupId == a.activeGroupId)
  {
    var i, next := GroupAt(a.groups, id), GroupDeleted(a, id).value;
    GoodIsValidApplication(a);
    RemovedAllValid(a.groups, i);
    hide ValidGroup;
    RemovedMultiset(a.groups, i);
    RemovedGroups(a.groups, i);
    if next.groups != [] {
      if a.activeGroupId == id {
        GroupFound(next.groups, if i == |next.groups| then i - 1 else i);
      } else {
        OthersRemain(a.groups, i, a.activeGroupId);
      }
    }
    GoodIsValidApplication(next);
  }

  lemma GroupReorderedValid(a: ApplicationState, id: string, target: nat)
    requires ValidApplication(a) && GroupReordered(a, id, target).Some?
    ensures var next := GroupReordered(a, id, target).value;
      && ValidApplication(next) && next.activeGroupId == a.activeGroupId
      && next.groups[target].id == id && multiset(next.groups) == multiset(a.groups)
  {
    var i, next := GroupAt(a.groups, id), GroupReordered(a, id, target).value;
    var rest := RemoveAt(a.groups, i);
    GoodIsValidApplication(a);
    ReorderKeeps(a.groups, i, target);
    RemovedAllValid(a.groups, i);
    InsertedAllValid(rest, target, a.groups[i]);
    hide ValidGroup;
    RemovedGroups(a.groups, i);
    InsertedGroups(rest, target, a.groups[i]);
    if a.activeGroupId != id {
      OthersRemain(a.groups, i, a.activeGroupId);
    }
    AllFoundAfterInsert(rest, target, a.groups[i], a.activeGroupId);
    GoodIsValidApplication(next);
  }

  /** The projection the sidebar shows during a drag is the order the drop would make. */
  lemma ReorderSource<T>(s: seq<T>, source: nat, target: nat, destination: nat)
    ensures ReorderSourceIndex(|s|, source, target, destination).Some?
      <==> source < |s| && target < |s| && destination < |s|
    ensures source < |s| && target < |s| && destination < |s| ==>
      var from := ReorderSourceIndex(|s|, source, target, destination).value;
      from < |s| && Reorder(s, source, target)[destination] == s[from]
  {
  }

  /** Pins have names, and no two the same. */
  predicate DistinctPins(pinned: seq<ShellLocation>) {
    && (forall i | 0 <= i < |pinned| :: pinned[i].parsingName != [])
    && (forall i, j | 0 <= i < j < |pinned| :: pinned[i].parsingName != pinned[j].parsingName)
  }

  lemma LocationPinnedDistinct(a: ApplicationState, location: ShellLocation)
    requires DistinctPins(a.pinnedLocations)
    ensures LocationPinned(a, location).Some? <==> DistinctPins(a.pinnedLocations + [location])
  {
    var more := a.pinnedLocations + [location];
    assert more[|a.pinnedLocations|] == location;
    if DistinctPins(more) {
      forall other | other in a.pinnedLocations ensures other.parsingName != location.parsingName {
        var i :| 0 <= i < |a.pinnedLocations| && a.pinnedLocations[i] == other;
        assert more[i] == other;
      }
    }
  }
}
