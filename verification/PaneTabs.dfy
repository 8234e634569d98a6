/** The tabs of a pane, and tabs moving between the panes of a group: lines 413-501 of
    src/core/model.cpp. */
module PaneTabs {
  import opened Options
  import opened Model
  import opened References
  import opened Vectors

  /** The position of the first tab with this id, or the number of tabs. */
  function TabAt(tabs: seq<TabState>, id: string): (i: nat)
    ensures i <= |tabs| && (i < |tabs| ==> tabs[i].id == id)
    ensures forall j | 0 <= j < i :: tabs[j].id != id
  {
    Find(tabs, id, (tab: TabState) => tab.id)
  }

  predicate HasTab(tabs: seq<TabState>, id: string) {
    TabAt(tabs, id) < |tabs|
  }

  // ----- What each operation makes of a pane; None is a refusal

  function Added(pane: PaneState, tab: TabState): Option<PaneState> {
    if tab.id == "" || HasTab(pane.tabs, tab.id) then None
    else Some(pane.(tabs := pane.tabs + [tab]))
  }

  function Reordered(pane: PaneState, id: string, target: nat): Option<PaneState> {
    var i := TabAt(pane.tabs, id);
    if i == |pane.tabs| || target >= |pane.tabs| then None
    else Some(pane.(tabs := Reorder(pane.tabs, i, target)))
  }

  /** A tab taken back to the default location, its history forgotten. */
  function Reset(tab: TabState, location: ShellLocation): TabState {
    tab.(location := location, history := [], historyIndex := 0)
  }

  /** The pane without its i-th tab; if that was the active one, the next takes over, or the last. */
  function WithoutTab(pane: PaneState, i: nat): PaneState
    requires i < |pane.tabs| && |pane.tabs| > 1
  {
    var rest := RemoveAt(pane.tabs, i);
    var active :=
      if pane.activeTabId != pane.tabs[i].id then pane.activeTabId
      else if i == |rest| then rest[|rest| - 1].id
      else rest[i].id;
    pane.(tabs := rest, activeTabId := active)
  }

  function Closed(pane: PaneState, id: string, location: ShellLocation): Option<PaneState> {
    var i := TabAt(pane.tabs, id);
    if i == |pane.tabs| then None
    else if |pane.tabs| == 1 then Some(pane.(tabs := [Reset(pane.tabs[i], location)]))
    else Some(WithoutTab(pane, i))
  }

  function Activated(pane: PaneState, id: string): Option<PaneState> {
    if HasTab(pane.tabs, id) then Some(pane.(activeTabId := id)) else None
  }

  datatype Panes = Panes(source: PaneState, target: PaneState)

  /** move_tab() between two different panes. */
  function Moved(source: PaneState, target: PaneState, id: string, index: nat, location: ShellLocation,
                 retained: string): Option<Panes>
  {
    var i := TabAt(source.tabs, id);
    if i == |source.tabs| || HasTab(target.tabs, id) then None
    else if |source.tabs| == 1 && (retained == "" || retained == id || HasTab(target.tabs, retained)) then None
    else
      var left :=
        if |source.tabs| == 1 then
          source.(tabs := [Reset(source.tabs[i], location).(id := retained)], activeTabId := retained)
        else WithoutTab(source, i);
      var position := if index < |target.tabs| then index else |target.tabs|;
      Some(Panes(left, target.(tabs := InsertAt(target.tabs, position, source.tabs[i]), activeTabId := id)))
  }

  // ----- The operations, on panes passed by reference

  method FindTab(tabs: seq<TabState>, id: string) returns (i: nat)
    ensures i == TabAt(tabs, id)
  {
    i := 0;
    while i < |tabs| && tabs[i].id != id
      invariant i <= |tabs| && forall j | 0 <= j < i :: tabs[j].id != id
    {
      i := i + 1;
    }
  }

  method AddTab(pane: Ref<PaneState>, tab: TabState) returns (done: bool)
    modifies pane
    ensures done == Added(old(pane.value), tab).Some?
    ensures pane.value == if done then Added(old(pane.value), tab).value else old(pane.value)
  {
    var found := FindTab(pane.value.tabs, tab.id);
    if tab.id == "" || found != |pane.value.tabs| { return false; }
    pane.value := pane.value.(tabs := pane.value.tabs + [tab]);
    return true;
  }

  method ReorderTab(pane: Ref<PaneState>, id: string, target: nat) returns (done: bool)
    modifies pane
    ensures done == Reordered(old(pane.value), id, target).Some?
    ensures pane.value == if done then Reordered(old(pane.value), id, target).value else old(pane.value)
  {
    var i := FindTab(pane.value.tabs, id);
    if i == |pane.value.tabs| || target >= |pane.value.tabs| { return false; }
    var moved := pane.value.tabs[i];
    pane.value := pane.value.(tabs := RemoveAt(pane.value.tabs, i));
    pane.value := pane.value.(tabs := InsertAt(pane.value.tabs, target, moved));
    return true;
  }

  /** Erase one of several tabs, and let a neighbour take over if it was the active one. */
  method EraseTab(pane: Ref<PaneState>, i: nat)
    requires i < |pane.value.tabs| && |pane.value.tabs| > 1
    modifies pane
    ensures pane.value == WithoutTab(old(pane.value), i)
  {
    var wasActive := pane.value.activeTabId == pane.value.tabs[i].id;
    pane.value := pane.value.(tabs := RemoveAt(pane.value.tabs, i));
    if wasActive {
      var tabs := pane.value.tabs;
      pane.value := pane.value.(activeTabId := if i == |tabs| then tabs[|tabs| - 1].id else tabs[i].id);
    }
  }

  method CloseTab(pane: Ref<PaneState>, id: string, location: ShellLocation) returns (done: bool)
    modifies pane
    ensures done == Closed(old(pane.value), id, location).Some?
    ensures pane.value == if done then Closed(old(pane.value), id, location).value else old(pane.value)
  {
    var i := FindTab(pane.value.tabs, id);
    if i == |pane.value.tabs| { return false; }
    if |pane.value.tabs| == 1 {
      pane.value := pane.value.(tabs := pane.value.tabs[i := Reset(pane.value.tabs[i], location)]);
    } else {
      EraseTab(pane, i);
    }
    return true;
  }

  method SetActiveTab(pane: Ref<PaneState>, id: string) returns (done: bool)
    modifies pane
    ensures done == Activated(old(pane.value), id).Some?
    ensures pane.value == if done then Activated(old(pane.value), id).value else old(pane.value)
  {
    var i := FindTab(pane.value.tabs, id);
    if i == |pane.value.tabs| { return false; }
    pane.value := pane.value.(activeTabId := id);
    return true;
  }

  method MoveTab(source: Ref<PaneState>, target: Ref<PaneState>, id: string, index: nat, location: ShellLocation,
                 retained: string)
    returns (done: bool)
    modifies source, target
    ensures source == target ==> !done
    ensures source != target ==>
      done == Moved(old(source.value), old(target.value), id, index, location, retained).Some?
    ensures done ==>
      Moved(old(source.value), old(target.value), id, index, location, retained)
      == Some(Panes(source.value, target.value))
    ensures !done ==> source.value == old(source.value) && target.value == old(target.value)
  {
    var i := FindTab(source.value.tabs, id);
    var clash := FindTab(target.value.tabs, id);
    if source == target || i == |source.value.tabs| || clash != |target.value.tabs| { return false; }
    var moved := source.value.tabs[i];
    if |source.value.tabs| == 1 {
      var taken := FindTab(target.value.tabs, retained);
      if retained == "" || retained == id || taken != |target.value.tabs| { return false; }
      var placeholder := Reset(moved, location).(id := retained);
      source.value := source.value.(tabs := source.value.tabs[i := placeholder]);
      source.value := source.value.(activeTabId := retained);
      assert source.value.tabs == [placeholder];
    } else {
      EraseTab(source, i);
    }
    var position := if index < |target.value.tabs| then index else |target.value.tabs|;
    target.value := target.value.(tabs := InsertAt(target.value.tabs, position, moved));
    target.value := target.value.(activeTabId := id);
    return true;
  }

  // ----- What the operations keep

  predicate DistinctIds(tabs: seq<TabState>) {
    && (forall i | 0 <= i < |tabs| :: tabs[i].id != "")
    && (forall i, j | 0 <= i < j < |tabs| :: tabs[i].id != tabs[j].id)
  }

  /** ValidPane, with the tabs named by position. */
  predicate GoodPane(pane: PaneState) {
    && pane.tabs != [] && DistinctIds(pane.tabs)
    && HasTab(pane.tabs, pane.activeTabId)
    && (forall i | 0 <= i < |pane.tabs| :: ValidTab(pane.tabs[i]))
  }

  lemma {:induction false} TabFound(tabs: seq<TabState>, i: nat)
    requires i < |tabs|
    ensures HasTab(tabs, tabs[i].id)
    ensures DistinctIds(tabs) ==> TabAt(tabs, tabs[i].id) == i
  {
  }

  lemma UniqueIsDistinct(tabs: seq<TabState>)
    ensures UniqueIds(TabIds(tabs)) <==> DistinctIds(tabs)
  {
    var ids := TabIds(tabs);
    assert forall i | 0 <= i < |ids| :: ids[i] == tabs[i].id && ids[i] in ids;
  }

  lemma GoodIsValid(pane: PaneState)
    ensures GoodPane(pane) <==> ValidPane(pane)
  {
    var ids := TabIds(pane.tabs);
    UniqueIsDistinct(pane.tabs);
    assert forall i | 0 <= i < |ids| :: ids[i] == pane.tabs[i].id && pane.tabs[i] in pane.tabs;
    if pane.activeTabId in ids {
      var i :| 0 <= i < |ids| && ids[i] == pane.activeTabId;
      TabFound(pane.tabs, i);
    }
    if HasTab(pane.tabs, pane.activeTabId) {
      assert ids[TabAt(pane.tabs, pane.activeTabId)] == pane.activeTabId;
    }
  }

  /** A tab is added at the end, and only the tab itself can make the pane invalid. */
  lemma AddedValid(pane: PaneState, tab: TabState)
    requires ValidPane(pane) && Added(pane, tab).Some?
    ensures ValidPane(Added(pane, tab).value) <==> ValidTab(tab)
  {
    var next := Added(pane, tab).value;
    GoodIsValid(pane);
    GoodIsValid(next);
    assert next.tabs[|pane.tabs|] == tab;
    TabFound(next.tabs, TabAt(pane.tabs, pane.activeTabId));
  }

  lemma RemovedDistinct(tabs: seq<TabState>, i: nat)
    requires i < |tabs| && DistinctIds(tabs)
    ensures DistinctIds(RemoveAt(tabs, i)) && !HasTab(RemoveAt(tabs, i), tabs[i].id)
    ensures forall id | id != tabs[i].id :: HasTab(RemoveAt(tabs, i), id) <==> HasTab(tabs, id)
  {
    var rest := RemoveAt(tabs, i);
    assert forall k | 0 <= k < |rest| :: rest[k] == tabs[if k < i then k else k + 1];
    forall id | id != tabs[i].id ensures HasTab(rest, id) <==> HasTab(tabs, id) {
      if HasTab(tabs, id) {
        var k := TabAt(tabs, id);
        assert rest[if k < i then k else k - 1].id == id;
        TabFound(rest, if k < i then k else k - 1);
      }
      if HasTab(rest, id) {
        var k := TabAt(rest, id);
        TabFound(tabs, if k < i then k else k + 1);
      }
    }
  }

  lemma InsertedAt(tabs: seq<TabState>, i: nat, tab: TabState, k: nat)
    requires i <= |tabs| && k <= |tabs|
    ensures InsertAt(tabs, i, tab)[k] == if k < i then tabs[k] else if k == i then tab else tabs[k - 1]
  {
  }

  lemma InsertedId(tabs: seq<TabState>, i: nat, tab: TabState, id: string)
    requires i <= |tabs|
    ensures HasTab(InsertAt(tabs, i, tab), id) <==> HasTab(tabs, id) || id == tab.id
  {
    hide TabAt, DistinctIds;
    var more := InsertAt(tabs, i, tab);
    InsertedAt(tabs, i, tab, i);
    TabFound(more, i);
    if HasTab(tabs, id) {
      var k := if TabAt(tabs, id) < i then TabAt(tabs, id) else TabAt(tabs, id) + 1;
      InsertedAt(tabs, i, tab, k);
      TabFound(more, k);
    }
    if HasTab(more, id) && id != tab.id {
      var k := TabAt(more, id);
      InsertedAt(tabs, i, tab, k);
      TabFound(tabs, if k < i then k else k - 1);
    }
  }

  lemma InsertedIds(tabs: seq<TabState>, i: nat, tab: TabState)
    requires i <= |tabs|
    ensures forall id :: HasTab(InsertAt(tabs, i, tab), id) <==> HasTab(tabs, id) || id == tab.id
  {
    hide HasTab, InsertAt;
    forall id ensures HasTab(InsertAt(tabs, i, tab), id) <==> HasTab(tabs, id) || id == tab.id {
      InsertedId(tabs, i, tab, id);
    }
  }

  lemma InsertedDistinct(tabs: seq<TabState>, i: nat, tab: TabState)
    requires i <= |tabs| && DistinctIds(tabs) && tab.id != "" && !HasTab(tabs, tab.id)
    ensures DistinctIds(InsertAt(tabs, i, tab))
  {
    hide HasTab;
    var more := InsertAt(tabs, i, tab);
    assert forall k | 0 <= k < |more| :: more[k] == if k < i then tabs[k] else if k == i then tab else tabs[k - 1];
    forall k | 0 <= k < |tabs| ensures tabs[k].id != tab.id {
      TabFound(tabs, k);
    }
  }

  lemma ReorderedValid(pane: PaneState, id: string, target: nat)
    requires ValidPane(pane) && Reordered(pane, id, target).Some?
    ensures ValidPane(Reordered(pane, id, target).value)
    ensures Reordered(pane, id, target).value.activeTabId == pane.activeTabId
  {
    var i := TabAt(pane.tabs, id);
    var rest, tab := RemoveAt(pane.tabs, i), pane.tabs[i];
    GoodIsValid(pane);
    RemovedDistinct(pane.tabs, i);
    assert forall k | 0 <= k < |rest| :: rest[k] == pane.tabs[if k < i then k else k + 1];
    InsertedGood(rest, target, tab, pane);
  }

  lemma InsertedGood(rest: seq<TabState>, target: nat, tab: TabState, pane: PaneState)
    requires target <= |rest| && DistinctIds(rest) && tab.id != "" && !HasTab(rest, tab.id)
    requires (forall k | 0 <= k < |rest| :: ValidTab(rest[k])) && ValidTab(tab)
    requires HasTab(rest, pane.activeTabId) || pane.activeTabId == tab.id
    ensures ValidPane(pane.(tabs := InsertAt(rest, target, tab)))
  {
    hide TabAt, DistinctIds;
    var next := pane.(tabs := InsertAt(rest, target, tab));
    InsertedDistinct(rest, target, tab);
    InsertedIds(rest, target, tab);
    assert forall k | 0 <= k < |next.tabs| ::
      next.tabs[k] == if k < target then rest[k] else if k == target then tab else rest[k - 1];
    GoodIsValid(next);
  }

  /** A neighbour takes over when the active tab goes; the other tabs stay. */
  lemma WithoutTabValid(pane: PaneState, i: nat)
    requires ValidPane(pane) && i < |pane.tabs| && |pane.tabs| > 1
    ensures ValidPane(WithoutTab(pane, i)) && !HasTab(WithoutTab(pane, i).tabs, pane.tabs[i].id)
    ensures multiset(WithoutTab(pane, i).tabs) + multiset{pane.tabs[i]} == multiset(pane.tabs)
    ensures pane.activeTabId != pane.tabs[i].id ==> WithoutTab(pane, i).activeTabId == pane.activeTabId
    ensures pane.activeTabId == pane.tabs[i].id ==>
      WithoutTab(pane, i).activeTabId == pane.tabs[if i + 1 < |pane.tabs| then i + 1 else i - 1].id
  {
    var next := WithoutTab(pane, i);
    GoodIsValid(pane);
    RemovedDistinct(pane.tabs, i);
    RemovedMultiset(pane.tabs, i);
    assert forall k | 0 <= k < |next.tabs| :: next.tabs[k] == pane.tabs[if k < i then k else k + 1];
    if pane.activeTabId == pane.tabs[i].id {
      TabFound(next.tabs, if i == |next.tabs| then i - 1 else i);
    }
    GoodIsValid(next);
  }

  /** Closing takes exactly one tab away, or, in a pane that has no other, empties it in place. */
  lemma ClosedValid(pane: PaneState, id: string, location: ShellLocation)
    requires ValidPane(pane) && Closed(pane, id, location).Some?
    ensures var next := Closed(pane, id, location).value;
      && ValidPane(next)
      && (|pane.tabs| > 1 ==> !HasTab(next.tabs, id) && |next.tabs| == |pane.tabs| - 1)
      && (|pane.tabs| == 1 ==> TabIds(next.tabs) == TabIds(pane.tabs) && next.tabs[0].location == location)
  {
    var next := Closed(pane, id, location).value;
    if |pane.tabs| > 1 {
      WithoutTabValid(pane, TabAt(pane.tabs, id));
    } else {
      GoodIsValid(pane);
      GoodIsValid(next);
      assert TabIds(next.tabs) == TabIds(pane.tabs);
    }
  }

  lemma ActivatedValid(pane: PaneState, id: string)
    requires ValidPane(pane)
    ensures Activated(pane, id).Some? <==> id in TabIds(pane.tabs)
    ensures Activated(pane, id).Some? ==> ValidPane(Activated(pane, id).value)
  {
    GoodIsValid(pane);
    GoodIsValid(pane.(activeTabId := id));
  }

  // ----- Moves between panes

  function Position(tabs: seq<TabState>, index: nat): (p: nat)
    ensures p <= |tabs|
  {
    if index < |tabs| then index else |tabs|
  }

  lemma InsertedValid(pane: PaneState, i: nat, tab: TabState)
    requires ValidPane(pane) && i <= |pane.tabs| && ValidTab(tab) && tab.id != "" && !HasTab(pane.tabs, tab.id)
    ensures ValidPane(pane.(tabs := InsertAt(pane.tabs, i, tab), activeTabId := tab.id))
  {
    hide TabAt, DistinctIds;
    var next := pane.(tabs := InsertAt(pane.tabs, i, tab), activeTabId := tab.id);
    GoodIsValid(pane);
    InsertedDistinct(pane.tabs, i, tab);
    InsertedIds(pane.tabs, i, tab);
    assert forall k | 0 <= k < |next.tabs| ::
      next.tabs[k] == if k < i then pane.tabs[k] else if k == i then tab else pane.tabs[k - 1];
    GoodIsValid(next);
  }

  /** Both panes stay valid; the tab is the active one of the target, at the position asked for. */
  lemma MovedValid(source: PaneState, target: PaneState, id: string, index: nat, location: ShellLocation,
                   retained: string)
    requires ValidPane(source) && ValidPane(target)
    requires Moved(source, target, id, index, location, retained).Some?
    ensures var next := Moved(source, target, id, index, location, retained).value;
      && ValidPane(next.source) && ValidPane(next.target)
      && next.target.activeTabId == id
      && next.target.tabs[Position(target.tabs, index)] == source.tabs[TabAt(source.tabs, id)]
      && RemoveAt(next.target.tabs, Position(target.tabs, index)) == target.tabs
  {
    var i := TabAt(source.tabs, id);
    GoodIsValid(source);
    InsertedValid(target, Position(target.tabs, index), source.tabs[i]);
    InsertThenRemove(target.tabs, Position(target.tabs, index), source.tabs[i]);
    if |source.tabs| > 1 {
      WithoutTabValid(source, i);
    } else {
      GoodIsValid(Moved(source, target, id, index, location, retained).value.source);
    }
  }

  /** No tab is lost or doubled; a pane that would be left empty keeps a placeholder instead. */
  lemma MovedConserves(source: PaneState, target: PaneState, id: string, index: nat, location: ShellLocation,
                       retained: string)
    requires ValidPane(source) && Moved(source, target, id, index, location, retained).Some?
    ensures var next := Moved(source, target, id, index, location, retained).value;
      multiset(next.source.tabs) + multiset(next.target.tabs)
      == multiset(source.tabs) + multiset(target.tabs)
         + (if |source.tabs| > 1 then multiset{} else multiset{Reset(source.tabs[0], location).(id := retained)})
  {
    var i := TabAt(source.tabs, id);
    var next := Moved(source, target, id, index, location, retained).value;
    InsertedMultiset(target.tabs, Position(target.tabs, index), source.tabs[i]);
    if |source.tabs| > 1 {
      WithoutTabValid(source, i);
      Handed(multiset(source.tabs), multiset(target.tabs), multiset(next.source.tabs), multiset(next.target.tabs),
             multiset{source.tabs[i]}, multiset{});
    } else {
      assert source.tabs == [source.tabs[0]];
      Handed(multiset(source.tabs), multiset(target.tabs), multiset{}, multiset(next.target.tabs),
             multiset{source.tabs[i]}, multiset(next.source.tabs));
    }
  }

  lemma Handed<T>(s: multiset<T>, t: multiset<T>, s1: multiset<T>, t1: multiset<T>, x: multiset<T>, extra: multiset<T>)
    requires s1 + x == s && t1 == t + x
    ensures s1 + extra + t1 == s + t + extra
  {
    assert s1 + extra + (t + x) == s1 + x + t + extra;
  }

  /** Moving the tab back to where it was restores the tabs of both panes; a placeholder stays. */
  lemma MovedBack(source: PaneState, target: PaneState, id: string, index: nat, location: ShellLocation,
                  retained: string, spare: string)
    requires ValidPane(source) && ValidPane(target)
    requires Moved(source, target, id, index, location, retained).Some?
    ensures var i := TabAt(source.tabs, id);
      var away := Moved(source, target, id, index, location, retained).value;
      var back := Moved(away.target, away.source, id, i, location, spare);
      && back.Some?
      && back.value.source.tabs == target.tabs && back.value.source.id == target.id
      && back.value.target.tabs == (if |source.tabs| > 1 then source.tabs else [source.tabs[0]] + away.source.tabs)
      && back.value.target.activeTabId == id
  {
    var i := TabAt(source.tabs, id);
    var p := Position(target.tabs, index);
    var away := Moved(source, target, id, index, location, retained).value;
    MovedAway(source, target, id, index, location, retained);
    TakenBack(away.target, away.source, id, i, location, spare, p);
    if |source.tabs| > 1 {
      RemoveThenInsert(source.tabs, i);
    }
  }

  /** Where the tab is after the move, and that the source has none with its id. */
  lemma MovedAway(source: PaneState, target: PaneState, id: string, index: nat, location: ShellLocation,
                  retained: string)
    requires ValidPane(source) && ValidPane(target)
    requires Moved(source, target, id, index, location, retained).Some?
    ensures var away := Moved(source, target, id, index, location, retained).value;
      var p := Position(target.tabs, index);
      && |away.target.tabs| > 1 && TabAt(away.target.tabs, id) == p
      && away.target.tabs[p] == source.tabs[TabAt(source.tabs, id)]
      && RemoveAt(away.target.tabs, p) == target.tabs
      && !HasTab(away.source.tabs, id) && away.target.id == target.id
      && (|source.tabs| > 1 ==> away.source.tabs == RemoveAt(source.tabs, TabAt(source.tabs, id)))
      && (|source.tabs| == 1 ==> |away.source.tabs| == 1)
  {
    var away := Moved(source, target, id, index, location, retained).value;
    MovedValid(source, target, id, index, location, retained);
    MovedIds(source, target, id, index, location, retained);
    GoodIsValid(away.target);
    GoodIsValid(target);
    TabFound(away.target.tabs, Position(target.tabs, index));
  }

  lemma TakenBack(source: PaneState, target: PaneState, id: string, index: nat, location: ShellLocation,
                  spare: string, p: nat)
    requires |source.tabs| > 1 && TabAt(source.tabs, id) == p && p < |source.tabs| && !HasTab(target.tabs, id)
    requires index <= |target.tabs|
    ensures var back := Moved(source, target, id, index, location, spare);
      && back.Some?
      && back.value.source.tabs == RemoveAt(source.tabs, p) && back.value.source.id == source.id
      && back.value.target.tabs == InsertAt(target.tabs, index, source.tabs[p])
      && back.value.target.activeTabId == id
  {
  }

  // ----- Moves within a group

  /** Every tab id of the panes stands in one place only. */
  ghost predicate DistinctAcross(panes: seq<PaneState>) {
    && (forall p | 0 <= p < |panes| :: DistinctIds(panes[p].tabs))
    && (forall p, q, id | 0 <= p < q < |panes| :: !(HasTab(panes[p].tabs, id) && HasTab(panes[q].tabs, id)))
  }

  ghost predicate IsFree(panes: seq<PaneState>, id: string) {
    forall p | 0 <= p < |panes| :: !HasTab(panes[p].tabs, id)
  }

  /** The panes after the tab was moved from pane s to pane t. */
  function MovedIn(panes: seq<PaneState>, s: nat, t: nat, id: string, index: nat, location: ShellLocation,
                   retained: string): Option<seq<PaneState>>
    requires s < |panes| && t < |panes| && s != t
  {
    match Moved(panes[s], panes[t], id, index, location, retained)
    case None => None
    case Some(next) => Some(panes[s := next.source][t := next.target])
  }

  /** Which tabs the two panes of a move have afterwards. */
  lemma MovedIds(source: PaneState, target: PaneState, id: string, index: nat, location: ShellLocation,
                 retained: string)
    requires ValidPane(source) && Moved(source, target, id, index, location, retained).Some?
    ensures var next := Moved(source, target, id, index, location, retained).value;
      && (forall other :: HasTab(next.target.tabs, other) <==> HasTab(target.tabs, other) || other == id)
      && (forall other :: HasTab(next.source.tabs, other)
            <==> if |source.tabs| > 1 then HasTab(source.tabs, other) && other != id else other == retained)
  {
    var i := TabAt(source.tabs, id);
    GoodIsValid(source);
    InsertedIds(target.tabs, Position(target.tabs, index), source.tabs[i]);
    if |source.tabs| > 1 {
      RemovedDistinct(source.tabs, i);
    } else {
      TabFound(Moved(source, target, id, index, location, retained).value.source.tabs, 0);
    }
  }

  /** After a move the ids of the group are still distinct exactly when the placeholder's id, if one
      was needed, was not in use anywhere in the group; the move itself only looks at the target. */
  lemma MoveKeepsIdsDistinct(panes: seq<PaneState>, s: nat, t: nat, id: string, index: nat,
                             location: ShellLocation, retained: string)
    requires s < |panes| && t < |panes| && s != t && (forall p | 0 <= p < |panes| :: ValidPane(panes[p]))
    requires DistinctAcross(panes) && MovedIn(panes, s, t, id, index, location, retained).Some?
    ensures DistinctAcross(MovedIn(panes, s, t, id, index, location, retained).value)
      <==> |panes[s].tabs| > 1 || IsFree(panes, retained)
  {
    var next := MovedIn(panes, s, t, id, index, location, retained).value;
    MovedIds(panes[s], panes[t], id, index, location, retained);
    MovedValid(panes[s], panes[t], id, index, location, retained);
    GoodIsValid(next[s]);
    GoodIsValid(next[t]);
    assert forall p | 0 <= p < |panes| && p != s && p != t :: next[p] == panes[p];
    assert HasTab(panes[s].tabs, id) && !HasTab(panes[t].tabs, id);
    if |panes[s].tabs| > 1 {
      TransferDistinct(panes, next, s, t, id);
    } else {
      OnlyTab(panes[s].tabs, id);
      PlaceholderDistinct(panes, next, s, t, id, retained);
    }
  }

  lemma OnlyTab(tabs: seq<TabState>, id: string)
    requires |tabs| == 1 && HasTab(tabs, id)
    ensures forall other :: HasTab(tabs, other) <==> other == id
  {
  }

  lemma TransferDistinct(panes: seq<PaneState>, next: seq<PaneState>, s: nat, t: nat, id: string)
    requires |next| == |panes| && s < |panes| && t < |panes| && s != t && DistinctAcross(panes)
    requires HasTab(panes[s].tabs, id)
    requires forall p | 0 <= p < |panes| && p != s && p != t :: next[p] == panes[p]
    requires DistinctIds(next[s].tabs) && DistinctIds(next[t].tabs)
    requires forall other :: HasTab(next[t].tabs, other) <==> HasTab(panes[t].tabs, other) || other == id
    requires forall other :: HasTab(next[s].tabs, other) <==> HasTab(panes[s].tabs, other) && other != id
    ensures DistinctAcross(next)
  {
    hide HasTab, DistinctIds;
    forall p, other | 0 <= p < |next|
      ensures HasTab(next[p].tabs, other) <==> if other == id then p == t else HasTab(panes[p].tabs, other)
    {
      OnlyHome(panes, id, s, p);
    }
  }

  lemma OnlyHome(panes: seq<PaneState>, id: string, home: nat, p: nat)
    requires DistinctAcross(panes) && home < |panes| && p < |panes| && HasTab(panes[home].tabs, id)
    ensures HasTab(panes[p].tabs, id) <==> p == home
  {
  }

  lemma PlaceholderDistinct(panes: seq<PaneState>, next: seq<PaneState>, s: nat, t: nat, id: string, retained: string)
    requires |next| == |panes| && s < |panes| && t < |panes| && s != t && DistinctAcross(panes)
    requires forall other :: HasTab(panes[s].tabs, other) <==> other == id
    requires retained != id && !HasTab(panes[t].tabs, retained)
    requires forall p | 0 <= p < |panes| && p != s && p != t :: next[p] == panes[p]
    requires DistinctIds(next[s].tabs) && DistinctIds(next[t].tabs)
    requires forall other :: HasTab(next[t].tabs, other) <==> HasTab(panes[t].tabs, other) || other == id
    requires forall other :: HasTab(next[s].tabs, other) <==> other == retained
    ensures DistinctAcross(next) <==> IsFree(panes, retained)
  {
    hide HasTab, DistinctIds;
    forall p, other | 0 <= p < |next|
      ensures HasTab(next[p].tabs, other) <==>
        if other == id then p == t
        else if other == retained then p == s || HasTab(panes[p].tabs, retained)
        else HasTab(panes[p].tabs, other)
    {
      OnlyHome(panes, id, s, p);
    }
    if !IsFree(panes, retained) {
      var q :| 0 <= q < |panes| && HasTab(panes[q].tabs, retained);
      assert HasTab(next[q].tabs, retained) && HasTab(next[s].tabs, retained);
    }
  }

  ghost function AllTabs(panes: seq<PaneState>): multiset<TabState> {
    if panes == [] then multiset{}
    else AllTabs(panes[..|panes| - 1]) + multiset(panes[|panes| - 1].tabs)
  }

  lemma {:induction false} PaneReplaced(panes: seq<PaneState>, i: nat, pane: PaneState)
    requires i < |panes|
    ensures AllTabs(panes[i := pane]) + multiset(panes[i].tabs) == AllTabs(panes) + multiset(pane.tabs)
    decreases |panes|
  {
    var shorter := panes[..|panes| - 1];
    if i < |panes| - 1 {
      PaneReplaced(shorter, i, pane);
      var last := multiset(panes[|panes| - 1].tabs);
      assert panes[i := pane][..|panes| - 1] == shorter[i := pane];
      AddBoth(AllTabs(shorter[i := pane]), multiset(panes[i].tabs), AllTabs(shorter), multiset(pane.tabs), last);
    } else {
      assert panes[i := pane][..|panes| - 1] == shorter;
      assert AllTabs(panes[i := pane]) == AllTabs(shorter) + multiset(pane.tabs);
    }
  }

  lemma AddBoth<T>(a: multiset<T>, b: multiset<T>, c: multiset<T>, d: multiset<T>, e: multiset<T>)
    requires a + b == c + d
    ensures a + e + b == c + e + d
  {
    assert a + e + b == a + b + e && c + e + d == c + d + e;
  }

  /** The group neither loses nor gains a tab by a move, but for a placeholder. */
  lemma MoveConservesTabs(panes: seq<PaneState>, s: nat, t: nat, id: string, index: nat,
                          location: ShellLocation, retained: string)
    requires s < |panes| && t < |panes| && s != t && ValidPane(panes[s])
    requires MovedIn(panes, s, t, id, index, location, retained).Some?
    ensures AllTabs(MovedIn(panes, s, t, id, index, location, retained).value)
      == AllTabs(panes)
         + (if |panes[s].tabs| > 1 then multiset{}
            else multiset{Reset(panes[s].tabs[0], location).(id := retained)})
  {
    var next := Moved(panes[s], panes[t], id, index, location, retained).value;
    MovedConserves(panes[s], panes[t], id, index, location, retained);
    var half := panes[s := next.source];
    PaneReplaced(panes, s, next.source);
    PaneReplaced(half, t, next.target);
    SumsMove(AllTabs(panes), AllTabs(half), AllTabs(half[t := next.target]), multiset(panes[s].tabs),
             multiset(panes[t].tabs), multiset(next.source.tabs), multiset(next.target.tabs),
             if |panes[s].tabs| > 1 then multiset{} else multiset{Reset(panes[s].tabs[0], location).(id := retained)});
  }

  lemma SumsMove<T>(a: multiset<T>, b: multiset<T>, c: multiset<T>, s: multiset<T>, t: multiset<T>,
                    s1: multiset<T>, t1: multiset<T>, extra: multiset<T>)
    requires b + s == a + s1 && c + t == b + t1 && s1 + t1 == s + t + extra
    ensures c == a + extra
  {
    forall x ensures c[x] == (a + extra)[x] {
      assert (b + s)[x] == (a + s1)[x];
      assert (c + t)[x] == (b + t1)[x];
      assert (s1 + t1)[x] == (s + t + extra)[x];
    }
  }

  /** A group stays valid when one of its panes is replaced by a valid one with the same id. */
  lemma PaneReplacedValid(group: GroupState, i: nat, pane: PaneState)
    requires ValidGroup(group) && i < |group.panes| && ValidPane(pane) && pane.id == group.panes[i].id
    ensures ValidGroup(group.(panes := group.panes[i := pane]))
  {
    assert PaneIds(group.panes[i := pane]) == PaneIds(group.panes);
  }

  lemma MoveKeepsGroupValid(group: GroupState, s: nat, t: nat, id: string, index: nat, location: ShellLocation,
                            retained: string)
    requires ValidGroup(group) && s < |group.panes| && t < |group.panes| && s != t
    requires MovedIn(group.panes, s, t, id, index, location, retained).Some?
    ensures ValidGroup(group.(panes := MovedIn(group.panes, s, t, id, index, location, retained).value))
  {
    var next := Moved(group.panes[s], group.panes[t], id, index, location, retained).value;
    MovedValid(group.panes[s], group.panes[t], id, index, location, retained);
    var half := group.(panes := group.panes[s := next.source]);
    PaneReplacedValid(group, s, next.source);
    PaneReplacedValid(half, t, next.target);
  }

  // ----- The other operations within a group

  /** The group once an operation has changed its p-th pane. */
  function WithPane(group: GroupState, p: nat, pane: PaneState): GroupState
    requires p < |group.panes|
  {
    group.(panes := group.panes[p := pane])
  }

  lemma PaneOfValid(group: GroupState, p: nat)
    requires ValidGroup(group) && p < |group.panes|
    ensures ValidPane(group.panes[p])
  {
    assert group.panes[p] in group.panes;
  }

  /** A tab added to one pane: the group is valid exactly when the tab is, and its ids stay distinct across
      the panes exactly when the id was free in all of them; the operation only looks at the one. */
  lemma AddedInGroup(group: GroupState, p: nat, tab: TabState)
    requires ValidGroup(group) && p < |group.panes| && Added(group.panes[p], tab).Some?
    ensures var next := WithPane(group, p, Added(group.panes[p], tab).value);
      && (ValidGroup(next) <==> ValidTab(tab))
      && AllTabs(next.panes) == AllTabs(group.panes) + multiset{tab}
      && (DistinctAcross(group.panes) ==> (DistinctAcross(next.panes) <==> IsFree(group.panes, tab.id)))
  {
    var panes, pane := group.panes, Added(group.panes[p], tab).value;
    PaneOfValid(group, p);
    AddedValid(panes[p], tab);
    PaneReplaced(panes, p, pane);
    AllTabsMore(AllTabs(panes[p := pane]), AllTabs(panes), multiset(panes[p].tabs), multiset{tab});
    if ValidTab(tab) {
      PaneReplacedValid(group, p, pane);
    } else {
      assert !ValidPane(pane) && panes[p := pane][p] == pane;
    }
    if DistinctAcross(panes) {
      AddedDistinct(panes, p, tab);
    }
  }

  lemma AllTabsMore<T>(after: multiset<T>, before: multiset<T>, a: multiset<T>, b: multiset<T>)
    requires after + a == before + (a + b)
    ensures after == before + b
  {
    forall x ensures after[x] == (before + b)[x] {
      assert (after + a)[x] == (before + (a + b))[x];
    }
  }

  lemma AddedDistinct(panes: seq<PaneState>, p: nat, tab: TabState)
    requires DistinctAcross(panes) && p < |panes| && Added(panes[p], tab).Some?
    ensures DistinctAcross(panes[p := Added(panes[p], tab).value]) <==> IsFree(panes, tab.id)
  {
    var next := panes[p := Added(panes[p], tab).value];
    assert next[p].tabs == InsertAt(panes[p].tabs, |panes[p].tabs|, tab);
    InsertedIds(panes[p].tabs, |panes[p].tabs|, tab);
    InsertedDistinct(panes[p].tabs, |panes[p].tabs|, tab);
    hide HasTab, DistinctIds;
    if !IsFree(panes, tab.id) {
      var q :| 0 <= q < |panes| && HasTab(panes[q].tabs, tab.id);
      assert HasTab(next[q].tabs, tab.id) && HasTab(next[p].tabs, tab.id);
    }
  }

  /** A pane replaced by one that has no new id leaves the ids distinct. */
  lemma FewerIdsDistinct(panes: seq<PaneState>, p: nat, pane: PaneState)
    requires DistinctAcross(panes) && p < |panes| && DistinctIds(pane.tabs)
    requires forall id :: HasTab(pane.tabs, id) ==> HasTab(panes[p].tabs, id)
    ensures DistinctAcross(panes[p := pane])
  {
    hide HasTab, DistinctIds;
  }

  lemma SomeTabsSomeIds(some: seq<TabState>, tabs: seq<TabState>, id: string)
    requires multiset(some) <= multiset(tabs) && HasTab(some, id)
    ensures HasTab(tabs, id)
  {
    var tab := some[TabAt(some, id)];
    assert tab in multiset(some) && tab in multiset(tabs);
    var i :| 0 <= i < |tabs| && tabs[i] == tab;
    TabFound(tabs, i);
  }

  /** What replacing a pane keeps when its tabs are, but for a reset one, some of those it had. */
  lemma FewerTabsInGroup(group: GroupState, p: nat, pane: PaneState)
    requires ValidGroup(group) && p < |group.panes| && ValidPane(pane) && pane.id == group.panes[p].id
    requires multiset(pane.tabs) <= multiset(group.panes[p].tabs) || TabIds(pane.tabs) == TabIds(group.panes[p].tabs)
    ensures ValidGroup(WithPane(group, p, pane))
    ensures DistinctAcross(group.panes) ==> DistinctAcross(WithPane(group, p, pane).panes)
  {
    hide ValidGroup, HasTab;
    PaneReplacedValid(group, p, pane);
    GoodIsValid(pane);
    var tabs := group.panes[p].tabs;
    forall id | HasTab(pane.tabs, id) ensures HasTab(tabs, id) {
      if TabIds(pane.tabs) == TabIds(tabs) {
        SameIds(pane.tabs, tabs, id);
      } else {
        SomeTabsSomeIds(pane.tabs, tabs, id);
      }
    }
    if DistinctAcross(group.panes) {
      FewerIdsDistinct(group.panes, p, pane);
    }
  }

  lemma SameIds(some: seq<TabState>, tabs: seq<TabState>, id: string)
    requires TabIds(some) == TabIds(tabs) && HasTab(some, id)
    ensures HasTab(tabs, id)
  {
    var i := TabAt(some, id);
    assert TabIds(some)[i] == id && TabIds(tabs)[i] == tabs[i].id;
    TabFound(tabs, i);
  }

  /** Closing takes exactly that tab out of the group, or resets it where it is its pane's last. */
  lemma ClosedInGroup(group: GroupState, p: nat, id: string, location: ShellLocation)
    requires ValidGroup(group) && p < |group.panes| && Closed(group.panes[p], id, location).Some?
    ensures var next := WithPane(group, p, Closed(group.panes[p], id, location).value);
      var tabs := group.panes[p].tabs;
      var tab := tabs[TabAt(tabs, id)];
      && ValidGroup(next)
      && (DistinctAcross(group.panes) ==> DistinctAcross(next.panes))
      && AllTabs(next.panes) + multiset{tab}
           == AllTabs(group.panes) + (if |tabs| > 1 then multiset{} else multiset{Reset(tab, location)})
  {
    var panes, pane := group.panes, Closed(group.panes[p], id, location).value;
    var tabs := panes[p].tabs;
    var tab := tabs[TabAt(tabs, id)];
    PaneOfValid(group, p);
    ClosedValid(panes[p], id, location);
    hide ValidGroup, ValidPane;
    ClosedTabs(panes[p], id, location);
    hide Closed, Reset, TabAt;
    PaneReplaced(panes, p, pane);
    AllTabsSwapped(AllTabs(panes[p := pane]), AllTabs(panes), multiset(pane.tabs), multiset(tabs), multiset{tab},
                   if |tabs| > 1 then multiset{} else multiset{Reset(tab, location)});
    FewerTabsInGroup(group, p, pane);
  }

  lemma ClosedTabs(pane: PaneState, id: string, location: ShellLocation)
    requires Closed(pane, id, location).Some?
    ensures var next, tab := Closed(pane, id, location).value, pane.tabs[TabAt(pane.tabs, id)];
      && next.id == pane.id
      && (|pane.tabs| > 1 ==> multiset(next.tabs) <= multiset(pane.tabs))
      && multiset(next.tabs) + multiset{tab}
           == multiset(pane.tabs) + (if |pane.tabs| > 1 then multiset{} else multiset{Reset(tab, location)})
  {
    var i := TabAt(pane.tabs, id);
    if |pane.tabs| > 1 {
      RemovedMultiset(pane.tabs, i);
    } else {
      assert pane.tabs == [pane.tabs[i]];
    }
  }

  lemma AllTabsSwapped<T>(after: multiset<T>, before: multiset<T>, next: multiset<T>, pane: multiset<T>,
                          a: multiset<T>, b: multiset<T>)
    requires after + pane == before + next && next + a == pane + b
    ensures after + a == before + b
  {
    forall x ensures (after + a)[x] == (before + b)[x] {
      assert (after + pane)[x] == (before + next)[x];
      assert (next + a)[x] == (pane + b)[x];
    }
  }

  lemma ReorderedInGroup(group: GroupState, p: nat, id: string, target: nat)
    requires ValidGroup(group) && p < |group.panes| && Reordered(group.panes[p], id, target).Some?
    ensures var next := WithPane(group, p, Reordered(group.panes[p], id, target).value);
      && ValidGroup(next) && AllTabs(next.panes) == AllTabs(group.panes)
      && (DistinctAcross(group.panes) ==> DistinctAcross(next.panes))
  {
    var panes, pane := group.panes, Reordered(group.panes[p], id, target).value;
    PaneOfValid(group, p);
    ReorderedValid(panes[p], id, target);
    ReorderKeeps(panes[p].tabs, TabAt(panes[p].tabs, id), target);
    PaneReplaced(panes, p, pane);
    hide ValidGroup, ValidPane;
    AllTabsMore(AllTabs(panes[p := pane]), AllTabs(panes), multiset(panes[p].tabs), multiset{});
    FewerTabsInGroup(group, p, pane);
  }

  lemma ActivatedInGroup(group: GroupState, p: nat, id: string)
    requires ValidGroup(group) && p < |group.panes| && Activated(group.panes[p], id).Some?
    ensures var next := WithPane(group, p, Activated(group.panes[p], id).value);
      && ValidGroup(next) && AllTabs(next.panes) == AllTabs(group.panes)
      && (DistinctAcross(group.panes) ==> DistinctAcross(next.panes))
  {
    var panes, pane := group.panes, Activated(group.panes[p], id).value;
    PaneOfValid(group, p);
    ActivatedValid(panes[p], id);
    PaneReplaced(panes, p, pane);
    hide ValidGroup, ValidPane;
    AllTabsMore(AllTabs(panes[p := pane]), AllTabs(panes), multiset(panes[p].tabs), multiset{});
    FewerTabsInGroup(group, p, pane);
  }
}
