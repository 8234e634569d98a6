/** The history of a tab: lines 68-117 of src/core/model.cpp. */
module TabHistory {
  import opened Options
  import opened Model
  import opened References

  /** The index is in the history, as the vector accesses below take for granted; the location may differ
      from what the history has there. */
  predicate IndexInHistory(tab: TabState) {
    tab.history == [] || tab.historyIndex < |tab.history|
  }

  function Recorded(tab: TabState, location: ShellLocation): TabState
    requires IndexInHistory(tab)
  {
    if location == tab.location then tab
    else
      var kept := if tab.history == [] then [tab.location] else tab.history[..tab.historyIndex + 1];
      tab.(history := kept + [location], historyIndex := |kept|, location := location)
  }

  predicate CanNavigateBack(tab: TabState) {
    tab.history != [] && tab.historyIndex > 0
  }

  predicate CanNavigateForward(tab: TabState) {
    tab.history != [] && tab.historyIndex + 1 < |tab.history|
  }

  /** restore_tab_history_index(): None is a refusal. */
  function AtIndex(tab: TabState, index: nat): Option<TabState> {
    if index >= |tab.history| then None
    else Some(tab.(historyIndex := index, location := tab.history[index]))
  }

  function Back(tab: TabState): Option<TabState> {
    if CanNavigateBack(tab) then AtIndex(tab, tab.historyIndex - 1) else None
  }

  function Forward(tab: TabState): Option<TabState> {
    if CanNavigateForward(tab) then AtIndex(tab, tab.historyIndex + 1) else None
  }

  /** history_step_target(): where a Back or Forward press goes while an earlier one may be pending. */
  function StepTarget(tab: TabState, pending: Option<nat>, back: bool): Option<nat> {
    var from := if pending.Some? && pending.value < |tab.history| then pending.value else tab.historyIndex;
    if tab.history == [] || from >= |tab.history| then None
    else if back then if from == 0 then None else Some(from - 1)
    else if from + 1 < |tab.history| then Some(from + 1)
    else None
  }

  method RecordNavigation(tab: Ref<TabState>, location: ShellLocation)
    requires IndexInHistory(tab.value)
    modifies tab
    ensures tab.value == Recorded(old(tab.value), location)
  {
    if location == tab.value.location { return; }
    if tab.value.history == [] {
      tab.value := tab.value.(history := tab.value.history + [tab.value.location]);
      tab.value := tab.value.(historyIndex := 0);
    }
    tab.value := tab.value.(history := tab.value.history[..tab.value.historyIndex + 1]);
    tab.value := tab.value.(history := tab.value.history + [location]);
    tab.value := tab.value.(historyIndex := |tab.value.history| - 1);
    tab.value := tab.value.(location := location);
  }

  method NavigateBack(tab: Ref<TabState>) returns (moved: bool)
    requires CanNavigateBack(tab.value) ==> tab.value.historyIndex <= |tab.value.history|
    modifies tab
    ensures moved == Back(old(tab.value)).Some?
    ensures tab.value == if moved then Back(old(tab.value)).value else old(tab.value)
  {
    if !CanNavigateBack(tab.value) { return false; }
    tab.value := tab.value.(historyIndex := tab.value.historyIndex - 1);
    tab.value := tab.value.(location := tab.value.history[tab.value.historyIndex]);
    return true;
  }

  method NavigateForward(tab: Ref<TabState>) returns (moved: bool)
    modifies tab
    ensures moved == Forward(old(tab.value)).Some?
    ensures tab.value == if moved then Forward(old(tab.value)).value else old(tab.value)
  {
    if !CanNavigateForward(tab.value) { return false; }
    tab.value := tab.value.(historyIndex := tab.value.historyIndex + 1);
    tab.value := tab.value.(location := tab.value.history[tab.value.historyIndex]);
    return true;
  }

  method RestoreHistoryIndex(tab: Ref<TabState>, index: nat) returns (moved: bool)
    modifies tab
    ensures moved == AtIndex(old(tab.value), index).Some?
    ensures tab.value == if moved then AtIndex(old(tab.value), index).value else old(tab.value)
  {
    if index >= |tab.value.history| { return false; }
    tab.value := tab.value.(historyIndex := index);
    tab.value := tab.value.(location := tab.value.history[index]);
    return true;
  }

  /** Whatever is done to a tab's history leaves it valid, or as it was. */
  lemma HistoryStaysValid(tab: TabState, location: ShellLocation, index: nat)
    requires IndexInHistory(tab)
    ensures ValidTab(Recorded(tab, location)) || Recorded(tab, location) == tab
    ensures AtIndex(tab, index).Some? ==> ValidTab(AtIndex(tab, index).value)
  {
  }

  /** A recorded navigation can be gone back from, to where it started, and then forward again;
      nothing before it is lost. */
  lemma RecordedThenBack(tab: TabState, location: ShellLocation)
    requires IndexInHistory(tab) && location != tab.location
    ensures var next := Recorded(tab, location);
      && next.location == location && !CanNavigateForward(next)
      && tab.history[..if tab.history == [] then 0 else tab.historyIndex + 1] <= next.history
      && Back(next).Some? && (ValidTab(tab) ==> Back(next).value.location == tab.location)
      && Forward(Back(next).value) == Some(next)
  {
    HistoryStaysValid(tab, location, 0);
  }

  /** A refused move is undone by going back to the index it left. */
  lemma RefusedMoveUndone(tab: TabState, index: nat)
    requires ValidTab(tab) && tab.history != [] && index < |tab.history|
    ensures AtIndex(AtIndex(tab, index).value, tab.historyIndex) == Some(tab)
    ensures Back(tab).Some? ==> AtIndex(Back(tab).value, tab.historyIndex) == Some(tab)
    ensures Forward(tab).Some? ==> AtIndex(Forward(tab).value, tab.historyIndex) == Some(tab)
  {
  }

  /** Without a pending move a press goes where Back or Forward would go; with one it goes on from
      there, so that two presses in a row are two steps. */
  lemma PressesAddUp(tab: TabState, first: nat)
    requires IndexInHistory(tab)
    ensures StepTarget(tab, None, true) == if Back(tab).Some? then Some(Back(tab).value.historyIndex) else None
    ensures StepTarget(tab, None, false) == if Forward(tab).Some? then Some(Forward(tab).value.historyIndex) else None
    ensures first < |tab.history| ==> forall back ::
      StepTarget(tab, Some(first), back) == StepTarget(AtIndex(tab, first).value, None, back)
  {
  }
}
