/**
 The reducer of the close sequence seen flag by flag instead of event by event: when each flag rises and
 falls and when each action is asked for, and what a flag says of the events that came before.
 */
module ShutdownLaws {
  import opened Shutdown

  /** A close has been taken up already. */
  predicate Busy(s: State) {
    s.close.closing || s.wait.deferred || s.wait.queued || s.close.promptActive || s.close.saveAttempted
  }

  /** A file operation that the session end has to wait for. */
  predicate Operating(s: State) {
    s.transfer.callActive || s.transfer.inProgress
  }

  /** The event cancels a session end that brought the close about. */
  predicate TakesBack(s: State, event: Event) {
    event == EndSessionCancelled && s.end.pending && !s.close.closing && s.end.ownsClose
  }

  /** The posted continuation arrives and nothing holds it up. */
  predicate GoesOn(s: State, event: Event) {
    event == DeferredShutdownReady && !s.close.closing && s.wait.deferred && s.wait.depth == 0 && s.wait.drags == 0
  }

  /** The event asks for a close that can be deferred at once. */
  predicate Defers(s: State, event: Event) {
    || (event == CloseRequested && !Busy(s) && !s.close.quitRequested && !s.transfer.inProgress)
    || (event == EndSession && !s.close.closing && !s.close.quitRequested && !Operating(s)
        && (s.wait.drags != 0 || !Busy(s)))
  }

  /** The event asks for a close that has to wait for a file operation. */
  predicate WaitsForTransfer(s: State, event: Event) {
    || (event == CloseRequested && !Busy(s) && !s.close.quitRequested && s.transfer.inProgress)
    || (event == EndSession && !s.close.closing && !s.close.quitRequested && Operating(s))
  }

  // ----- Flag by flag

  lemma WhenGatesChange(s: State, event: Event)
    requires Consistent(s)
    ensures var t := Next(s, event).state;
      && (t.wait.deferred <==>
            || Defers(s, event)
            || (s.wait.deferred && event !in {DeferredShutdownQueueFailed, TeardownStarted}
                && !TakesBack(s, event) && !GoesOn(s, event)))
      && (t.wait.queued <==>
            || (event == DeferredShutdownQueued && s.wait.deferred)
            || (s.wait.queued && event !in {DeferredShutdownQueueFailed, TeardownStarted, DeferredShutdownReady}
                && !TakesBack(s, event)))
      && t.wait.depth == (if event == ShellCallEntered then s.wait.depth + 1
                          else if event == ShellCallLeft && s.wait.depth > 0 then s.wait.depth - 1
                          else s.wait.depth)
      && t.wait.drags == (if event == DragStarted then s.wait.drags + 1
                          else if event == DragFinished && s.wait.drags > 0 then s.wait.drags - 1
                          else s.wait.drags)
      && (t.wait.dragging <==> t.wait.drags != 0)
  {
  }

  lemma WhenCloseChanges(s: State, event: Event)
    requires Consistent(s)
    ensures var t := Next(s, event).state.close;
      && (t.closing <==> s.close.closing || event == TeardownStarted)
      && (t.quitRequested <==> s.close.quitRequested || event in {TeardownStarted, WindowDestroyed})
      && (t.windowDestroyed <==> s.close.windowDestroyed || event == WindowDestroyed)
  {
    hide OnTransfer, SaveAction;
    match event {
      case SaveStarted | SaveSucceeded | SaveFailed | SavePromptStarted | SavePromptFinished | SaveKeepOpen
         | SaveDiscarded =>
      case EndSessionCancelled =>
      case EndSession =>
      case _ =>
    }
  }

  lemma WhenSaveChanges(s: State, event: Event)
    requires Consistent(s)
    ensures var t := Next(s, event).state.close;
      && (t.promptActive <==>
            || event == SavePromptStarted
            || (s.close.promptActive && event !in {SavePromptFinished, SaveKeepOpen, SaveDiscarded}))
      && (t.saveAttempted <==>
            || event == SaveStarted
            || (GoesOn(s, event) && !s.close.promptActive)
            || (s.close.saveAttempted && event != SaveKeepOpen && !TakesBack(s, event)))
      && (t.markerArmed <==>
            event == SaveSucceeded || (s.close.markerArmed && event !in {SaveFailed, SaveKeepOpen}))
  {
    hide OnTransfer, SaveAction;
  }

  lemma WhenSessionEndChanges(s: State, event: Event)
    requires Consistent(s)
    ensures var t := Next(s, event).state.end;
      && (t.pending <==>
            || event == EndSession
            || (s.end.pending && !(event in {TeardownStarted, EndSessionCancelled} && !s.close.closing)))
      && (t.ownsClose <==>
            if event == EndSession && !s.end.pending then !Busy(s) && !s.transfer.closeAfter
            else s.end.ownsClose && !TakesBack(s, event))
      && t.cancelBefore == (if event == EndSession && !s.end.pending then s.transfer.cancel else s.end.cancelBefore)
  {
  }

  lemma WhenTransferChanges(s: State, event: Event)
    requires Consistent(s)
    ensures var t := Next(s, event).state.transfer;
      && (t.callActive <==>
            event == FileOperationCallStarted || (s.transfer.callActive && event != FileOperationCallFinished))
      && (t.inProgress <==>
            || event == FileOperationStarted
            || (s.transfer.inProgress && event !in {FileOperationFinished, FileOperationCallStarted}))
      && (t.closeAfter <==>
            || event in {TransferCloseAfterTransfer, TransferCancelAndClose} || WaitsForTransfer(s, event)
            || (s.transfer.closeAfter && event !in {TransferKeepOpen, FileOperationCallStarted}
                && !TakesBack(s, event)))
  {
    hide OnSave, SaveAction;
  }

  lemma WhenCancelChanges(s: State, event: Event)
    requires Consistent(s)
    ensures var t := Next(s, event).state.transfer;
      (t.cancel <==>
            || event == TransferCancelAndClose || (event == EndSession && WaitsForTransfer(s, event))
            || (if event == EndSessionCancelled && s.end.pending && !s.close.closing then s.end.cancelBefore
                else s.transfer.cancel
                     && event !in {TransferKeepOpen, TransferCloseAfterTransfer, FileOperationCallStarted}))
  {
    hide OnSave, SaveAction;
  }

  /** Who asks for what, and when. */
  lemma WhenActionsAreAsked(s: State, event: Event)
    requires Consistent(s)
    ensures var action := Next(s, event).action;
      && (action == Defer <==>
            || Defers(s, event)
            || (&& s.wait.deferred && !s.wait.queued
                && ((event == DragFinished && s.wait.drags == 1 && s.wait.depth == 0)
                    || (event == ShellCallLeft && s.wait.depth == 1 && s.wait.drags == 0))))
      && (action == PromptTransfer <==> event == CloseRequested && WaitsForTransfer(s, event))
      && (action == SaveSession <==> GoesOn(s, event) && !s.close.promptActive && !s.close.saveAttempted)
      && (action == PromptSaveFailure <==> event == SaveFailed && !s.end.pending)
      && (action == DestroyViews <==>
            || event in {SaveSucceeded, SaveDiscarded}
            || (event in {SaveFailed, SavePromptFinished} && s.end.pending)
            || (event == TeardownStarted && !s.close.closing))
      && (action == DestroyWindow <==> event == ViewsDestroyed && s.close.closing)
      && (action == WriteCleanMarker <==> event == WindowDestroyed && s.close.markerArmed)
      && (action == RequestQuit <==> event == WindowDestroyed && !s.close.markerArmed)
  {
    hide OnTransfer, OnSave;
  }

  // ----- What a flag says of the events before

  /** Of the events that set or clear something, the last one sets it. */
  predicate LastSets(events: seq<Event>, sets: set<Event>, clears: set<Event>) {
    events != []
    && var last := events[|events| - 1];
    last in sets || (last !in clears && LastSets(events[..|events| - 1], sets, clears))
  }

  /** How many of the one are open, each of the other closing one if there is any. */
  function Open(events: seq<Event>, opening: Event, closing: Event): nat {
    if events == [] then 0
    else
      var before, last := Open(events[..|events| - 1], opening, closing), events[|events| - 1];
      if last == opening then before + 1 else if last == closing && before > 0 then before - 1 else before
  }

  lemma {:induction false} AfterLast(s: State, events: seq<Event>)
    requires events != []
    ensures After(s, events) == Next(After(s, events[..|events| - 1]), events[|events| - 1]).state
    decreases |events|
  {
    var t := Next(s, events[0]).state;
    if |events| > 1 {
      AfterLast(t, events[1..]);
      assert events[1..][..|events| - 2] == events[..|events| - 1][1..];
    } else {
      assert events[..0] == [] && events[1..] == [];
    }
  }

  lemma {:induction false} AlwaysConsistent(events: seq<Event>)
    ensures Consistent(After(INITIAL, events))
    decreases |events|
  {
    if events != [] {
      AlwaysConsistent(events[..|events| - 1]);
      AfterLast(INITIAL, events);
      ConsistentKept(After(INITIAL, events[..|events| - 1]), events[|events| - 1]);
    }
  }

  /** From the start, whatever the events: these flags and counts are what the last events say. In particular the
      clean marker is armed exactly if a save succeeded and none failed, nor was the window kept open, since. */
  lemma {:induction false} FlagsByHistory(events: seq<Event>)
    ensures var s := After(INITIAL, events);
      && (s.close.closing <==> LastSets(events, {TeardownStarted}, {}))
      && (s.close.quitRequested <==> LastSets(events, {TeardownStarted, WindowDestroyed}, {}))
      && (s.close.windowDestroyed <==> LastSets(events, {WindowDestroyed}, {}))
      && (s.close.markerArmed <==> LastSets(events, {SaveSucceeded}, {SaveFailed, SaveKeepOpen}))
      && (s.close.promptActive <==>
            LastSets(events, {SavePromptStarted}, {SavePromptFinished, SaveKeepOpen, SaveDiscarded}))
      && (s.transfer.callActive <==> LastSets(events, {FileOperationCallStarted}, {FileOperationCallFinished}))
      && (s.transfer.inProgress <==>
            LastSets(events, {FileOperationStarted}, {FileOperationFinished, FileOperationCallStarted}))
      && s.wait.depth == Open(events, ShellCallEntered, ShellCallLeft)
      && s.wait.drags == Open(events, DragStarted, DragFinished)
    decreases |events|
  {
    hide Next;
    if events != [] {
      var before, last := events[..|events| - 1], events[|events| - 1];
      FlagsByHistory(before);
      AlwaysConsistent(before);
      AfterLast(INITIAL, events);
      var s := After(INITIAL, before);
      WhenGatesChange(s, last);
      WhenCloseChanges(s, last);
      WhenSaveChanges(s, last);
      WhenTransferChanges(s, last);
    }
  }

  // ----- A close during a file operation

  lemma {:induction false} CloseAfterStays(s: State, events: seq<Event>)
    requires Consistent(s) && s.transfer.closeAfter
    requires forall event | event in events ::
      event !in {TransferKeepOpen, EndSessionCancelled, FileOperationCallStarted}
    ensures After(s, events).transfer.closeAfter && Consistent(After(s, events))
    decreases |events|
  {
    hide Next;
    if events != [] {
      assert events[0] in events && forall event | event in events[1..] :: event in events;
      WhenTransferChanges(s, events[0]);
      ConsistentKept(s, events[0]);
      CloseAfterStays(Next(s, events[0]).state, events[1..]);
    }
  }

  /** A close asked for while a file operation runs is not lost: the user is asked, and unless the window is kept
      open, a session end is cancelled or another operation begins, it is taken up when the operation is over. */
  lemma CloseComesAfterTransfer(s: State, events: seq<Event>)
    requires Consistent(s) && s.transfer.inProgress && !Busy(s) && !s.close.quitRequested
    requires forall event | event in events ::
      event !in {TransferKeepOpen, EndSessionCancelled, FileOperationCallStarted}
    ensures Next(s, CloseRequested) == Outcome(s.(transfer := s.transfer.(closeAfter := true)), PromptTransfer)
    ensures var t := After(Next(s, CloseRequested).state, events);
      && t.transfer.closeAfter
      && (!t.transfer.inProgress && !Busy(t) && !t.close.quitRequested ==>
            Next(t, CloseRequested).action == Defer && Next(t, CloseRequested).state.wait.deferred)
  {
    CloseAfterStays(Next(s, CloseRequested).state, events);
  }
}
