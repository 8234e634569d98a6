/** src/core/shutdown.h and src/core/shutdown.cpp: the reducer of the close sequence. */
module Shutdown {
  datatype Event =
    | CloseRequested
    | EndSession
    | EndSessionCancelled
    | DragStarted
    | DragFinished
    | ShellCallEntered
    | ShellCallLeft
    | DeferredShutdownQueued
    | DeferredShutdownReady
    | DeferredShutdownQueueFailed
    | FileOperationCallStarted
    | FileOperationCallFinished
    | FileOperationStarted
    | FileOperationFinished
    | TransferKeepOpen
    | TransferCloseAfterTransfer
    | TransferCancelAndClose
    | SaveStarted
    | SaveSucceeded
    | SaveFailed
    | SavePromptStarted
    | SavePromptFinished
    | SaveKeepOpen
    | SaveDiscarded
    | TeardownStarted
    | ViewsDestroyed
    | WindowDestroyed

  datatype Action =
    | Nothing
    | Defer
    | PromptTransfer
    | PromptSaveFailure
    | SaveSession
    | DestroyViews
    | DestroyWindow
    | WriteCleanMarker
    | RequestQuit

  // ShutdownSequence::State, its fields in four groups. The two counters do not wrap here.

  /** How far the close itself has got. */
  datatype Closing = Closing(
    quitRequested: bool, closing: bool, promptActive: bool, saveAttempted: bool, markerArmed: bool,
    windowDestroyed: bool)

  /** A deferred shutdown and what it waits for. */
  datatype Gates = Gates(depth: nat, deferred: bool, queued: bool, drags: nat, dragging: bool)

  datatype SessionEnd = SessionEnd(pending: bool, ownsClose: bool, cancelBefore: bool)

  datatype Transfer = Transfer(callActive: bool, inProgress: bool, closeAfter: bool, cancel: bool)

  datatype State = State(close: Closing, wait: Gates, end: SessionEnd, transfer: Transfer)
  {
    /** is_shutting_down(). */
    predicate ShuttingDown() {
      close.closing || wait.deferred
    }

    /** Any of the flags that say a close has been taken up already. */
    predicate CloseUnderWay() {
      close.closing || wait.deferred || wait.queued || close.promptActive || close.saveAttempted
    }

    /** shutdown_ready_to_resume(). */
    predicate ReadyToResume() {
      wait.deferred && !wait.queued && !close.closing && wait.depth == 0 && wait.drags == 0
    }
  }

  datatype Outcome = Outcome(state: State, action: Action)

  const INITIAL := State(Closing(false, false, false, false, false, false), Gates(0, false, false, 0, false),
                         SessionEnd(false, false, false), Transfer(false, false, false, false))

  function OnCloseRequested(s: State): Outcome {
    if s.CloseUnderWay() || s.close.quitRequested then Outcome(s, Nothing)
    else if s.transfer.inProgress then Outcome(s.(transfer := s.transfer.(closeAfter := true)), PromptTransfer)
    else Outcome(s.(wait := s.wait.(deferred := true)), Defer)
  }

  function EndRemembered(s: State): State {
    if s.end.pending then s
    else
      var owns := !s.CloseUnderWay() && !s.transfer.closeAfter;
      s.(end := SessionEnd(true, owns, s.transfer.cancel))
  }

  function OnEndSession(before: State): Outcome {
    var s := EndRemembered(before);
    if s.close.closing || s.close.quitRequested then Outcome(s, Nothing)
    else if s.transfer.callActive || s.transfer.inProgress then
      Outcome(s.(transfer := s.transfer.(closeAfter := true, cancel := true)), Nothing)
    else if s.wait.dragging then Outcome(s.(wait := s.wait.(deferred := true)), Defer)
    else if s.CloseUnderWay() then Outcome(s, Nothing)
    else Outcome(s.(wait := s.wait.(deferred := true)), Defer)
  }

  function OnEndSessionCancelled(s: State): State {
    if !s.end.pending || s.close.closing then s
    else
      var released :=
        if s.end.ownsClose then
          s.(wait := s.wait.(deferred := false, queued := false), close := s.close.(saveAttempted := false),
             transfer := s.transfer.(closeAfter := false))
        else s;
      released.(end := released.end.(pending := false, ownsClose := false),
                transfer := released.transfer.(cancel := s.end.cancelBefore))
  }

  function Resumed(s: State): Outcome {
    Outcome(s, if s.ReadyToResume() then Defer else Nothing)
  }

  function OnDragFinished(s: State): Outcome {
    if s.wait.drags == 0 then Outcome(s, Nothing)
    else Resumed(s.(wait := s.wait.(drags := s.wait.drags - 1, dragging := s.wait.drags != 1)))
  }

  function OnShellCallLeft(s: State): Outcome {
    if s.wait.depth == 0 then Outcome(s, Nothing)
    else Resumed(s.(wait := s.wait.(depth := s.wait.depth - 1)))
  }

  function OnDeferredShutdownReady(s: State): Outcome {
    if s.close.closing || !s.wait.deferred then Outcome(s, Nothing)
    else if s.wait.depth != 0 || s.wait.dragging then Outcome(s.(wait := s.wait.(queued := false)), Nothing)
    else
      var released := s.(wait := s.wait.(deferred := false, queued := false));
      if s.close.promptActive || s.close.saveAttempted then Outcome(released, Nothing)
      else Outcome(released.(close := released.close.(saveAttempted := true)), SaveSession)
  }

  function OnTransfer(t: Transfer, event: Event): Transfer {
    match event
    case FileOperationCallStarted => Transfer(true, false, false, false)
    case FileOperationCallFinished => t.(callActive := false)
    case FileOperationStarted => t.(inProgress := true)
    case FileOperationFinished => t.(inProgress := false)
    case TransferKeepOpen => t.(closeAfter := false, cancel := false)
    case TransferCloseAfterTransfer => t.(closeAfter := true, cancel := false)
    case TransferCancelAndClose => t.(closeAfter := true, cancel := true)
    case _ => t
  }

  function OnSave(close: Closing, event: Event): Closing {
    match event
    case SaveStarted => close.(saveAttempted := true)
    case SaveSucceeded => close.(markerArmed := true)
    case SaveFailed => close.(markerArmed := false)
    case SavePromptStarted => close.(promptActive := true)
    case SavePromptFinished => close.(promptActive := false)
    case SaveKeepOpen => close.(promptActive := false, saveAttempted := false, markerArmed := false)
    case SaveDiscarded => close.(promptActive := false)
    case _ => close
  }

  function SaveAction(endPending: bool, event: Event): Action {
    match event
    case SaveSucceeded => DestroyViews
    case SaveFailed => if endPending then DestroyViews else PromptSaveFailure
    case SavePromptFinished => if endPending then DestroyViews else Nothing
    case SaveDiscarded => DestroyViews
    case _ => Nothing
  }

  function OnTeardownStarted(s: State): Outcome {
    if s.close.closing then Outcome(s, Nothing)
    else
      Outcome(s.(close := s.close.(closing := true, quitRequested := true), end := s.end.(pending := false),
                 wait := s.wait.(deferred := false, queued := false)),
              DestroyViews)
  }

  /** What one event does to the state, and the action it asks for. */
  function Next(s: State, event: Event): Outcome {
    match event
    case CloseRequested => OnCloseRequested(s)
    case EndSession => OnEndSession(s)
    case EndSessionCancelled => Outcome(OnEndSessionCancelled(s), Nothing)
    case DragStarted => Outcome(s.(wait := s.wait.(drags := s.wait.drags + 1, dragging := true)), Nothing)
    case DragFinished => OnDragFinished(s)
    case ShellCallEntered => Outcome(s.(wait := s.wait.(depth := s.wait.depth + 1)), Nothing)
    case ShellCallLeft => OnShellCallLeft(s)
    case DeferredShutdownQueued => Outcome(s.(wait := s.wait.(queued := s.wait.deferred || s.wait.queued)), Nothing)
    case DeferredShutdownReady => OnDeferredShutdownReady(s)
    case DeferredShutdownQueueFailed => Outcome(s.(wait := s.wait.(deferred := false, queued := false)), Nothing)
    case SaveStarted | SaveSucceeded | SaveFailed | SavePromptStarted | SavePromptFinished | SaveKeepOpen
       | SaveDiscarded => Outcome(s.(close := OnSave(s.close, event)), SaveAction(s.end.pending, event))
    case TeardownStarted => OnTeardownStarted(s)
    case ViewsDestroyed => Outcome(s, if s.close.closing then DestroyWindow else Nothing)
    case WindowDestroyed =>
      Outcome(s.(close := s.close.(windowDestroyed := true, quitRequested := true)),
              if s.close.markerArmed then WriteCleanMarker else RequestQuit)
    case _ => Outcome(s.(transfer := OnTransfer(s.transfer, event)), Nothing)
  }

  /** class ShutdownSequence: the events assign to the fields of its state. */
  class ShutdownSequence {
    var close: Closing
    var wait: Gates
    var end: SessionEnd
    var transfer: Transfer

    function Current(): State
      reads this
    {
      State(close, wait, end, transfer)
    }

    constructor ()
      ensures Current() == INITIAL
    {
      close, wait, end, transfer := INITIAL.close, INITIAL.wait, INITIAL.end, INITIAL.transfer;
    }

    /** step(): the three groups of events that change one group of fields are in methods of their own. */
    method Step(event: Event) returns (action: Action)
      modifies this
      ensures Outcome(Current(), action) == Next(old(Current()), event)
    {
      action := Nothing;
      match event {
        case CloseRequested => action := RequestClose();
        case EndSession => action := EndTheSession();
        case EndSessionCancelled => CancelEnd();
        case DragStarted => wait := wait.(drags := wait.drags + 1, dragging := true);
        case DragFinished => action := FinishDrag();
        case ShellCallEntered => wait := wait.(depth := wait.depth + 1);
        case ShellCallLeft => action := LeaveCall();
        case DeferredShutdownQueued =>
          if wait.deferred { wait := wait.(queued := true); }
        case DeferredShutdownReady => action := Resume();
        case DeferredShutdownQueueFailed => wait := wait.(deferred := false, queued := false);
        case SaveStarted | SaveSucceeded | SaveFailed | SavePromptStarted | SavePromptFinished | SaveKeepOpen
           | SaveDiscarded => action := StepSave(event);
        case TeardownStarted => action := StartTeardown();
        case ViewsDestroyed =>
          if close.closing { action := DestroyWindow; }
        case WindowDestroyed =>
          close := close.(windowDestroyed := true, quitRequested := true);
          action := if close.markerArmed then WriteCleanMarker else RequestQuit;
        case _ => StepTransfer(event);
      }
    }

    method StepTransfer(event: Event)
      modifies this`transfer
      ensures transfer == OnTransfer(old(transfer), event)
    {
      match event {
        case FileOperationCallStarted => transfer := Transfer(true, false, false, false);
        case FileOperationCallFinished => transfer := transfer.(callActive := false);
        case FileOperationStarted => transfer := transfer.(inProgress := true);
        case FileOperationFinished => transfer := transfer.(inProgress := false);
        case TransferKeepOpen => transfer := transfer.(closeAfter := false, cancel := false);
        case TransferCloseAfterTransfer => transfer := transfer.(closeAfter := true, cancel := false);
        case TransferCancelAndClose => transfer := transfer.(closeAfter := true, cancel := true);
        case _ =>
      }
    }

    method StepSave(event: Event) returns (action: Action)
      modifies this`close
      ensures close == OnSave(old(close), event) && action == SaveAction(end.pending, event)
    {
      action := Nothing;
      match event {
        case SaveStarted => close := close.(saveAttempted := true);
        case SaveSucceeded =>
          close := close.(markerArmed := true);
          action := DestroyViews;
        case SaveFailed =>
          close := close.(markerArmed := false);
          action := if end.pending then DestroyViews else PromptSaveFailure;
        case SavePromptStarted => close := close.(promptActive := true);
        case SavePromptFinished =>
          close := close.(promptActive := false);
          action := if end.pending then DestroyViews else Nothing;
        case SaveKeepOpen => close := close.(promptActive := false, saveAttempted := false, markerArmed := false);
        case SaveDiscarded =>
          close := close.(promptActive := false);
          action := DestroyViews;
        case _ =>
      }
    }

    method FinishDrag() returns (action: Action)
      modifies this
      ensures Outcome(Current(), action) == OnDragFinished(old(Current()))
    {
      if wait.drags == 0 { return Nothing; }
      wait := wait.(drags := wait.drags - 1);
      wait := wait.(dragging := wait.drags != 0);
      action := if Current().ReadyToResume() then Defer else Nothing;
    }

    method LeaveCall() returns (action: Action)
      modifies this
      ensures Outcome(Current(), action) == OnShellCallLeft(old(Current()))
    {
      if wait.depth == 0 { return Nothing; }
      wait := wait.(depth := wait.depth - 1);
      action := if Current().ReadyToResume() then Defer else Nothing;
    }

    method StartTeardown() returns (action: Action)
      modifies this
      ensures Outcome(Current(), action) == OnTeardownStarted(old(Current()))
    {
      if close.closing { return Nothing; }
      close := close.(closing := true, quitRequested := true);
      end := end.(pending := false);
      wait := wait.(deferred := false, queued := false);
      action := DestroyViews;
    }

    method RequestClose() returns (action: Action)
      modifies this
      ensures Outcome(Current(), action) == OnCloseRequested(old(Current()))
    {
      if Current().CloseUnderWay() || close.quitRequested { return Nothing; }
      if transfer.inProgress {
        transfer := transfer.(closeAfter := true);
        return PromptTransfer;
      }
      wait := wait.(deferred := true);
      return Defer;
    }

    method EndTheSession() returns (action: Action)
      modifies this
      ensures Outcome(Current(), action) == OnEndSession(old(Current()))
    {
      if !end.pending {
        // A cancelled session end must not cancel a close the user had already asked for.
        end := end.(ownsClose := !Current().CloseUnderWay() && !transfer.closeAfter);
        end := end.(cancelBefore := transfer.cancel);
      }
      end := end.(pending := true);
      if close.closing || close.quitRequested { return Nothing; }
      if transfer.callActive || transfer.inProgress {
        transfer := transfer.(closeAfter := true, cancel := true);
        return Nothing;
      }
      if wait.dragging {
        wait := wait.(deferred := true);
        return Defer;
      }
      if close.promptActive || close.saveAttempted { return Nothing; }
      if wait.deferred || wait.queued { return Nothing; }
      wait := wait.(deferred := true);
      return Defer;
    }

    method CancelEnd()
      modifies this
      ensures Current() == OnEndSessionCancelled(old(Current()))
    {
      if !end.pending { return; }
      if !close.closing {
        end := end.(pending := false);
        if end.ownsClose {
          wait := wait.(deferred := false, queued := false);
          close := close.(saveAttempted := false);
          transfer := transfer.(closeAfter := false);
        }
        transfer := transfer.(cancel := end.cancelBefore);
        end := end.(ownsClose := false);
      }
    }

    method Resume() returns (action: Action)
      modifies this
      ensures Outcome(Current(), action) == OnDeferredShutdownReady(old(Current()))
    {
      if close.closing || !wait.deferred { return Nothing; }
      if wait.depth != 0 || wait.dragging {
        // Consumed by a nested pump: leaving the call or finishing the drag asks again.
        wait := wait.(queued := false);
        return Nothing;
      }
      wait := wait.(deferred := false, queued := false);
      if close.promptActive || close.saveAttempted { return Nothing; }
      close := close.(saveAttempted := true);
      return SaveSession;
    }
  }

  // ----- What every event keeps

  /** A continuation is queued only for a deferred shutdown, a teardown that has started leaves
      neither, and the drag flag says whether any drag target is active. */
  predicate Consistent(s: State) {
    && (s.wait.queued ==> s.wait.deferred)
    && (s.close.closing ==> s.close.quitRequested && !s.wait.deferred && !s.wait.queued)
    && (s.wait.dragging <==> s.wait.drags != 0)
  }

  /** The flags keep their meaning, and nothing undoes the start of the teardown. */
  lemma ConsistentKept(s: State, event: Event)
    requires Consistent(s)
    ensures Consistent(Next(s, event).state)
    ensures Next(s, event).state.close.closing <==> s.close.closing || event == TeardownStarted
  {
  }

  /** A close that waits for its gates is released by exactly the event that clears the last one. */
  lemma LastGateResumes(s: State, event: Event)
    requires Consistent(s) && s.wait.deferred && !s.wait.queued && (s.wait.depth != 0 || s.wait.drags != 0)
    requires event == DragFinished || event == ShellCallLeft
    ensures var (next, action) := (Next(s, event).state, Next(s, event).action);
      action == Defer <==> next.wait.depth == 0 && next.wait.drags == 0
  {
  }

  /** A session end that can be taken back without a trace: nothing but its own close depends on it. */
  predicate Unwindable(s: State) {
    && !s.close.closing
    && (s.close.quitRequested
        || if s.transfer.callActive || s.transfer.inProgress then s.transfer.closeAfter || !s.CloseUnderWay()
           else if s.wait.dragging then s.wait.deferred || (!s.CloseUnderWay() && !s.transfer.closeAfter)
           else s.CloseUnderWay() || !s.transfer.closeAfter)
  }

  /** The same but for what a session end remembers while it is pending. */
  predicate SameButRemembered(s: State, t: State) {
    t == s.(end := s.end.(ownsClose := t.end.ownsClose, cancelBefore := t.end.cancelBefore))
  }

  /** Cancelling a session end restores the state before it exactly when it was unwindable; a close
      that was under way stays under way in any case. */
  lemma CancelAfterEndSession(s: State)
    requires Consistent(s) && !s.end.pending
    ensures var t := Next(Next(s, EndSession).state, EndSessionCancelled).state;
      && (SameButRemembered(s, t) <==> Unwindable(s))
      && (s.close == t.close)
      && (s.wait.deferred ==> t.wait.deferred) && (s.wait.queued ==> t.wait.queued)
      && (s.transfer.closeAfter ==> t.transfer.closeAfter) && s.transfer.cancel == t.transfer.cancel
  {
  }

  // ----- Whole runs of the reducer

  function After(s: State, events: seq<Event>): State
    decreases |events|
  {
    if events == [] then s else After(Next(s, events[0]).state, events[1..])
  }

  /** A run that reaches a state which is not unwindable: the window is closed while a file operation is being
      called, and then the session end comes and is cancelled. The transfer is left to be closed after. */
  lemma CancelLeavesTrace()
    ensures var s := After(INITIAL, [FileOperationCallStarted, CloseRequested]);
      var t := After(s, [EndSession, EndSessionCancelled]);
      && Consistent(s) && !s.end.pending && !Unwindable(s)
      && !s.transfer.closeAfter && t.transfer.closeAfter
  {
    var s1 := Next(INITIAL, FileOperationCallStarted).state;
    var s2 := Next(s1, CloseRequested).state;
    assert After(INITIAL, [FileOperationCallStarted, CloseRequested]) == After(s1, [CloseRequested]) == After(s2, []);
    var s3 := Next(s2, EndSession).state;
    assert After(s2, [EndSession, EndSessionCancelled]) == After(s3, [EndSessionCancelled]);
  }

  /** How often the events, taken from state s on, make the reducer answer `event` with `action`. */
  function Answers(s: State, events: seq<Event>, event: Event, action: Action): nat
    decreases |events|
  {
    if events == [] then 0
    else
      (if events[0] == event && Next(s, event).action == action then 1 else 0)
      + Answers(Next(s, events[0]).state, events[1..], event, action)
  }

  function Occurrences(events: seq<Event>, event: Event): nat {
    if events == [] then 0 else (if events[0] == event then 1 else 0) + Occurrences(events[1..], event)
  }

  lemma ClosingStep(s: State, event: Event)
    ensures Next(s, event).state.close.closing <==> s.close.closing || event == TeardownStarted
    ensures Next(s, TeardownStarted).action == DestroyViews <==> !s.close.closing
  {
    match event {
      case SaveStarted | SaveSucceeded | SaveFailed | SavePromptStarted | SavePromptFinished | SaveKeepOpen
         | SaveDiscarded =>
      case EndSessionCancelled =>
      case _ =>
    }
  }

  lemma SaveStep(s: State, event: Event)
    ensures Next(s, DeferredShutdownReady).action == SaveSession ==>
      !s.close.saveAttempted && Next(s, DeferredShutdownReady).state.close.saveAttempted
    ensures s.close.saveAttempted && !Next(s, event).state.close.saveAttempted ==>
      event == SaveKeepOpen || event == EndSessionCancelled
  {
  }

  /** Whatever the events and their order, the teardown is granted at most once: as often as the run
      turns the closing flag on. */
  lemma {:induction false} TeardownGrantedOnce(s: State, events: seq<Event>)
    ensures Answers(s, events, TeardownStarted, DestroyViews)
      == (if !s.close.closing && TeardownStarted in events then 1 else 0)
    ensures After(s, events).close.closing <==> s.close.closing || TeardownStarted in events
    decreases |events|
  {
    hide Next;
    if events != [] {
      ClosingStep(s, events[0]);
      TeardownGrantedOnce(Next(s, events[0]).state, events[1..]);
    }
  }

  /** A continuation asks for a save at most once, plus once for every time the user keeps the
      window open or a session end is cancelled. */
  lemma {:induction false} SavesBounded(s: State, events: seq<Event>)
    ensures Answers(s, events, DeferredShutdownReady, SaveSession)
      <= (if s.close.saveAttempted then 0 else 1)
         + Occurrences(events, SaveKeepOpen) + Occurrences(events, EndSessionCancelled)
    decreases |events|
  {
    hide Next;
    if events != [] {
      SaveStep(s, events[0]);
      SavesBounded(Next(s, events[0]).state, events[1..]);
    }
  }
}
