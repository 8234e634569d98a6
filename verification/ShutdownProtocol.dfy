/**
 ShutdownCoordinator (src/core/shutdown_coordinator.cpp) and ShellReentryGuard
 (src/app_shell/shell_reentry_guard.h) with the effects src/app_shell/main.cpp gives them. They are
 one object here because each can be entered again through the others: while views are destroyed
 and while the save prompt is open, the message loop turns, and `Interrupt` makes any calls it likes.
 */
module ShutdownProtocol {
  import opened Shutdown
  import opened HeldMessages
  import Laws = ShutdownLaws

  // ----- What the application has been seen to do

  datatype Effect =
    | Caption(closing: bool)
    | ContinuationPosted(ok: bool)
    | TransferPrompt(shown: bool)
    | SessionSaved(ok: bool)
    | CheckpointWritten(ok: bool)
    | SavePrompt
    | DestroyingViews(sessionEnding: bool)
    | ViewsGone
    | DestroyingWindow
    | Replayed(message: Message, ok: bool)

  datatype Stage = ViewsGoing | ViewsWent | WindowGoing

  /** The steps of the teardown among the effects. */
  function Teardown(log: seq<Effect>): seq<Stage> {
    if log == [] then []
    else Teardown(log[..|log| - 1]) + StageOf(log[|log| - 1])
  }

  function StageOf(e: Effect): seq<Stage> {
    match e
    case DestroyingViews(_) => [ViewsGoing]
    case ViewsGone => [ViewsWent]
    case DestroyingWindow => [WindowGoing]
    case _ => []
  }

  const WHOLE: seq<Stage> := [ViewsGoing, ViewsWent, WindowGoing]

  predicate IsSave(e: Effect) {
    e.SessionSaved? || e.CheckpointWritten?
  }

  predicate IsGoodSave(e: Effect) {
    IsSave(e) && e.ok
  }

  ghost predicate SaveTried(log: seq<Effect>) {
    exists i | 0 <= i < |log| :: IsSave(log[i])
  }

  ghost predicate SavedOnce(log: seq<Effect>) {
    exists i | 0 <= i < |log| :: IsGoodSave(log[i])
  }

  /** Views are only destroyed after a save or a session-end checkpoint was attempted. */
  ghost predicate SavedFirst(log: seq<Effect>) {
    forall i | 0 <= i < |log| && log[i].DestroyingViews? :: SaveTried(log[..i])
  }

  // ----- What holds at every point where a call may come in

  ghost predicate Sound(s: State, log: seq<Effect>, pending: nat) {
    && Consistent(s)
    && (s.wait.queued ==> pending > 0)
    && (if s.close.closing then Teardown(log) != [] && Teardown(log) <= WHOLE else Teardown(log) == [])
    && SavedFirst(log)
    && (s.close.markerArmed ==> SavedOnce(log))
  }

  /** No lost close: with a window, a deferred shutdown that waits for nothing is queued. */
  ghost predicate NoLostClose(s: State, hasWindow: bool) {
    hasWindow ==> !s.ReadyToResume()
  }

  /** What a call may do to the state and the effects: they are only added to, Shell call scopes are
      balanced, and a teardown is either left alone or carried through. */
  ghost predicate Follows(s: State, log: seq<Effect>, t: State, longer: seq<Effect>) {
    && log <= longer
    && t.wait.depth == s.wait.depth
    && (s.close.closing ==> t.close.closing && Teardown(longer) == Teardown(log))
    && (!s.close.closing && t.close.closing ==> Teardown(longer) == WHOLE)
  }

  /** A close asked for now would be taken up. */
  predicate Takes(s: State) {
    && !s.CloseUnderWay() && !s.close.quitRequested && !s.transfer.inProgress
    && (s.end.pending ==> !s.transfer.callActive)
  }

  /** A close asked for now would have to wait for a file operation. */
  predicate Waits(s: State) {
    !Laws.Busy(s) && !s.close.quitRequested && !s.end.pending && s.transfer.inProgress
  }

  /** What request_close() shows and remembers when it does not defer the close: nothing while a close is under
      way, and during a file operation the question what to do with it. */
  ghost predicate CloseAnswered(s: State, log: seq<Effect>, t: State, longer: seq<Effect>) {
    && (!s.end.pending && (Laws.Busy(s) || s.close.quitRequested) ==> t == s && longer == log)
    && (Waits(s) ==>
          t == s.(transfer := s.transfer.(closeAfter := true)) && longer == log + [TransferPrompt(true)])
    && (Takes(s) && !s.end.pending ==> |longer| > |log| && longer[|log|] == Caption(true))
  }

  /** The messages were posted again, in order, each with whatever success. */
  ghost predicate IsReplay(log: seq<Effect>, messages: seq<Message>, longer: seq<Effect>) {
    && |longer| == |log| + |messages| && log <= longer
    && forall k | |log| <= k < |longer| :: longer[k].Replayed? && longer[k].message == messages[k - |log|]
  }

  /** The state once a deferral has been dropped because its continuation could not be posted. */
  function Released(s: State): State {
    s.(wait := s.wait.(deferred := false, queued := false))
  }

  function RunRank(action: Action): nat {
    match action
    case SaveSession => 8
    case PromptSaveFailure => 6
    case DestroyViews => 6
    case _ => 3
  }

  lemma Appended(log: seq<Effect>, e: Effect)
    ensures Teardown(log + [e]) == Teardown(log) + StageOf(e)
    ensures SavedFirst(log) && (e.DestroyingViews? ==> SaveTried(log)) ==> SavedFirst(log + [e])
    ensures SaveTried(log) || IsSave(e) ==> SaveTried(log + [e])
    ensures SavedOnce(log) || IsGoodSave(e) ==> SavedOnce(log + [e])
  {
    var longer := log + [e];
    assert longer[..|log|] == log && longer[|log|] == e;
    if SavedFirst(log) && (e.DestroyingViews? ==> SaveTried(log)) {
      forall i | 0 <= i < |longer| && longer[i].DestroyingViews? ensures SaveTried(longer[..i]) {
        assert longer[..i] == log[..i];
      }
    }
    if SaveTried(log) {
      var i :| 0 <= i < |log| && IsSave(log[i]);
      assert IsSave(longer[i]);
    }
    if SavedOnce(log) {
      var i :| 0 <= i < |log| && IsGoodSave(log[i]);
      assert IsGoodSave(longer[i]);
    }
  }

  lemma SaveStaysTried(log: seq<Effect>, longer: seq<Effect>)
    requires log <= longer && SaveTried(log)
    ensures SaveTried(longer)
  {
    var i :| 0 <= i < |log| && IsSave(log[i]);
    assert IsSave(longer[i]);
  }

  /** An effect that is no step of the teardown. */
  ghost predicate Kept(log: seq<Effect>, longer: seq<Effect>) {
    && log <= longer && Teardown(longer) == Teardown(log)
    && (SavedFirst(log) ==> SavedFirst(longer))
    && (SaveTried(log) ==> SaveTried(longer))
    && (SavedOnce(log) ==> SavedOnce(longer))
  }

  datatype TransferChoice = KeepOpen | CloseAfterTransfer | CancelAndClose

  predicate IsQuiet(event: Event) {
    event in {SavePromptStarted, SavePromptFinished, SaveKeepOpen, SaveDiscarded, SaveStarted, SaveFailed,
              ViewsDestroyed, WindowDestroyed, FileOperationCallStarted, FileOperationStarted,
              FileOperationFinished, FileOperationCallFinished, TransferKeepOpen,
              TransferCloseAfterTransfer, TransferCancelAndClose}
  }

  lemma QuietStep(s: State, event: Event)
    requires Consistent(s) && IsQuiet(event)
    ensures var t := Next(s, event).state;
      && t.wait == s.wait && t.end == s.end && t.close.closing == s.close.closing && Consistent(t)
      && (t.close.markerArmed ==> s.close.markerArmed)
  {
  }

  lemma OneMoreReplayed(log: seq<Effect>, messages: seq<Message>, i: nat, longer: seq<Effect>, ok: bool)
    requires i < |messages| && IsReplay(log, messages[..i], longer) && Kept(log, longer)
    ensures IsReplay(log, messages[..i + 1], longer + [Replayed(messages[i], ok)])
    ensures Kept(log, longer + [Replayed(messages[i], ok)])
  {
    var next := longer + [Replayed(messages[i], ok)];
    Appended(longer, Replayed(messages[i], ok));
    forall k | |log| <= k < |next| ensures next[k].Replayed? && next[k].message == messages[..i + 1][k - |log|] {
      assert k < |longer| ==> next[k] == longer[k] && messages[..i][k - |log|] == messages[k - |log|];
    }
  }

  class Application {
    const sequence: ShutdownSequence
    const hasWindow: bool
    const held: HeldQueue
    var windowAlive: bool
    /** Posted continuations that have not arrived yet. */
    var pending: nat
    var log: seq<Effect>
    /** How many more times the outside world acts: calls that come in and posts that fail. */
    var surprises: nat

    ghost function S(): State
      reads this, sequence
    {
      sequence.Current()
    }

    ghost predicate Basic()
      reads this, sequence
    {
      Sound(S(), log, pending)
    }

    ghost predicate Safe()
      reads this, sequence
    {
      Basic() && NoLostClose(S(), hasWindow)
    }

    constructor (hasWindow: bool, surprises: nat)
      ensures Safe() && S() == INITIAL && log == [] && fresh(sequence) && fresh(held)
      ensures this.hasWindow == hasWindow && this.surprises == surprises
    {
      sequence := new ShutdownSequence();
      held := new HeldQueue();
      this.hasWindow, windowAlive := hasWindow, hasWindow;
      pending, log, this.surprises := 0, [], surprises;
    }

    method Record(e: Effect)
      modifies this`log
      ensures log == old(log) + [e]
      ensures Teardown(log) == Teardown(old(log)) + StageOf(e)
      ensures SavedFirst(old(log)) && (e.DestroyingViews? ==> SaveTried(old(log))) ==> SavedFirst(log)
      ensures SaveTried(old(log)) || IsSave(e) ==> SaveTried(log)
      ensures SavedOnce(old(log)) || IsGoodSave(e) ==> SavedOnce(log)
    {
      Appended(log, e);
      log := log + [e];
    }

    /** post_deferred_shutdown(): a post to a live window fails only finitely often. */
    method PostContinuation() returns (ok: bool)
      modifies this`log, this`pending, this`surprises
      ensures Kept(old(log), log) && log == old(log) + [ContinuationPosted(ok)]
      ensures pending == old(pending) + (if ok then 1 else 0)
      ensures surprises <= old(surprises) && (!ok && windowAlive ==> surprises < old(surprises))
    {
      ok := windowAlive;
      if ok && surprises > 0 {
        var fails: bool := *;
        if fails {
          surprises := surprises - 1;
          ok := false;
        }
      }
      if ok { pending := pending + 1; }
      Record(ContinuationPosted(ok));
    }

    /** An event that leaves the gates and the teardown as they are. */
    method Feed(event: Event) returns (action: Action)
      requires Basic() && IsQuiet(event)
      modifies sequence
      ensures Basic() && S().wait == old(S()).wait && S().end == old(S()).end
      ensures S().close.closing == old(S()).close.closing
      ensures NoLostClose(old(S()), hasWindow) == NoLostClose(S(), hasWindow)
      ensures Outcome(S(), action) == Next(old(S()), event)
    {
      QuietStep(S(), event);
      action := sequence.Step(event);
    }

    // ----- ShutdownCoordinator

    method RequestClose()
      requires Safe()
      modifies this, sequence, held
      ensures Safe() && Follows(old(S()), old(log), S(), log) && surprises <= old(surprises)
      ensures hasWindow && windowAlive && Takes(old(S())) ==> S().wait.deferred
      ensures CloseAnswered(old(S()), old(log), S(), log)
      decreases surprises, 10
    {
      Begin(!sequence.end.pending);
    }

    method Begin(allowKeepOpen: bool)
      requires Safe() && allowKeepOpen == !S().end.pending
      modifies this, sequence, held
      ensures Safe() && Follows(old(S()), old(log), S(), log) && surprises <= old(surprises)
      ensures hasWindow && windowAlive && Takes(old(S())) ==> S().wait.deferred
      ensures CloseAnswered(old(S()), old(log), S(), log)
      decreases surprises, 9
    {
      var action := sequence.Step(if allowKeepOpen then CloseRequested else EndSession);
      Run(action);
    }

    /** The posted continuation has left the message queue. */
    method DeferredShutdownReady()
      requires Safe()
      modifies this, sequence, held
      ensures Safe() && Follows(old(S()), old(log), S(), log) && surprises <= old(surprises)
      ensures var s := old(S());
        s.wait.deferred && s.wait.depth == 0 && s.wait.drags == 0 && !s.close.promptActive && !s.close.saveAttempted
        ==> |log| > |old(log)| && log[|old(log)|].SessionSaved?
      ensures |log| > |old(log)| && log[|old(log)|].SessionSaved? && log[|old(log)|].ok ==> S().close.closing
      ensures var s := old(S());
        s.wait.deferred && (s.wait.depth != 0 || s.wait.drags != 0)
        ==> S() == s.(wait := s.wait.(queued := false)) && log == old(log)
      ensures !old(S()).wait.deferred ==> S() == old(S()) && log == old(log)
      decreases surprises, 9
    {
      if pending > 0 { pending := pending - 1; }
      var action := sequence.Step(Event.DeferredShutdownReady);
      Run(action);
    }

    method DragChanged(entering: bool)
      requires Safe()
      modifies this, sequence, held
      ensures Safe() && Follows(old(S()), old(log), S(), log) && surprises <= old(surprises)
      ensures entering ==>
        S() == old(S()).(wait := old(S()).wait.(drags := old(S()).wait.drags + 1, dragging := true))
        && log == old(log)
      ensures !entering && old(S()).wait.drags == 0 ==> S() == old(S()) && log == old(log)
      ensures !entering && old(S()).wait.drags > 0 ==>
        var gates := old(S()).wait;
        var s := old(S()).(wait := gates.(drags := gates.drags - 1, dragging := gates.drags > 1));
        if s.ReadyToResume() then
          && |log| > |old(log)| && log[|old(log)|] == Caption(true)
          && (hasWindow && windowAlive && Takes(Released(s)) ==> S().wait.deferred)
        else S() == s && log == old(log)
      decreases surprises, 9
    {
      var action := sequence.Step(if entering then DragStarted else DragFinished);
      if action == Defer { Run(action); }
    }

    method CompleteDeferredClose()
      requires Safe()
      modifies this, sequence, held
      ensures Safe() && Follows(old(S()), old(log), S(), log) && surprises <= old(surprises)
      ensures var s := old(S());
        s.transfer.closeAfter && !s.transfer.callActive && hasWindow && windowAlive && Takes(s) ==> S().wait.deferred
      ensures var s := old(S());
        if s.transfer.closeAfter && !s.transfer.callActive && !s.transfer.inProgress && !s.close.closing && hasWindow
        then |log| > |old(log)| && log[|old(log)|] == TransferPrompt(false)
        else S() == s && log == old(log)
      decreases surprises, 11
    {
      if !sequence.transfer.closeAfter || sequence.transfer.callActive || sequence.transfer.inProgress
         || sequence.close.closing || !hasWindow { return; }
      Record(TransferPrompt(false));
      RequestClose();
    }

    method TransferChosen(choice: TransferChoice)
      requires Safe()
      modifies this, sequence, held
      ensures Safe() && Follows(old(S()), old(log), S(), log) && surprises <= old(surprises)
      ensures choice == KeepOpen ==>
        S() == old(S()).(transfer := old(S()).transfer.(closeAfter := false, cancel := false)) && log == old(log)
      ensures choice == CancelAndClose ==>
        S() == old(S()).(transfer := old(S()).transfer.(closeAfter := true, cancel := true)) && log == old(log)
      ensures choice == CloseAfterTransfer && (old(S()).transfer.callActive || old(S()).transfer.inProgress) ==>
        S() == old(S()).(transfer := old(S()).transfer.(closeAfter := true, cancel := false)) && log == old(log)
      ensures var s := old(S());
        choice == CloseAfterTransfer && !s.transfer.callActive && hasWindow && windowAlive && Takes(s)
        ==> S().wait.deferred
      decreases surprises, 12
    {
      match choice {
        case KeepOpen => var _ := sequence.Step(TransferKeepOpen);
        case CloseAfterTransfer =>
          var _ := sequence.Step(TransferCloseAfterTransfer);
          CompleteDeferredClose();
        case CancelAndClose => var _ := sequence.Step(TransferCancelAndClose);
      }
    }

    /** The checkpoint comes first, whatever the state; the teardown only if nothing is in its way. */
    method EndSessionConfirmed()
      requires Safe()
      modifies this, sequence, held
      ensures Safe() && Follows(old(S()), old(log), S(), log) && surprises <= old(surprises)
      ensures |log| > |old(log)| && log[|old(log)|].CheckpointWritten?
      ensures var s := old(S());
        && !s.CloseUnderWay() && !s.close.quitRequested && !s.transfer.callActive && !s.transfer.inProgress
        && s.wait.depth == 0 && !s.wait.dragging
        ==> S().close.closing
      ensures var s := old(S());
        !s.close.closing && !s.close.quitRequested && (s.transfer.callActive || s.transfer.inProgress)
        ==> && S().transfer == s.transfer.(closeAfter := true, cancel := true) && S().wait == s.wait
            && S().close == s.close && |log| == |old(log)| + 1
      ensures var s := old(S());
        && !s.close.closing && !s.close.quitRequested && !s.transfer.callActive && !s.transfer.inProgress
        && (s.wait.drags != 0 || (s.wait.depth != 0 && !Laws.Busy(s)))
        ==> S().wait == s.wait.(deferred := true) && S().close == s.close && |log| == |old(log)| + 1
      ensures old(S()).close.closing ==> S().close == old(S()).close && |log| == |old(log)| + 1
      decreases surprises, 9
    {
      hide Teardown, SavedFirst, SaveTried, SavedOnce;
      var action := sequence.Step(EndSession);
      var saved: bool := *;
      Record(CheckpointWritten(saved));
      if sequence.close.closing { return; }
      if action != Defer || sequence.wait.depth != 0 || sequence.wait.dragging { return; }
      CloseAfterCheckpoint(saved);
    }

    /** Mark the save attempt only now that the teardown will go ahead. */
    method CloseAfterCheckpoint(saved: bool)
      requires Basic() && S().end.pending && SaveTried(log) && (saved ==> SavedOnce(log))
      modifies this, sequence, held
      ensures Safe() && Follows(old(S()), old(log), S(), log) && surprises <= old(surprises)
      ensures S().close.closing
      decreases surprises, 8
    {
      hide Teardown, SavedFirst, SaveTried, SavedOnce;
      var _ := Feed(SaveStarted);
      var next := sequence.Step(if saved then SaveSucceeded else SaveFailed);
      Run(next);
    }

    method EndSessionCancelled()
      requires Safe()
      modifies this, sequence, held
      ensures Safe() && Follows(old(S()), old(log), S(), log) && surprises == old(surprises)
      ensures S() == OnEndSessionCancelled(old(S()))
      ensures log == old(log) + if old(S()).end.pending && !S().close.closing && !S().wait.deferred
                                then [Caption(false)] else []
      decreases surprises, 1
    {
      var wasPending := sequence.end.pending;
      var _ := sequence.Step(Event.EndSessionCancelled);
      if wasPending && !sequence.Current().ShuttingDown() { Record(Caption(false)); }
    }

    /** The views first, and the window only once they are gone. */
    method Finish()
      requires Basic() && SaveTried(log)
      modifies this, sequence, held
      ensures Safe() && Follows(old(S()), old(log), S(), log) && surprises <= old(surprises)
      ensures S().close.closing
      ensures if old(S()).close.closing then log == old(log) && S() == old(S())
              else |log| > |old(log)| && log[|old(log)|] == DestroyingViews(old(S()).end.pending)
      decreases surprises, 3
    {
      hide Teardown, SavedFirst, SaveTried, SavedOnce;
      var started := StartTeardown();
      if !started { return; }
      DestroyAll();
    }

    /** Never the parent window while a view is alive. */
    method DestroyAll()
      requires Safe() && S().close.closing && Teardown(log) == [ViewsGoing]
      modifies this, sequence, held
      ensures Safe() && S().close.closing && S().wait.depth == old(S()).wait.depth
      ensures old(log) <= log && Teardown(log) == WHOLE && surprises <= old(surprises)
      decreases surprises, 2
    {
      hide Teardown, SavedFirst, SaveTried, SavedOnce;
      DestroyTheViews();
      var action := Feed(ViewsDestroyed);
      if action == DestroyWindow { DestroyTheWindow(); }
    }

    /** Granted once; the pending session end is forgotten by it, so it is read first. */
    method StartTeardown() returns (started: bool)
      requires Basic() && SaveTried(log)
      modifies this`log, sequence
      ensures Safe() && S().close.closing && S().wait.depth == old(S()).wait.depth && old(log) <= log
      ensures started == !old(S()).close.closing
      ensures !started ==> S() == old(S())
      ensures if started then Teardown(log) == [ViewsGoing] && log == old(log) + [DestroyingViews(old(S()).end.pending)]
              else log == old(log)
    {
      hide Teardown, SavedFirst, SaveTried, SavedOnce;
      var ending := sequence.end.pending;
      var action := sequence.Step(TeardownStarted);
      if action != DestroyViews { return false; }
      Record(DestroyingViews(ending));
      return true;
    }

    /** destroy_views(): messages are pumped meanwhile. */
    method DestroyTheViews()
      requires Safe() && S().close.closing && Teardown(log) == [ViewsGoing]
      modifies this, sequence, held
      ensures Safe() && S().close.closing && S().wait.depth == old(S()).wait.depth
      ensures old(log) <= log && Teardown(log) == [ViewsGoing, ViewsWent] && surprises <= old(surprises)
      decreases surprises, 1
    {
      hide Teardown, SavedFirst, SaveTried, SavedOnce;
      Interrupt();
      Record(ViewsGone);
    }

    /** destroy_window(): WM_DESTROY arrives before it returns. */
    method DestroyTheWindow()
      requires Safe() && S().close.closing && Teardown(log) == [ViewsGoing, ViewsWent]
      modifies this, sequence, held
      ensures Safe() && S().close.closing && S().wait.depth == old(S()).wait.depth
      ensures old(log) <= log && Teardown(log) == WHOLE && surprises <= old(surprises)
    {
      hide Teardown, SavedFirst, SaveTried, SavedOnce;
      Record(DestroyingWindow);
      if windowAlive { WindowGoes(); }
    }

    method Run(action: Action)
      requires Basic()
      requires action != Defer && action != DestroyViews ==> NoLostClose(S(), hasWindow)
      requires action == Defer ==> S().wait.deferred
      requires action == DestroyViews || action == PromptSaveFailure ==> SaveTried(log)
      modifies this, sequence, held
      ensures Safe() && Follows(old(S()), old(log), S(), log) && surprises <= old(surprises)
      ensures action == Defer && hasWindow && windowAlive && Takes(Released(old(S()))) ==> S().wait.deferred
      ensures action == SaveSession ==> |log| > |old(log)| && log[|old(log)|].SessionSaved?
      ensures action == DestroyViews ==> S().close.closing
      ensures action == SaveSession && log[|old(log)|].ok ==> S().close.closing
      ensures action == Nothing ==> log == old(log) && S() == old(S())
      ensures action == Defer ==> |log| > |old(log)| && log[|old(log)|] == Caption(true)
      ensures action == PromptTransfer ==> log == old(log) + [TransferPrompt(true)] && S() == old(S())
      ensures action == PromptSaveFailure ==> |log| > |old(log)| && log[|old(log)|] == SavePrompt
      ensures action == DestroyViews && !old(S()).close.closing ==>
        |log| > |old(log)| && log[|old(log)|] == DestroyingViews(old(S()).end.pending)
      ensures action == SaveSession && !old(S()).close.closing && (log[|old(log)|].ok || old(S()).end.pending) ==>
        |log| > |old(log)| + 1 && log[|old(log)| + 1] == DestroyingViews(old(S()).end.pending)
      ensures action == SaveSession && !log[|old(log)|].ok && !old(S()).end.pending ==>
        |log| > |old(log)| + 1 && log[|old(log)| + 1] == SavePrompt
      decreases surprises, RunRank(action)
    {
      match action {
        case Defer => QueueContinuation();
        case PromptTransfer => Record(TransferPrompt(true));
        case SaveSession => SaveTheSession();
        case PromptSaveFailure => AskKeepOpen();
        case DestroyViews => Finish();
        case _ =>
      }
    }

    /** The branch of run() that yields to the message loop. */
    method QueueContinuation()
      requires Basic() && S().wait.deferred
      modifies this, sequence, held
      ensures Safe() && Follows(old(S()), old(log), S(), log) && surprises <= old(surprises)
      ensures hasWindow && windowAlive && Takes(Released(old(S()))) ==> S().wait.deferred
      ensures |log| > |old(log)| && log[|old(log)|] == Caption(true)
      decreases surprises, 2
    {
      Record(Caption(true));
      if sequence.wait.depth != 0 || sequence.wait.queued || !hasWindow { return; }
      Post();
    }

    /** Post the continuation; if that fails, forget the deferred shutdown and ask again. */
    method Post()
      requires Basic() && S().wait.deferred && !S().wait.queued && hasWindow
      modifies this, sequence, held
      ensures Safe() && Follows(old(S()), old(log), S(), log) && surprises <= old(surprises)
      ensures windowAlive && Takes(Released(old(S()))) ==> S().wait.deferred
      decreases surprises, 1
    {
      var _ := sequence.Step(DeferredShutdownQueued);
      var ok := PostContinuation();
      if ok { return; }
      var _ := sequence.Step(DeferredShutdownQueueFailed);
      if windowAlive { RequestClose(); }
    }

    /** The branch of run() that saves. */
    method SaveTheSession()
      requires Safe()
      modifies this, sequence, held
      ensures Safe() && Follows(old(S()), old(log), S(), log) && surprises <= old(surprises)
      ensures |log| > |old(log)| && log[|old(log)|].SessionSaved?
      ensures log[|old(log)|].ok || old(S()).end.pending ==> S().close.closing
      ensures !old(S()).close.closing && (log[|old(log)|].ok || old(S()).end.pending) ==>
        |log| > |old(log)| + 1 && log[|old(log)| + 1] == DestroyingViews(old(S()).end.pending)
      ensures !log[|old(log)|].ok && !old(S()).end.pending ==>
        |log| > |old(log)| + 1 && log[|old(log)| + 1] == SavePrompt
      decreases surprises, 7
    {
      hide Teardown, SavedFirst, SaveTried, SavedOnce;
      var saved: bool := *;
      Record(SessionSaved(saved));
      var next := sequence.Step(if saved then SaveSucceeded else SaveFailed);
      Run(next);
    }

    /** The branch of run() that asks whether to keep the window open after a failed save. */
    method AskKeepOpen()
      requires Safe() && SaveTried(log)
      modifies this, sequence, held
      ensures Safe() && Follows(old(S()), old(log), S(), log) && surprises <= old(surprises)
      ensures |log| > |old(log)| && log[|old(log)|] == SavePrompt
      decreases surprises, 5
    {
      PromptOpen();
      var keepOpen: bool := *;
      PromptAnswered(keepOpen);
    }

    /** The modal prompt, which pumps messages. */
    method PromptOpen()
      requires Safe() && SaveTried(log)
      modifies this, sequence, held
      ensures Safe() && Follows(old(S()), old(log), S(), log) && surprises <= old(surprises)
      ensures SaveTried(log) && |log| > |old(log)| && log[|old(log)|] == SavePrompt
      decreases surprises, 1
    {
      hide Teardown, SavedFirst, SaveTried, SavedOnce;
      var _ := Feed(SavePromptStarted);
      Record(SavePrompt);
      Interrupt();
      SaveStaysTried(old(log), log);
    }

    /** A session end confirmed while the prompt was open wins over the answer. */
    method PromptAnswered(keepOpen: bool)
      requires Safe() && SaveTried(log)
      modifies this, sequence, held
      ensures Safe() && Follows(old(S()), old(log), S(), log) && surprises <= old(surprises)
      ensures old(S()).end.pending || !keepOpen ==> S().close.closing
      ensures keepOpen && !old(S()).end.pending ==>
        && S() == old(S()).(close := old(S()).close.(
                              promptActive := false, saveAttempted := false, markerArmed := false))
        && log == old(log) + [Caption(false)]
      decreases surprises, 4
    {
      hide Teardown, SavedFirst, SaveTried, SavedOnce;
      var action := Feed(SavePromptFinished);
      if action == DestroyViews {
        Finish();
        return;
      }
      TakeAnswer(keepOpen);
    }

    /** Only an explicit No closes after a failed save. */
    method TakeAnswer(keepOpen: bool)
      requires Safe() && SaveTried(log)
      modifies this, sequence, held
      ensures Safe() && Follows(old(S()), old(log), S(), log) && surprises <= old(surprises)
      ensures !keepOpen ==> S().close.closing
      ensures keepOpen ==>
        && S() == old(S()).(close := old(S()).close.(
                              promptActive := false, saveAttempted := false, markerArmed := false))
        && log == old(log) + [Caption(false)]
      decreases surprises, 4, 0
    {
      hide Teardown, SavedFirst, SaveTried, SavedOnce;
      if keepOpen {
        var _ := Feed(SaveKeepOpen);
        Record(Caption(false));
      } else {
        var _ := Feed(SaveDiscarded);
        Finish();
      }
    }

    // ----- ShellReentryGuard

    method Enter()
      requires Safe()
      modifies sequence
      ensures Safe() && S() == old(S()).(wait := old(S()).wait.(depth := old(S()).wait.depth + 1))
    {
      var _ := sequence.Step(ShellCallEntered);
    }

    method Leave()
      requires Safe() && S().wait.depth > 0
      modifies this, sequence, held
      ensures Safe() && surprises <= old(surprises)
      ensures Follows(old(S()).(wait := old(S()).wait.(depth := old(S()).wait.depth - 1)), old(log), S(), log)
      ensures old(S()).wait.depth > 1 ==>
        && S() == old(S()).(wait := old(S()).wait.(depth := old(S()).wait.depth - 1))
        && log == old(log) && held.held == old(held.held)
      ensures var s := old(S());
        s.wait.depth == 1 && s.ShuttingDown() && (s.close.closing || s.wait.queued || s.wait.drags != 0 || !hasWindow)
        ==> S() == s.(wait := s.wait.(depth := 0)) && log == old(log) && held.held == []
      ensures old(S()).wait.depth == 1 && !old(S()).ShuttingDown() ==>
        S() == old(S()).(wait := old(S()).wait.(depth := 0)) && IsReplay(old(log), old(held.held), log)
      decreases surprises, 9
    {
      var action := sequence.Step(ShellCallLeft);
      if sequence.wait.depth == 0 { ReplayHeld(); }
      if action != Defer || sequence.wait.queued { return; }
      if !hasWindow { return; }
      Post();
    }

    /** Whatever was held goes back to the message loop in order, unless a shutdown is under way;
        the queue is emptied first in any case. */
    method ReplayHeld()
      requires Basic()
      modifies this`log, held
      ensures Basic() && Kept(old(log), log) && held.held == []
      ensures S().ShuttingDown() ==> log == old(log)
      ensures !S().ShuttingDown() ==> IsReplay(old(log), old(held.held), log)
    {
      var waiting := held.Take();
      if sequence.Current().ShuttingDown() { return; }
      PostAgain(waiting);
    }

    method PostAgain(waiting: seq<Message>)
      modifies this`log
      ensures Kept(old(log), log) && IsReplay(old(log), waiting, log)
    {
      for i := 0 to |waiting|
        invariant Kept(old(log), log) && IsReplay(old(log), waiting[..i], log)
      {
        var targetAlive: bool := *;
        var posted: bool := *;
        OneMoreReplayed(old(log), waiting, i, log, targetAlive && posted);
        Record(Replayed(waiting[i], targetAlive && posted));
      }
      assert waiting[..|waiting|] == waiting;
    }

    // ----- The outside world

    /** WM_DESTROY: a session that is still unsaved is saved on the way out. */
    method WindowGoes()
      requires Safe()
      modifies this, sequence, held
      ensures Safe() && Follows(old(S()), old(log), S(), log) && surprises == old(surprises)
      ensures !windowAlive && S().close.windowDestroyed && S().close.quitRequested
      ensures old(S()).close.saveAttempted ==> log == old(log)
      ensures log == old(log) || (|log| == |old(log)| + 1 && log[|old(log)|].SessionSaved? && S().close.saveAttempted)
      decreases surprises, 0
    {
      hide Teardown, SavedFirst, SaveTried, SavedOnce;
      windowAlive := false;
      var _ := sequence.Step(WindowDestroyed);
      var dirty: bool := *;
      if dirty && !sequence.close.saveAttempted {
        var _ := sequence.Step(SaveStarted);
        var saved: bool := *;
        Record(SessionSaved(saved));
      }
    }

    /** finalize_process(): the clean marker is written only for a window that is gone after a session that was
        saved. */
    method FinalizeProcess() returns (marked: bool)
      requires Safe()
      ensures marked <==> S().close.markerArmed && S().close.windowDestroyed
      ensures marked ==> SavedOnce(log)
    {
      marked := sequence.close.markerArmed && sequence.close.windowDestroyed;
    }

    /** The message loop turns: any number of calls, in any order, each of which may be interrupted
        again. */
    method Interrupt()
      requires Safe()
      modifies this, sequence, held
      ensures Safe() && Follows(old(S()), old(log), S(), log) && surprises <= old(surprises)
      decreases surprises, 0
    {
      var more: bool := *;
      while more && surprises > 0
        invariant Safe() && Follows(old(S()), old(log), S(), log) && surprises <= old(surprises)
        decreases surprises
      {
        surprises := surprises - 1;
        OneCall();
        more := *;
      }
    }

    method OneCall()
      requires Safe()
      modifies this, sequence, held
      ensures Safe() && Follows(old(S()), old(log), S(), log) && surprises <= old(surprises)
      decreases surprises, 20
    {
      hide Teardown, SavedFirst, SaveTried, SavedOnce;
      var choice: int := *;
      var entering: bool := *;
      match choice {
        case 0 => RequestClose();
        case 1 => if pending > 0 { DeferredShutdownReady(); }
        case 2 => DragChanged(entering);
        case 3 => EndSessionConfirmed();
        case 4 => EndSessionCancelled();
        case 5 => TransferChosen(KeepOpen);
        case 6 => TransferChosen(CloseAfterTransfer);
        case 7 => TransferChosen(CancelAndClose);
        case 8 => CompleteDeferredClose();
        case 9 => var _ := sequence.Step(FileOperationCallStarted);
        case 10 => var _ := sequence.Step(FileOperationStarted);
        case 11 => var _ := sequence.Step(FileOperationFinished);
        case 12 => var _ := sequence.Step(FileOperationCallFinished);
        case 13 => if windowAlive { WindowGoes(); }
        case 14 => HoldAny();
        case _ => ShellCall();
      }
    }

    /** An interaction that arrives while a Shell call pumps messages. */
    method HoldAny()
      modifies held
    {
      var target: int, kind: int, wparam: int, lparam: int := *, *, *, *;
      var _ := held.HoldMessage(Message(target, kind, wparam, lparam), ReplacesPrevious(kind));
    }

    /** A Shell call that pumps messages, in its ShellCallScope. */
    method ShellCall()
      requires Safe()
      modifies this, sequence, held
      ensures Safe() && Follows(old(S()), old(log), S(), log) && surprises <= old(surprises)
      decreases surprises, 15
    {
      Enter();
      Interrupt();
      Leave();
    }
  }

  // ----- Whole runs

  lemma {:induction false} StagesSeen(log: seq<Effect>)
    ensures ViewsGoing in Teardown(log) <==> exists i | 0 <= i < |log| :: log[i].DestroyingViews?
    ensures ViewsWent in Teardown(log) <==> exists i | 0 <= i < |log| :: log[i].ViewsGone?
    ensures WindowGoing in Teardown(log) <==> exists i | 0 <= i < |log| :: log[i].DestroyingWindow?
  {
    if log != [] {
      var shorter, e := log[..|log| - 1], log[|log| - 1];
      StagesSeen(shorter);
      assert forall i | 0 <= i < |shorter| :: log[i] == shorter[i];
      assert forall i | 0 <= i < |log| :: i < |shorter| || log[i] == e;
    }
  }

  /** The views are destroyed at most once and after a save attempt; the window at most once, and
      only after the destruction of the views has returned. */
  ghost predicate OrderlyTeardown(log: seq<Effect>) {
    && (forall i, j | 0 <= i < j < |log| :: !(log[i].DestroyingViews? && log[j].DestroyingViews?))
    && (forall i, j | 0 <= i < j < |log| :: !(log[i].DestroyingWindow? && log[j].DestroyingWindow?))
    && (forall j | 0 <= j < |log| && log[j].DestroyingViews? :: SaveTried(log[..j]))
    && (forall j | 0 <= j < |log| && log[j].DestroyingWindow? :: exists i | 0 <= i < j :: log[i].ViewsGone?)
    && (forall j | 0 <= j < |log| && log[j].ViewsGone? :: exists i | 0 <= i < j :: log[i].DestroyingViews?)
  }

  lemma {:induction false} SoundLogsAreOrderly(log: seq<Effect>)
    requires SavedFirst(log) && Teardown(log) <= WHOLE
    ensures OrderlyTeardown(log)
  {
    if log != [] {
      var shorter, e := log[..|log| - 1], log[|log| - 1];
      assert forall i | 0 <= i < |shorter| :: log[i] == shorter[i] && log[..i] == shorter[..i];
      SoundLogsAreOrderly(shorter);
      StagesSeen(shorter);
      assert Teardown(shorter) + StageOf(e) <= WHOLE;
      LastStage(Teardown(shorter), e);
      OneMoreOrderly(log);
    }
  }

  /** What the teardown so far must be for one more step to keep its order. */
  lemma LastStage(stages: seq<Stage>, e: Effect)
    requires stages + StageOf(e) <= WHOLE
    ensures e.DestroyingViews? ==> ViewsGoing !in stages
    ensures e.ViewsGone? ==> ViewsGoing in stages
    ensures e.DestroyingWindow? ==> ViewsWent in stages && WindowGoing !in stages
  {
    var more := stages + StageOf(e);
    assert forall i | 0 <= i < |more| :: more[i] == WHOLE[i];
    if StageOf(e) != [] {
      assert more[|stages|] == StageOf(e)[0];
      assert forall i | 0 <= i < |stages| :: stages[i] == more[i];
      assert |stages| > 0 ==> stages[0] == ViewsGoing;
      assert |stages| > 1 ==> stages[1] == ViewsWent;
    }
  }

  lemma OneMoreOrderly(log: seq<Effect>)
    requires log != [] && OrderlyTeardown(log[..|log| - 1]) && SavedFirst(log)
    requires var shorter, e := log[..|log| - 1], log[|log| - 1];
      && (e.DestroyingViews? ==> !exists i | 0 <= i < |shorter| :: shorter[i].DestroyingViews?)
      && (e.ViewsGone? ==> exists i | 0 <= i < |shorter| :: shorter[i].DestroyingViews?)
      && (e.DestroyingWindow? ==>
            && (exists i | 0 <= i < |shorter| :: shorter[i].ViewsGone?)
            && !exists i | 0 <= i < |shorter| :: shorter[i].DestroyingWindow?)
    ensures OrderlyTeardown(log)
  {
    var shorter := log[..|log| - 1];
    assert forall i | 0 <= i < |shorter| :: log[i] == shorter[i];
  }

  /** Every run of the application, from its start: however calls, scopes, drags, session ends and
      failing posts are interleaved and nested, the teardown is orderly and no close is lost. */
  method AnyRun(hasWindow: bool, surprises: nat) returns (app: Application, marked: bool)
    ensures OrderlyTeardown(app.log)
    ensures app.S().wait.depth == 0
    ensures hasWindow && app.S().wait.deferred && app.S().wait.drags == 0 ==> app.S().wait.queued && app.pending > 0
    ensures app.S().close.closing ==> Teardown(app.log) == WHOLE
    ensures !app.S().close.closing ==> Teardown(app.log) == []
    ensures marked <==> app.S().close.markerArmed && app.S().close.windowDestroyed
    ensures app.S().close.markerArmed ==> SavedOnce(app.log)
  {
    app := new Application(hasWindow, surprises);
    app.Interrupt();
    SoundLogsAreOrderly(app.log);
    marked := app.FinalizeProcess();
  }
}
