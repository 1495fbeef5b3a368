/** What a resume sees: the saved cursor, the receipts and the journal agree on the calls without a known outcome. */
module DispatchResume {
  import opened Wrappers
  import opened Protocol
  import opened Dispatch
  import opened DispatchSafety
  import Continuation

  /** The call was started, and neither a result nor a finish nor a reconciliation of it is on record. */
  predicate Unsettled(s: State, key: Key) {
    OpenedIn(Visible(s), key) && !ClosedIn(Visible(s), key) && !HasResult(s, key)
  }

  /** Something is on record about the outcome of the call that no crash takes away. */
  predicate DurablySettled(s: State, key: Key) {
    HasResult(s, key) || ClosedIn(s.committed, key)
  }

  /** The step saves that a started call was observed while nothing durable tells its outcome. */
  predicate ObservesOpen(s: State, a: Action, key: Key) {
    && a.TakeTransition? && a.event == Continuation.Observed(key.1) && s.run == key.0
    && Enabled(s, a) && (a.written || a.acknowledged)
    && OpenedIn(Visible(s), key) && !DurablySettled(s, key)
  }

  ghost predicate ObservedOpen(actions: seq<Action>, key: Key) {
    exists n {:trigger ObservesOpen(After(actions[..n]), actions[n], key)} ::
      0 <= n < |actions| && ObservesOpen(After(actions[..n]), actions[n], key)
  }

  // ------------------------------------------------------------------------
  // The invariant of one call; `observed` says that it was observed open
  // ------------------------------------------------------------------------

  ghost predicate CursorFacts(s: State, c: Continuation.RunCursor, key: Key, observed: bool) {
    && Continuation.WellFormedBatch(c.pending) && Continuation.Ids(c.pending) <= c.seenTools
    && (key.0 == c.runId ==> CallFacts(s, c, key, observed))
  }

  ghost predicate CallFacts(s: State, c: Continuation.RunCursor, key: Key, observed: bool) {
    && (OpenedIn(Visible(s), key) || key in s.receipts ==> key.1 in c.seenTools)
    && (observed ==> key.1 !in Continuation.Ids(c.pending))
    && (c.state.WaitingForInput? && c.state.request.id == key.1 ==> HasResult(s, key))
    && (key in s.receipts ==> forall call | call in c.pending && call.id == key.1 :: call == s.receipts[key].call)
  }

  ghost predicate SavedAsPending(s: State, key: Key, observed: bool) {
    Unfinished(s) && s.stored.value.runId == key.0 && OpenedIn(Visible(s), key) && !DurablySettled(s, key) && !observed
    ==> key.1 in Continuation.Ids(s.stored.value.pending)
  }

  ghost predicate ResumeInv(s: State, key: Key, observed: bool) {
    && CallInv(s, key)
    && (s.stored.Some? ==> CursorFacts(s, s.stored.value, key, observed))
    && (s.alive ==> s.live.runId == s.run && CursorFacts(s, s.live, key, observed))
    && (s.alive && s.current ==> s.stored == Some(s.live))
    && (s.threads != map[] ==> s.alive && s.current)
    && (key in s.threads ==> s.threads[key].call in s.live.pending && !HasResult(s, key))
    && (observed ==> key in s.receipts)
    && SavedAsPending(s, key, observed)
  }

  // ------------------------------------------------------------------------
  // Steps that write to the journal
  // ------------------------------------------------------------------------

  lemma JournaledMembers(s: State, events: seq<RunEvent>, fate: AppendFate, key: Key)
    ensures var s' := Journaled(s, events, fate);
            && (OpenedIn(Visible(s'), key) ==> OpenedIn(Visible(s), key) || OpenedIn(events, key))
            && (ClosedIn(s.committed, key) ==> ClosedIn(s'.committed, key))
  {
    if !fate.NotRepaired? {
      var q := JournaledShape(s, events, fate);
      var s' := Journaled(s, events, fate);
      var n := |s.committed|;
      assert forall i | 0 <= i < n :: s'.committed[i] == s.committed[i] == Visible(s)[i];
      if OpenedIn(Visible(s'), key) {
        var i :| 0 <= i < |Visible(s')| && Opens(Visible(s')[i], key);
        assert Visible(s')[i] == if i < n then Visible(s)[i] else events[i - n];
      }
    }
  }

  /** Only the journal and the program counters differ, and only a call under way may have been started. */
  ghost predicate SameButJournal(s: State, s': State, key: Key) {
    && s'.receipts == s.receipts && s'.stored == s.stored && s'.live == s.live
    && s'.current == s.current && s'.alive == s.alive && s'.run == s.run
    && s'.threads.Keys == s.threads.Keys
    && (key in s.threads ==> s'.threads[key].call == s.threads[key].call)
    && (OpenedIn(Visible(s'), key) ==> OpenedIn(Visible(s), key) || key in s.threads)
    && (ClosedIn(s.committed, key) ==> ClosedIn(s'.committed, key))
  }

  lemma JournalKeepsResume(s: State, s': State, key: Key, observed: bool)
    requires ResumeInv(s, key, observed) && SameButJournal(s, s', key) && CallInv(s', key)
    ensures ResumeInv(s', key, observed)
  {
    assert key in s.threads ==> s.alive && key == (s.run, s.threads[key].call.id);
    hide CallInv, OpenedIn, ClosedIn, Continuation.WellFormedBatch;
    assert key in s.threads ==> key.1 in Continuation.Ids(s.live.pending);
  }

  lemma StartKeepsResume(s: State, id: string, name: string, idempotencyKey: string, fate: AppendFate,
                         key: Key, observed: bool)
    requires ResumeInv(s, key, observed) && AtPc(s, id, Noted)
    ensures ResumeInv(StartedCall(s, id, name, idempotencyKey, fate), key, observed)
  {
    var events := Numbered(s.run, s.counter, [ToolAuthorized(id, name), ToolStarted(id, name, idempotencyKey)]);
    JournaledMembers(s, events, fate, key);
    StartKeepsCall(s, id, name, idempotencyKey, fate, key);
    assert OpenedIn(events, key) ==> key == (s.run, id);
    JournalKeepsResume(s, StartedCall(s, id, name, idempotencyKey, fate), key, observed);
  }

  lemma ReportKeepsResume(s: State, id: string, ending: Ending, fate: AppendFate, key: Key, observed: bool)
    requires ResumeInv(s, key, observed) && AtPc(s, id, Ran)
    ensures ResumeInv(ReportedCall(s, id, ending, fate), key, observed)
  {
    ReportKeepsCall(s, id, ending, fate, key);
    if !ending.NoEvent? {
      var kind := if ending.Finished? then ToolFinished(id, ending.isError) else ToolOutcomeUnknown(id);
      JournaledMembers(s, Numbered(s.run, s.counter, [kind]), fate, key);
    }
    JournalKeepsResume(s, ReportedCall(s, id, ending, fate), key, observed);
  }

  lemma ReconcileKeepsResume(s: State, reconciled: Key, resolution: string, fate: AppendFate,
                             key: Key, observed: bool)
    requires ResumeInv(s, key, observed) && reconciled in Project(Visible(s))
    ensures ResumeInv(Reconciled(s, reconciled, resolution, fate), key, observed)
  {
    ReconcileKeepsCall(s, reconciled, resolution, fate, key);
    JournaledMembers(s, [ReconcileEvent(s, reconciled, resolution)], fate, key);
    JournalKeepsResume(s, Reconciled(s, reconciled, resolution, fate), key, observed);
  }

  lemma OtherKindKeepsResume(s: State, kind: EventKind, fate: AppendFate, key: Key, observed: bool)
    requires ResumeInv(s, key, observed) && !IsToolEvent(kind)
    ensures ResumeInv(Emit(s, [kind], fate), key, observed)
  {
    OtherKindKeepsCall(s, kind, fate, key);
    JournaledMembers(s, Numbered(s.run, s.counter, [kind]), fate, key);
    JournalKeepsResume(s, Emit(s, [kind], fate), key, observed);
  }

  /** The record of a run that is not live is saved as cancelled. */
  lemma RecordCancelKeepsResume(s: State, key: Key, observed: bool)
    requires ResumeInv(s, key, observed) && Unfinished(s) && !(s.alive && s.run == s.stored.value.runId)
    ensures ResumeInv(s.(stored := Some(s.stored.value.(state := Continuation.RunState.Finished(Cancelled)))),
                      key, observed)
  {
    var saved := s.(stored := Some(s.stored.value.(state := Continuation.RunState.Finished(Cancelled))));
    assert CallInv(saved, key) && Visible(saved) == Visible(s);
    hide CallInv, OpenedIn, ClosedIn, Continuation.WellFormedBatch;
  }

  lemma CancelKeepsResume(s: State, written: bool, acknowledged: bool, fate: AppendFate, key: Key, observed: bool)
    requires ResumeInv(s, key, observed) && Unfinished(s) && !(s.alive && s.run == s.stored.value.runId)
    ensures ResumeInv(CancelStored(s, written, acknowledged, fate), key, observed)
  {
    var c := s.stored.value;
    var saved := s.(stored := Some(c.(state := Continuation.RunState.Finished(Cancelled))));
    RecordCancelKeepsResume(s, key, observed);
    CancelKeepsCall(s, written, acknowledged, fate, key);
    if acknowledged {
      var event := RunEvent(1, MaxSequence(Visible(s), c.runId) + 1, c.runId, RunFinished(Cancelled));
      JournaledMembers(saved, [event], fate, key);
      hide CallInv, CursorFacts, SavedAsPending;
      JournalKeepsResume(saved, CancelStored(s, written, acknowledged, fate), key, observed);
    }
  }

  // ------------------------------------------------------------------------
  // Steps that write receipts
  // ------------------------------------------------------------------------

  lemma NoteKeepsResume(s: State, id: string, written: bool, acknowledged: bool, key: Key, observed: bool)
    requires ResumeInv(s, key, observed) && AtPc(s, id, Checked)
    requires CallInv(NotedPending(s, id, written, acknowledged), key)
    ensures ResumeInv(NotedPending(s, id, written, acknowledged), key, observed)
  {
    ThreadIsPending(s, key, observed);
    var s' := NotedPending(s, id, written, acknowledged);
    assert Visible(s') == Visible(s);
    hide CallInv, OpenedIn, ClosedIn;
  }

  lemma SaveKeepsResume(s: State, id: string, written: bool, key: Key, observed: bool)
    requires ResumeInv(s, key, observed) && AtPc(s, id, Reported)
    requires CallInv(SavedCall(s, id, written), key)
    ensures ResumeInv(SavedCall(s, id, written), key, observed)
  {
    ThreadIsPending(s, key, observed);
    var s' := SavedCall(s, id, written);
    assert Visible(s') == Visible(s);
    hide CallInv, OpenedIn, ClosedIn;
  }

  /** The call under way is the pending call of its id, and was not observed. */
  lemma ThreadIsPending(s: State, key: Key, observed: bool)
    requires ResumeInv(s, key, observed)
    ensures key in s.threads ==>
              && key == (s.live.runId, s.threads[key].call.id) && s.threads[key].call in s.live.pending && !observed
              && key.1 in s.live.seenTools && s.stored == Some(s.live)
              && forall call | call in s.live.pending && call.id == key.1 :: call == s.threads[key].call
  {
    if key in s.threads {
      var pending, call := s.live.pending, s.threads[key].call;
      assert call.id in Continuation.Ids(pending);
      forall other | other in pending && other.id == key.1
        ensures other == call
      {
        OneCallOfId(pending, call, other);
      }
    }
  }

  lemma OneCallOfId(calls: seq<ToolCall>, a: ToolCall, b: ToolCall)
    requires Continuation.DistinctIds(calls) && a in calls && b in calls && a.id == b.id
    ensures a == b
  {
    var i :| 0 <= i < |calls| && calls[i] == a;
    var j :| 0 <= j < |calls| && calls[j] == b;
    assert !(i < j) && !(j < i);
  }

  lemma DispatchKeepsResume(s: State, call: ToolCall, key: Key, observed: bool)
    requires ResumeInv(s, key, observed) && MayDispatch(s, call)
    ensures ResumeInv(s.(threads := s.threads[(s.run, call.id) := Thread(call, Checked)]), key, observed)
  {
    DispatchKeepsCall(s, call, key);
    assert call.id in Continuation.Ids(s.live.pending);
    hide CallInv, OpenedIn, ClosedIn;
  }

  // ------------------------------------------------------------------------
  // Steps of the cursor
  // ------------------------------------------------------------------------

  /** What a transition leaves pending was pending or is new; what it takes away was observed or answered. */
  lemma TransitionShape(c: Continuation.RunCursor, event: Continuation.Transition)
    requires Continuation.Reduce(c, event).Ok?
    requires Continuation.WellFormedBatch(c.pending) && Continuation.Ids(c.pending) <= c.seenTools
    ensures var next := Continuation.Next(c, event);
            && next.runId == c.runId && c.seenTools <= next.seenTools
            && Continuation.WellFormedBatch(next.pending) && Continuation.Ids(next.pending) <= next.seenTools
            && (forall call | call in next.pending :: call in c.pending || call.id !in c.seenTools)
            && (forall call | call in c.pending ::
                  call in next.pending || event == Continuation.Observed(call.id)
                  || (c.state.WaitingForInput? && c.state.request.id == call.id))
            && (event.Observed? ==> event.observedId !in Continuation.Ids(next.pending))
            && (next.state.WaitingForInput? ==> next.state == c.state || event == Continuation.Wait(next.state.request))
  {
    match event
    case Selected(calls) =>
      assert forall i | 0 <= i < |calls| :: calls[i].id != "" && calls[i].id !in c.seenTools;
    case Observed(id) => Continuation.WithoutMembers(c.pending, id);
    case Answer(id) => Continuation.WithoutMembers(c.pending, id);
    case _ =>
  }

  lemma TransitionKeepsFacts(s: State, event: Continuation.Transition, key: Key, observed: bool)
    requires CursorFacts(s, s.live, key, observed) && s.live.runId == s.run && MayTake(s, event)
    requires observed ==> key in s.receipts
    ensures CursorFacts(s, Continuation.Next(s.live, event), key, observed)
    ensures key.0 == s.run && event == Continuation.Observed(key.1) ==>
              key.1 !in Continuation.Ids(Continuation.Next(s.live, event).pending)
  {
    TransitionShape(s.live, event);
    hide Continuation.WellFormedBatch, Continuation.Reduce, Continuation.Next, OpenedIn;
  }

  /** Facts of a cursor that the step leaves alone, and of what was observed just now. */
  lemma TakeKeepsResume(s: State, event: Continuation.Transition, written: bool, acknowledged: bool,
                        key: Key, observed: bool, observesOpen: bool)
    requires ResumeInv(s, key, observed) && MayTake(s, event)
    requires observesOpen <==>
             && event == Continuation.Observed(key.1) && s.run == key.0 && (written || acknowledged)
             && OpenedIn(Visible(s), key) && !DurablySettled(s, key)
    ensures ResumeInv(SaveLive(s.(live := Continuation.Next(s.live, event)), written, acknowledged),
                      key, observed || observesOpen)
  {
    TransitionKeepsFacts(s, event, key, observed);
    TransitionShape(s.live, event);
    var moved := s.(live := Continuation.Next(s.live, event));
    var s' := SaveLive(moved, written, acknowledged);
    assert Visible(s') == Visible(s) && s'.receipts == s.receipts;
    assert observesOpen ==> key in s.receipts;
    assert event.Finish? <==> (moved.live.state.Finished? && !s.live.state.Finished?);
    assert key.0 == s.run && event == Continuation.Observed(key.1) ==>
        key.1 !in Continuation.Ids(moved.live.pending);
    hide CallInv, OpenedIn, ClosedIn, Continuation.WellFormedBatch, Continuation.Reduce, Continuation.Next;
  }

  lemma BeginKeepsResume(s: State, run: RunId, key: Key, observed: bool)
    requires ResumeInv(s, key, observed) && Enabled(s, BeginRun(run))
    ensures ResumeInv(Apply(s, BeginRun(run)), key, observed)
  {
  }

  lemma SaveFirstKeepsResume(s: State, written: bool, acknowledged: bool, key: Key, observed: bool)
    requires ResumeInv(s, key, observed) && Enabled(s, SaveFirst(written, acknowledged))
    ensures ResumeInv(SaveLive(s, written, acknowledged), key, observed)
  {
  }

  lemma ReopenKeepsResume(s: State, run: RunId, key: Key, observed: bool)
    requires ResumeInv(s, key, observed) && Enabled(s, Resume(run))
    ensures ResumeInv(Apply(s, Resume(run)), key, observed)
  {
  }

  lemma MoveKeepsResume(s: State, a: Action, key: Key, observed: bool)
    requires ResumeInv(s, key, observed) && Enabled(s, a)
    requires a.Crash? || a.ExitEarly? || a.Abort? || a.RunTool?
    requires CallInv(Step(s, a), key)
    ensures ResumeInv(Step(s, a), key, observed)
  {
    hide CallInv, OpenedIn, ClosedIn;
    assert Visible(Step(s, a)) == Visible(s);
    if !a.Crash? {
      JournalKeepsResume(s, Step(s, a), key, observed);
    }
  }

  lemma StepKeepsResume(s: State, a: Action, key: Key, observed: bool)
    requires ResumeInv(s, key, observed)
    ensures ResumeInv(Step(s, a), key, observed || ObservesOpen(s, a, key))
  {
    StepKeepsCall(s, a, key);
    if Enabled(s, a) {
      hide ResumeInv, CallInv, OpenedIn, ClosedIn, StartedCall, ReportedCall, Reconciled, Emit, CancelStored,
        MayDispatch, MayTake, IsNewRun, NotedPending, SavedCall;
      match a
      case Start(id, name, idempotencyKey, fate) => StartKeepsResume(s, id, name, idempotencyKey, fate, key, observed);
      case Report(id, ending, fate) => ReportKeepsResume(s, id, ending, fate, key, observed);
      case Reconcile(reconciled, resolution, fate) =>
        ReconcileKeepsResume(s, reconciled, resolution, fate, key, observed);
      case EmitOther(kind, fate) => OtherKindKeepsResume(s, kind, fate, key, observed);
      case CancelOffline(written, acknowledged, fate) =>
        CancelKeepsResume(s, written, acknowledged, fate, key, observed);
      case Dispatch(call) => DispatchKeepsResume(s, call, key, observed);
      case NotePending(id, written, acknowledged) => NoteKeepsResume(s, id, written, acknowledged, key, observed);
      case SaveResult(id, written) => SaveKeepsResume(s, id, written, key, observed);
      case TakeTransition(event, written, acknowledged) =>
        TakeKeepsResume(s, event, written, acknowledged, key, observed, ObservesOpen(s, a, key));
      case BeginRun(run) => BeginKeepsResume(s, run, key, observed);
      case SaveFirst(written, acknowledged) => SaveFirstKeepsResume(s, written, acknowledged, key, observed);
      case Resume(run) => ReopenKeepsResume(s, run, key, observed);
      case _ => MoveKeepsResume(s, a, key, observed);
    }
  }

  // ------------------------------------------------------------------------
  // Main results
  // ------------------------------------------------------------------------

  lemma ObservedOpenNext(actions: seq<Action>, key: Key)
    requires actions != []
    ensures var n := |actions| - 1;
            ObservedOpen(actions, key) <==>
            ObservedOpen(actions[..n], key) || ObservesOpen(After(actions[..n]), actions[n], key)
  {
    var n := |actions| - 1;
    assert forall i | 0 <= i < n :: actions[..n][..i] == actions[..i];
    if ObservedOpen(actions[..n], key) {
      var i :| 0 <= i < n && ObservesOpen(After(actions[..n][..i]), actions[..n][i], key);
      assert ObservesOpen(After(actions[..i]), actions[i], key);
    }
    if ObservedOpen(actions, key) {
      var i :| 0 <= i <= n && ObservesOpen(After(actions[..i]), actions[i], key);
      assert i < n ==> ObservesOpen(After(actions[..n][..i]), actions[..n][i], key);
    }
  }

  lemma {:induction false} ResumeInvAlways(actions: seq<Action>, key: Key)
    ensures ResumeInv(After(actions), key, ObservedOpen(actions, key))
    decreases |actions|
  {
    hide ResumeInv;
    if actions == [] {
      InitialResumeInv(key);
    } else {
      var n := |actions| - 1;
      ResumeInvAlways(actions[..n], key);
      StepKeepsResume(After(actions[..n]), actions[n], key, ObservedOpen(actions[..n], key));
      ObservedOpenNext(actions, key);
    }
  }

  lemma InitialResumeInv(key: Key)
    ensures ResumeInv(INITIAL, key, false)
  {
  }

  /**
   A call of the saved unfinished run whose outcome is on no record is in the saved pending list, except exactly
   when its observation was saved while neither its result nor its finish was.
   */
  lemma UnsettledIsPendingExactly(actions: seq<Action>, id: string)
    requires Unfinished(After(actions))
    requires Unsettled(After(actions), (After(actions).stored.value.runId, id))
    ensures id in Continuation.Ids(After(actions).stored.value.pending) <==>
            !ObservedOpen(actions, (After(actions).stored.value.runId, id))
  {
    var s := After(actions);
    var key := (s.stored.value.runId, id);
    ResumeInvAlways(actions, key);
    VisibleKeepsClosed(s, key);
  }

  lemma VisibleKeepsClosed(s: State, key: Key)
    ensures ClosedIn(s.committed, key) ==> ClosedIn(Visible(s), key)
  {
    assert forall i | 0 <= i < |s.committed| :: Visible(s)[i] == s.committed[i];
  }

  /** What a resume refuses: a pending call whose outcome is on no record. A receipt never is for something else. */
  lemma RefusedExactly(actions: seq<Action>, call: ToolCall)
    requires Unfinished(After(actions)) && call in After(actions).stored.value.pending
    ensures var s := After(actions);
            var run := s.stored.value.runId;
            Refuses(SavedDispatch(s, run, call)) <==> Unsettled(s, (run, call.id))
  {
    ResumeInvAlways(actions, (After(actions).stored.value.runId, call.id));
  }

  /**
   Over every run of the protocol: a call is dispatched exactly when the live run is running with its cursor saved,
   the call is pending and not under way, nothing in the journal starts, finishes or reconciles it, and no result
   of it is saved.
   */
  lemma DispatchesExactly(actions: seq<Action>, call: ToolCall)
    ensures var s := After(actions);
            Enabled(s, Dispatch(call)) <==>
            && s.alive && s.current && s.live.state == Continuation.RunState.Running && call in s.live.pending
            && (s.run, call.id) !in s.threads
            && (forall i | 0 <= i < |Visible(s)| && Visible(s)[i].runId == s.run ::
                  !Decides(Visible(s)[i].kind, call.id))
            && ((s.run, call.id) in s.receipts ==> !s.receipts[(s.run, call.id)].done)
  {
    var s := After(actions);
    var key := (s.run, call.id);
    ResumeInvAlways(actions, key);
    UntouchedMeaning(Visible(s), key);
    if s.alive && call in s.live.pending && key in s.receipts {
      LiveReceiptMatches(s, call, ObservedOpen(actions, key));
    }
    hide ResumeInv, Decides;
  }

  lemma UntouchedMeaning(events: seq<RunEvent>, key: Key)
    ensures Untouched(events, key) <==>
            forall i | 0 <= i < |events| && events[i].runId == key.0 :: !Decides(events[i].kind, key.1)
  {
    forall i | 0 <= i < |events|
      ensures Touches(events[i], key) <==> events[i].runId == key.0 && Decides(events[i].kind, key.1)
    {
    }
  }

  lemma LiveReceiptMatches(s: State, call: ToolCall, observed: bool)
    requires ResumeInv(s, (s.run, call.id), observed) && s.alive
    requires call in s.live.pending && (s.run, call.id) in s.receipts
    ensures s.receipts[(s.run, call.id)].call == call
  {
  }

  /** The thread of a key runs the call of that key. */
  predicate CallOfKey(s: State, id: string)
    requires (s.run, id) in s.threads
  {
    s.threads[(s.run, id)].call.id == id
  }

  lemma ResultSettles(s: State, id: string)
    requires AtPc(s, id, Reported) && CallOfKey(s, id)
    ensures SavedDispatch(SavedCall(s, id, true), s.run, s.threads[(s.run, id)].call).Known?
  {
  }

  lemma FinishSettles(s: State, id: string, isError: bool)
    requires AtPc(s, id, Ran) && CallOfKey(s, id)
    requires (s.run, id) in s.receipts && s.receipts[(s.run, id)].call == s.threads[(s.run, id)].call
    ensures SavedDispatch(ReportedCall(s, id, Finished(isError), Done), s.run, s.threads[(s.run, id)].call).Known?
  {
    var s' := ReportedCall(s, id, Finished(isError), Done);
    var finish := Numbered(s.run, s.counter, [ToolFinished(id, isError)])[0];
    assert Visible(s')[|s.committed|] == finish && Closes(finish, (s.run, id));
  }

  /** Once its result is saved or its finish is in the journal, the call is answered from the record. */
  lemma OutcomeSettles(actions: seq<Action>, id: string, a: Action)
    requires Enabled(After(actions), a)
    requires a == SaveResult(id, true) || (a.Report? && a.id == id && a.ending.Finished? && a.fate.Done?)
    ensures var s := After(actions);
            && (s.run, id) in s.threads
            && SavedDispatch(After(actions + [a]), s.run, s.threads[(s.run, id)].call).Known?
  {
    var s, key := After(actions), (After(actions).run, id);
    assert (actions + [a])[..|actions|] == actions;
    ResumeInvAlways(actions, key);
    UnderWayMatches(s, id, ObservedOpen(actions, key));
    hide SavedDispatch, ResumeInv, ReportedCall, SavedCall;
    if a.Report? {
      FinishSettles(s, id, a.ending.isError);
    } else {
      ResultSettles(s, id);
    }
  }

  lemma UnderWayMatches(s: State, id: string, observed: bool)
    requires ResumeInv(s, (s.run, id), observed) && (s.run, id) in s.threads
    ensures CallOfKey(s, id)
    ensures (s.run, id) in s.receipts ==> s.receipts[(s.run, id)].call == s.threads[(s.run, id)].call
    ensures AtPc(s, id, Ran) ==> (s.run, id) in s.receipts
  {
    hide OpenedIn, ClosedIn, StartIsFirst;
  }

  ghost predicate OneRun(s: State) {
    s.alive ==> s.live.runId == s.run && (Unfinished(s) ==> s.stored.value.runId == s.run)
  }

  lemma StepKeepsOneRun(s: State, a: Action)
    requires OneRun(s)
    ensures OneRun(Step(s, a))
    ensures Unfinished(s) ==> Step(s, a).stored.Some? && Step(s, a).stored.value.runId == s.stored.value.runId
  {
    hide Continuation.Reduce, Continuation.Next, MayDispatch, NothingRefused, IsNewRun, Emit, Reconciled;
    if a.TakeTransition? {
      Continuation.StepFacts(s.live, a.event);
    }
    JournalLeavesRun(s, a);
  }

  lemma JournalLeavesRun(s: State, a: Action)
    ensures a.Start? || a.Report? || a.EmitOther? || a.Reconcile? ==>
              var s' := Step(s, a);
              s'.stored == s.stored && s'.live == s.live && s'.alive == s.alive && s'.run == s.run
  {
    hide Enabled, Visible, Numbered, ReconcileEvent;
    if Enabled(s, a) {
      forall events, fate
        ensures var s' := Journaled(s, events, fate);
                s'.stored == s.stored && s'.live == s.live && s'.alive == s.alive && s'.run == s.run
      {
      }
      hide Journaled;
    }
  }

  lemma {:induction false} OneRunAlways(actions: seq<Action>)
    ensures OneRun(After(actions))
    decreases |actions|
  {
    if actions != [] {
      OneRunAlways(actions[..|actions| - 1]);
      StepKeepsOneRun(After(actions[..|actions| - 1]), actions[|actions| - 1]);
    }
  }

  /** The record of an unfinished run is never replaced by that of another run. */
  lemma {:induction false} UnfinishedRunIsKept(actions: seq<Action>, n: nat)
    requires n < |actions| && forall m | n <= m < |actions| :: Unfinished(After(actions[..m]))
    ensures Unfinished(After(actions[..n])) && After(actions).stored.Some?
    ensures After(actions).stored.value.runId == After(actions[..n]).stored.value.runId
    decreases |actions|
  {
    var last := |actions| - 1;
    var earlier := actions[..last];
    assert forall m | 0 <= m <= last :: earlier[..m] == actions[..m];
    assert Unfinished(After(actions[..n])) && Unfinished(After(actions[..last]));
    OneRunAlways(earlier);
    StepKeepsOneRun(After(earlier), actions[last]);
    if n < last {
      UnfinishedRunIsKept(earlier, n);
    }
  }

  /** A cancelled run is over: it cannot be resumed. */
  lemma CancelEndsRun(s: State, written: bool, fate: AppendFate)
    requires Enabled(s, CancelOffline(written, true, fate))
    ensures var s' := Step(s, CancelOffline(written, true, fate));
            && s'.stored == Some(s.stored.value.(state := Continuation.RunState.Finished(Cancelled)))
            && !Enabled(s', Resume(s.stored.value.runId))
            && (fate.Done? ==>
                  && s'.torn == [] && |s'.committed| == |s.committed| + 1
                  && s'.committed[|s.committed|].runId == s.stored.value.runId
                  && s'.committed[|s.committed|].kind == RunFinished(Cancelled))
  {
  }

  /**
   Over every run of the protocol: the unfinished run can be resumed, as far as its calls are concerned, exactly
   when every started call without a recorded outcome had its observation saved all the same.
   */
  lemma ResumesExactly(actions: seq<Action>)
    requires Unfinished(After(actions)) && !After(actions).alive
    ensures var s := After(actions);
            var run := s.stored.value.runId;
            Enabled(s, Resume(run)) <==> forall id | Unsettled(s, (run, id)) :: ObservedOpen(actions, (run, id))
  {
    var s := After(actions);
    var run, pending := s.stored.value.runId, s.stored.value.pending;
    hide Unsettled, SavedDispatch;
    forall call | call in pending
      ensures Refuses(SavedDispatch(s, run, call)) <==> Unsettled(s, (run, call.id))
      ensures Unsettled(s, (run, call.id)) ==> !ObservedOpen(actions, (run, call.id))
    {
      RefusedExactly(actions, call);
      assert call.id in Continuation.Ids(pending);
      if Unsettled(s, (run, call.id)) {
        UnsettledIsPendingExactly(actions, call.id);
      }
    }
    forall id | Unsettled(s, (run, id)) && !ObservedOpen(actions, (run, id))
      ensures !NothingRefused(s, pending, run)
    {
      UnsettledIsPendingExactly(actions, id);
      var call :| call in pending && call.id == id;
      assert Refuses(SavedDispatch(s, run, call));
    }
  }

  /** An effect of the saved run without a recorded outcome keeps the run from being resumed. */
  lemma UnknownEffectBlocksResume(actions: seq<Action>, key: Key)
    requires After(actions).effects[key] == 1
    requires !ClosedIn(Visible(After(actions)), key) && !HasResult(After(actions), key)
    requires !ObservedOpen(actions, key)
    ensures !Enabled(After(actions), Resume(key.0))
  {
    var s := After(actions);
    if !s.alive && Unfinished(s) && s.stored.value.runId == key.0 {
      ResumeInvAlways(actions, key);
      VisibleContainsCommitted(s, key);
      ResumesExactly(actions);
      assert Unsettled(s, key) && key == (s.stored.value.runId, key.1);
    }
  }

  /** A crash right after the effect blocks the run until the effect is reconciled; then it resumes past the call. */
  lemma CrashAfterEffectNeedsReconciliation(resolution: string)
    ensures var crashed := After(UNTIL_EFFECT + [Crash]);
            var reconciled := Step(crashed, Reconcile((RUN, CALL.id), resolution, Done));
            && crashed.effects == multiset{(RUN, CALL.id)} && Unfinished(crashed) && !Enabled(crashed, Resume(RUN))
            && Enabled(crashed, Reconcile((RUN, CALL.id), resolution, Done))
            && Enabled(reconciled, Resume(RUN))
            && Step(reconciled, Resume(RUN)).live == WITH_CALL
            && !Enabled(Step(reconciled, Resume(RUN)), Dispatch(CALL))
  {
    FirstEffect();
    assert (UNTIL_EFFECT + [Crash])[..7] == UNTIL_EFFECT;
    var crashed, key := AT_EFFECT.(alive := false, threads := map[]), (RUN, CALL.id);
    assert After(UNTIL_EFFECT + [Crash]) == crashed;
    assert Visible(crashed) == STARTED_CALL && Opens(STARTED_CALL[1], key) && !ClosedIn(STARTED_CALL, key);
    assert CALL in WITH_CALL.pending;
    UnresolvedMeansStartedAndNotClosed(STARTED_CALL, key);
    var reconciled := Reconciled(crashed, key, resolution, Done);
    assert Closes(Visible(reconciled)[2], key);
  }

  // ------------------------------------------------------------------------
  // The exception is real
  // ------------------------------------------------------------------------

  const LOST_ENDING := [
    Report(CALL.id, Finished(false), NotRepaired), SaveResult(CALL.id, false),
    TakeTransition(Continuation.Observed(CALL.id), true, true), Crash]

  /** Finish and result fail to be written, the observation is saved: the run resumes past an unknown outcome. */
  lemma ObservedOpenIsResumed()
    ensures var s, key := After(UNTIL_EFFECT + LOST_ENDING), (RUN, CALL.id);
            && s.effects[key] == 1 && Unsettled(s, key) && Enabled(s, Resume(RUN))
            && ObservedOpen(UNTIL_EFFECT + LOST_ENDING, key)
  {
    var actions, key := UNTIL_EFFECT + LOST_ENDING, (RUN, CALL.id);
    FirstEffect();
    assert actions[..7] == UNTIL_EFFECT && actions[..11] == actions;
    forall n: nat | 7 <= n < 11 {
      AfterNext(actions, n);
    }
    EndingIsLost();
    ObservingSteps();
    assert ObservesOpen(After(actions[..9]), actions[9], key);
  }

  const OBSERVING := AT_EFFECT.(threads := map[], counter := 3)

  const OBSERVED := OBSERVING.(live := WITH_CALL.(pending := []), stored := Some(WITH_CALL.(pending := [])))

  lemma EndingIsLost()
    ensures Step(Step(AT_EFFECT, LOST_ENDING[0]), LOST_ENDING[1]) == OBSERVING
  {
    var key := (RUN, CALL.id);
    var reported := AT_EFFECT.(threads := map[key := Thread(CALL, Reported)], counter := 3);
    assert Step(AT_EFFECT, LOST_ENDING[0]) == reported;
    assert Step(reported, LOST_ENDING[1]) == OBSERVING;
  }

  lemma ObservingSteps()
    ensures Step(OBSERVING, LOST_ENDING[2]) == OBSERVED
    ensures ObservesOpen(OBSERVING, LOST_ENDING[2], (RUN, CALL.id))
    ensures var s := Step(OBSERVED, LOST_ENDING[3]);
            s.effects[(RUN, CALL.id)] == 1 && Unsettled(s, (RUN, CALL.id)) && Enabled(s, Resume(RUN))
  {
    var key := (RUN, CALL.id);
    assert Opens(STARTED_CALL[1], key);
    assert STARTED_CALL + [] == STARTED_CALL && !ClosedIn(STARTED_CALL, key);
    assert CALL in WITH_CALL.pending;
    assert Continuation.Without([CALL], CALL.id) == [];
    assert Continuation.Reduce(WITH_CALL, Continuation.Observed(CALL.id)) == Ok(WITH_CALL.(pending := []));
  }
}
