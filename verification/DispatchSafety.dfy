/** At most one effect for every call, in every interleaving of the dispatch protocol's steps. */
module DispatchSafety {
  import opened Wrappers
  import opened Protocol
  import opened Dispatch
  import Continuation

  ghost predicate StartIsFirst(events: seq<RunEvent>, key: Key) {
    forall i, j | 0 <= i < j < |events| && Touches(events[i], key) :: !Opens(events[j], key)
  }

  ghost predicate Untouched(events: seq<RunEvent>, key: Key) {
    !OpenedIn(events, key) && !ClosedIn(events, key)
  }

  ghost predicate ThreadInv(s: State, key: Key)
    requires key in s.threads
  {
    match s.threads[key].pc
    case Checked => s.effects[key] == 0 && Untouched(Visible(s), key)
    case Noted => s.effects[key] == 0 && Untouched(Visible(s), key) && key in s.receipts
    case Started => s.effects[key] == 0 && OpenedIn(s.committed, key) && key in s.receipts
    case Ran => OpenedIn(s.committed, key) && key in s.receipts
    case Reported => key in s.receipts
  }

  ghost predicate CallInv(s: State, key: Key) {
    && s.effects[key] <= 1
    && (s.effects[key] > 0 ==> OpenedIn(s.committed, key))
    && (s.effects[key] > 0 || !Untouched(Visible(s), key) ==> key in s.receipts)
    && StartIsFirst(Visible(s), key)
    && (key in s.threads ==> s.alive && key == (s.run, s.threads[key].call.id) && ThreadInv(s, key))
  }

  lemma VisibleContainsCommitted(s: State, key: Key)
    requires OpenedIn(s.committed, key)
    ensures OpenedIn(Visible(s), key)
  {
    var i :| 0 <= i < |s.committed| && Opens(s.committed[i], key);
    assert Visible(s)[i] == s.committed[i];
  }

  lemma JournaledCall(s: State, events: seq<RunEvent>, fate: AppendFate, key: Key)
    requires StartIsFirst(Visible(s), key) && StartIsFirst(events, key)
    requires OpenedIn(events, key) ==> Untouched(Visible(s), key)
    ensures var s' := Journaled(s, events, fate);
            && StartIsFirst(Visible(s'), key)
            && (OpenedIn(s.committed, key) ==> OpenedIn(s'.committed, key))
            && (OpenedIn(Visible(s'), key) ==> OpenedIn(Visible(s), key) || OpenedIn(events, key))
            && (ClosedIn(Visible(s'), key) ==> ClosedIn(Visible(s), key) || ClosedIn(events, key))
            && (fate.Done? && OpenedIn(events, key) ==> OpenedIn(s'.committed, key))
            && (fate.Done? && ClosedIn(events, key) ==> ClosedIn(Visible(s'), key))
  {
    if !fate.NotRepaired? {
      var q := JournaledShape(s, events, fate);
      var s' := Journaled(s, events, fate);
      assert Visible(s)[..|s.committed|] == s.committed;
      PrefixCall(Visible(s), |s.committed|, events, q, key);
      OpenedInLonger(s.committed, s'.committed, key);
      if fate.Done? {
        MembersAppended(s.committed, events, key);
        assert Visible(s') == s'.committed == s.committed + events;
      }
    }
  }

  /** A part of the old journal followed by a part of a batch. */
  lemma PrefixCall(old': seq<RunEvent>, n: nat, events: seq<RunEvent>, q: nat, key: Key)
    requires n <= |old'| && q <= |events|
    requires StartIsFirst(old', key) && StartIsFirst(events, key)
    requires OpenedIn(events, key) ==> Untouched(old', key)
    ensures var new' := old'[..n] + events[..q];
            && StartIsFirst(new', key)
            && (OpenedIn(new', key) ==> OpenedIn(old', key) || OpenedIn(events, key))
            && (ClosedIn(new', key) ==> ClosedIn(old', key) || ClosedIn(events, key))
  {
    var new' := old'[..n] + events[..q];
    assert forall i | 0 <= i < |new'| :: new'[i] == if i < n then old'[i] else events[i - n];
  }

  lemma OpenedInLonger(shorter: seq<RunEvent>, longer: seq<RunEvent>, key: Key)
    requires shorter <= longer
    ensures OpenedIn(shorter, key) ==> OpenedIn(longer, key)
  {
    assert forall i | 0 <= i < |shorter| :: longer[i] == shorter[i];
  }

  lemma MembersAppended(before: seq<RunEvent>, events: seq<RunEvent>, key: Key)
    ensures OpenedIn(events, key) ==> OpenedIn(before + events, key)
    ensures ClosedIn(events, key) ==> ClosedIn(before + events, key)
  {
    assert forall i | 0 <= i < |events| :: (before + events)[|before| + i] == events[i];
  }

  // ------------------------------------------------------------------------
  // Every step keeps the invariant of every call
  // ------------------------------------------------------------------------

  /** Events that belong to another call, or to none. */
  lemma OtherEventsKeepCall(s: State, events: seq<RunEvent>, fate: AppendFate, key: Key)
    requires CallInv(s, key)
    requires Untouched(events, key)
    ensures CallInv(Journaled(s, events, fate), key)
  {
    assert forall i | 0 <= i < |events| :: !Touches(events[i], key);
    JournaledCall(s, events, fate, key);
  }

  /** A finish or reconciliation of a call that has a receipt and is past its start. */
  lemma ClosingKeepsCall(s: State, e: RunEvent, fate: AppendFate, key: Key)
    requires CallInv(s, key) && Closes(e, key) && key in s.receipts
    requires key in s.threads ==> !s.threads[key].pc.Checked? && !s.threads[key].pc.Noted?
    ensures CallInv(Journaled(s, [e], fate), key)
  {
    assert !OpenedIn([e], key);
    JournaledCall(s, [e], fate, key);
  }

  lemma StartKeepsCall(s: State, id: string, name: string, idempotencyKey: string, fate: AppendFate, key: Key)
    requires CallInv(s, key) && AtPc(s, id, Noted)
    ensures CallInv(StartedCall(s, id, name, idempotencyKey, fate), key)
  {
    var kinds := [ToolAuthorized(id, name), ToolStarted(id, name, idempotencyKey)];
    var events := Numbered(s.run, s.counter, kinds);
    assert StartIsFirst(events, key);
    if key == (s.run, id) {
      assert Opens(events[1], key);
      JournaledCall(s, events, fate, key);
    } else {
      assert Untouched(events, key);
      OtherEventsKeepCall(s, events, fate, key);
    }
  }

  lemma ReportKeepsCall(s: State, id: string, ending: Ending, fate: AppendFate, key: Key)
    requires CallInv(s, key) && AtPc(s, id, Ran)
    ensures CallInv(ReportedCall(s, id, ending, fate), key)
  {
    hide StartIsFirst, OpenedIn, ClosedIn;
    if !ending.NoEvent? {
      var kind := if ending.Finished? then ToolFinished(id, ending.isError) else ToolOutcomeUnknown(id);
      ReportedEventKeepsCall(s, id, kind, fate, key);
    }
  }

  lemma ReportedEventKeepsCall(s: State, id: string, kind: EventKind, fate: AppendFate, key: Key)
    requires CallInv(s, key) && AtPc(s, id, Ran)
    requires kind == ToolOutcomeUnknown(id) || (kind.ToolFinished? && kind.toolUseId == id)
    ensures CallInv(Journaled(s, Numbered(s.run, s.counter, [kind]), fate), key)
  {
    var events := Numbered(s.run, s.counter, [kind]);
    assert events == [events[0]];
    if kind.ToolFinished? && key == (s.run, id) {
      ClosingKeepsCall(s, events[0], fate, key);
    } else {
      assert Untouched(events, key);
      OtherEventsKeepCall(s, events, fate, key);
    }
  }

  lemma ReconcileKeepsCall(s: State, reconciled: Key, resolution: string, fate: AppendFate, key: Key)
    requires CallInv(s, key) && reconciled in Project(Visible(s))
    ensures CallInv(Reconciled(s, reconciled, resolution, fate), key)
  {
    var event := ReconcileEvent(s, reconciled, resolution);
    if key == reconciled {
      ProjectMeaning(Visible(s), key);
      assert OpenedIn(Visible(s), key);
      ClosingKeepsCall(s, event, fate, key);
    } else {
      OtherEventsKeepCall(s, [event], fate, key);
    }
  }

  lemma OtherKindKeepsCall(s: State, kind: EventKind, fate: AppendFate, key: Key)
    requires CallInv(s, key) && !IsToolEvent(kind)
    ensures CallInv(Emit(s, [kind], fate), key)
  {
    var events := Numbered(s.run, s.counter, [kind]);
    assert events == [events[0]];
    OtherEventsKeepCall(s, events, fate, key);
  }

  lemma CancelKeepsCall(s: State, written: bool, acknowledged: bool, fate: AppendFate, key: Key)
    requires CallInv(s, key) && Unfinished(s)
    ensures CallInv(CancelStored(s, written, acknowledged, fate), key)
  {
    if acknowledged {
      var c := s.stored.value;
      var saved := s.(stored := Some(c.(state := Continuation.RunState.Finished(Cancelled))));
      var event := RunEvent(1, MaxSequence(Visible(s), c.runId) + 1, c.runId, RunFinished(Cancelled));
      assert CallInv(saved, key);
      OtherEventsKeepCall(saved, [event], fate, key);
    }
  }

  lemma DispatchKeepsCall(s: State, call: ToolCall, key: Key)
    requires CallInv(s, key) && MayDispatch(s, call)
    ensures CallInv(s.(threads := s.threads[(s.run, call.id) := Thread(call, Checked)]), key)
  {
    if s.effects[key] > 0 {
      VisibleContainsCommitted(s, key);
    }
  }

  lemma NoteKeepsCall(s: State, id: string, written: bool, acknowledged: bool, key: Key)
    requires CallInv(s, key) && AtPc(s, id, Checked)
    ensures CallInv(NotedPending(s, id, written, acknowledged), key)
  {
    hide StartIsFirst, OpenedIn, ClosedIn;
  }

  lemma SaveKeepsCall(s: State, id: string, written: bool, key: Key)
    requires CallInv(s, key) && AtPc(s, id, Reported)
    ensures CallInv(SavedCall(s, id, written), key)
  {
    hide StartIsFirst, OpenedIn, ClosedIn;
  }

  /** Steps that move a call on, and those that touch no call. */
  lemma QuietStepKeepsCall(s: State, a: Action, key: Key)
    requires CallInv(s, key) && Enabled(s, a)
    requires || a.ExitEarly? || a.Abort? || a.RunTool? || a.Crash? || a.BeginRun? || a.Resume? || a.SaveFirst?
             || a.TakeTransition?
    ensures CallInv(Apply(s, a), key)
  {
    hide StartIsFirst, OpenedIn, ClosedIn, MayTake, IsNewRun, NothingRefused;
  }

  lemma StepKeepsCall(s: State, a: Action, key: Key)
    requires CallInv(s, key)
    ensures CallInv(Step(s, a), key)
  {
    hide CallInv, StartedCall, ReportedCall, Reconciled, Emit, CancelStored, NotedPending, SavedCall;
    hide MayDispatch, MayTake, IsNewRun, NothingRefused;
    if Enabled(s, a) {
      match a
      case Start(id, name, idempotencyKey, fate) => StartKeepsCall(s, id, name, idempotencyKey, fate, key);
      case Report(id, ending, fate) => ReportKeepsCall(s, id, ending, fate, key);
      case Reconcile(reconciled, resolution, fate) => ReconcileKeepsCall(s, reconciled, resolution, fate, key);
      case EmitOther(kind, fate) => OtherKindKeepsCall(s, kind, fate, key);
      case CancelOffline(written, acknowledged, fate) => CancelKeepsCall(s, written, acknowledged, fate, key);
      case Dispatch(call) => DispatchKeepsCall(s, call, key);
      case NotePending(id, written, acknowledged) => NoteKeepsCall(s, id, written, acknowledged, key);
      case SaveResult(id, written) => SaveKeepsCall(s, id, written, key);
      case _ => QuietStepKeepsCall(s, a, key);
    }
  }

  lemma {:induction false} CallInvAlways(actions: seq<Action>, key: Key)
    ensures CallInv(After(actions), key)
    decreases |actions|
  {
    if actions != [] {
      CallInvAlways(actions[..|actions| - 1], key);
      StepKeepsCall(After(actions[..|actions| - 1]), actions[|actions| - 1], key);
    }
  }

  // ------------------------------------------------------------------------
  // What the runs range over
  // ------------------------------------------------------------------------

  /** Every write may fail, be torn, or arrive without being acknowledged, and a tool may run or not. */
  lemma NoFailureIsExcluded(s: State, id: string, name: string, idempotencyKey: string, ending: Ending,
                            fate: AppendFate, written: bool, acknowledged: bool)
    requires s.alive && (s.run, id) in s.threads
    ensures Enabled(s, Crash)
    ensures match s.threads[(s.run, id)].pc
            case Checked => Enabled(s, NotePending(id, written, acknowledged))
            case Noted => Enabled(s, Start(id, name, idempotencyKey, fate)) && Enabled(s, ExitEarly(id))
            case Started => Enabled(s, RunTool(id)) && Enabled(s, Abort(id))
            case Ran => Enabled(s, Report(id, ending, fate))
            case Reported => Enabled(s, SaveResult(id, written))
  {
  }

  /** Between its calls a run may take any transition of its cursor, saved or not, acknowledged or not, or crash. */
  lemma NoTransitionIsExcluded(s: State, event: Continuation.Transition, written: bool, acknowledged: bool)
    requires s.alive && s.threads == map[] && s.current && Continuation.Reduce(s.live, event).Ok?
    requires event.Wait? ==> HasResult(s, (s.run, event.request.id))
    ensures Enabled(s, Crash) && Enabled(s, TakeTransition(event, written, acknowledged))
    ensures var s' := Step(s, TakeTransition(event, written, acknowledged));
            && Ok(s'.live) == Continuation.Reduce(s.live, event) && (s'.current <==> acknowledged)
            && s'.stored == if written || acknowledged then Some(s'.live) else s.stored
  {
  }

  // ------------------------------------------------------------------------
  // Main results
  // ------------------------------------------------------------------------

  /** Over every interleaving of steps, crashes, resumes and reconciliations a call's effect happens at most once. */
  lemma AtMostOnce(actions: seq<Action>, key: Key)
    ensures After(actions).effects[key] <= 1
  {
    CallInvAlways(actions, key);
  }

  /** An effect that happened is never forgotten: its start is durable and the call is never dispatched again. */
  lemma EffectIsRemembered(actions: seq<Action>, call: ToolCall, run: RunId)
    requires After(actions).effects[(run, call.id)] == 1
    ensures OpenedIn(After(actions).committed, (run, call.id))
    ensures !SavedDispatch(After(actions), run, call).Fresh?
  {
    CallInvAlways(actions, (run, call.id));
    VisibleContainsCommitted(After(actions), (run, call.id));
  }

  /**
   Resume refuses a call for an unknown outcome exactly when its receipt is pending and the
   journal projection lists it as unresolved, which is also when a reconciliation is accepted.
   */
  lemma RefusalIsUnresolved(actions: seq<Action>, call: ToolCall, run: RunId)
    ensures var s := After(actions);
            var key := (run, call.id);
            SavedDispatch(s, run, call).UnknownOutcome? <==>
            key in s.receipts && s.receipts[key] == Receipt(call, false) && key in Project(Visible(s))
  {
    var s, key := After(actions), (run, call.id);
    CallInvAlways(actions, key);
    UnresolvedMeansStartedAndNotClosed(Visible(s), key);
    if OpenedIn(Visible(s), key) && !ClosedIn(Visible(s), key) {
      var i :| 0 <= i < |Visible(s)| && Opens(Visible(s)[i], key);
      assert forall j | i < j < |Visible(s)| :: !Closes(Visible(s)[j], key);
    }
    if key in Project(Visible(s)) {
      var i :| && 0 <= i < |Visible(s)| && Opens(Visible(s)[i], key)
               && forall j | i < j < |Visible(s)| :: !Closes(Visible(s)[j], key);
      assert forall j | 0 <= j < i :: !Touches(Visible(s)[j], key);
      assert !ClosedIn(Visible(s), key);
    }
  }

  /** Reconciling every refused call, durably, lets the run resume. */
  lemma ReconciliationUnblocks(s: State, call: ToolCall, run: RunId, resolution: string)
    requires SavedDispatch(s, run, call).UnknownOutcome?
    requires Enabled(s, Reconcile((run, call.id), resolution, Done))
    ensures SavedDispatch(Step(s, Reconcile((run, call.id), resolution, Done)), run, call).Known?
  {
    var s' := Step(s, Reconcile((run, call.id), resolution, Done));
    assert Closes(Visible(s')[|s.committed|], (run, call.id));
  }
}
