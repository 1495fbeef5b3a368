/** Sequence numbers: every run's numbers increase in the journal, over crashes and resumptions. */
module Sequencing {
  import opened Wrappers
  import opened Protocol
  import opened Dispatch
  import Continuation

  ghost predicate Increasing(events: seq<RunEvent>) {
    forall i, j | 0 <= i < j < |events| && events[i].runId == events[j].runId ::
      events[i].sequence < events[j].sequence
  }

  ghost predicate AllAtMost(events: seq<RunEvent>, run: RunId, bound: nat) {
    forall i | 0 <= i < |events| && events[i].runId == run :: events[i].sequence <= bound
  }

  ghost predicate SequenceInv(s: State) {
    Increasing(Visible(s)) && (s.alive ==> AllAtMost(Visible(s), s.run, s.counter))
  }

  lemma {:induction false} MaxSequenceBounds(events: seq<RunEvent>, run: RunId)
    ensures AllAtMost(events, run, MaxSequence(events, run))
    ensures forall bound: nat | AllAtMost(events, run, bound) :: MaxSequence(events, run) <= bound
    decreases |events|
  {
    if events != [] {
      var earlier, last := events[..|events| - 1], events[|events| - 1];
      MaxSequenceBounds(earlier, run);
      forall bound: nat | AllAtMost(events, run, bound)
        ensures MaxSequence(events, run) <= bound
      {
        assert forall i | 0 <= i < |earlier| :: earlier[i] == events[i];
        assert AllAtMost(earlier, run, bound);
        assert events[|events| - 1] == last;
      }
    }
  }

  lemma {:induction false} MaxSequenceOccurs(events: seq<RunEvent>, run: RunId)
    ensures var max := MaxSequence(events, run);
            max == 0 || exists i :: 0 <= i < |events| && events[i].runId == run && events[i].sequence == max
    decreases |events|
  {
    if events != [] {
      var n := |events| - 1;
      MaxSequenceOccurs(events[..n], run);
      if i :| 0 <= i < n && events[..n][i].runId == run && events[..n][i].sequence == MaxSequence(events[..n], run) {
        assert events[i] == events[..n][i];
      }
    }
  }

  /** Appending numbers above every number of their run keeps the order, whatever part of the batch arrives. */
  lemma JournaledIncreasing(s: State, events: seq<RunEvent>, fate: AppendFate, run: RunId, low: nat, high: nat)
    requires Increasing(Visible(s)) && Increasing(events)
    requires AllAtMost(Visible(s), run, low) && low <= high
    requires forall i | 0 <= i < |events| :: events[i].runId == run && low < events[i].sequence <= high
    ensures var s' := Journaled(s, events, fate);
            && Increasing(Visible(s'))
            && AllAtMost(Visible(s'), run, high)
            && (forall other: RunId, bound: nat | other != run && AllAtMost(Visible(s), other, bound) ::
                  AllAtMost(Visible(s'), other, bound))
  {
    if !fate.NotRepaired? {
      var q := JournaledShape(s, events, fate);
      var s' := Journaled(s, events, fate);
      var n := |s.committed|;
      assert forall i | 0 <= i < n :: Visible(s)[i] == s.committed[i];
      assert forall i | 0 <= i < |Visible(s')| ::
          Visible(s')[i] == if i < n then Visible(s)[i] else events[i - n];
    }
  }

  /** At least one whole record of the batch is there for the loader. */
  predicate Arrives(events: seq<RunEvent>, fate: AppendFate) {
    events != [] && !fate.NotRepaired? && (fate.Partial? ==> fate.kept > 0 || fate.lastVisible)
  }

  /** Reconciling the run of the live process gives away the next number of that process, unless it is ahead. */
  predicate Collides(s: State, a: Action) {
    && a.Reconcile? && Enabled(s, a)
    && s.alive && a.key.0 == s.run && s.counter <= MaxSequence(Visible(s), s.run)
    && Arrives([ReconcileEvent(s, a.key, a.resolution)], a.fate)
  }

  /** The one kind of step that breaks the numbering. */
  lemma StepKeepsSequenceExactly(s: State, a: Action)
    requires SequenceInv(s)
    ensures SequenceInv(Step(s, a)) <==> !Collides(s, a)
  {
    if Enabled(s, a) {
      if a.Reconcile? {
        ReconcileKeepsSequence(s, a.key, a.resolution, a.fate);
      } else {
        OthersKeepSequence(s, a);
      }
    }
  }

  lemma OthersKeepSequence(s: State, a: Action)
    requires SequenceInv(s) && Enabled(s, a) && !a.Reconcile?
    ensures SequenceInv(Step(s, a))
  {
    hide Increasing, AllAtMost, MayTake, MayDispatch, NothingRefused, StartedCall, ReportedCall, CancelStored, Emit;
    match a
    case BeginRun(run) => BeginKeepsSequence(s, run);
    case Start(id, name, idempotencyKey, fate) => StartKeepsSequence(s, id, name, idempotencyKey, fate);
    case Report(id, ending, fate) => ReportKeepsSequence(s, id, ending, fate);
    case EmitOther(kind, fate) => EmitKeepsSequence(s, [kind], fate);
    case CancelOffline(written, acknowledged, fate) => CancelKeepsSequence(s, written, acknowledged, fate);
    case Resume(run) => MaxSequenceBounds(Visible(s), run);
    case _ =>
  }

  lemma BeginKeepsSequence(s: State, run: RunId)
    requires Increasing(Visible(s)) && IsNewRun(s, run)
    ensures AllAtMost(Visible(s), run, 0)
  {
  }

  lemma EmitKeepsSequence(s: State, kinds: seq<EventKind>, fate: AppendFate)
    requires SequenceInv(s) && s.alive
    ensures SequenceInv(Emit(s, kinds, fate))
  {
    JournaledIncreasing(s, Numbered(s.run, s.counter, kinds), fate, s.run, s.counter, s.counter + |kinds|);
  }

  lemma StartKeepsSequence(s: State, id: string, name: string, idempotencyKey: string, fate: AppendFate)
    requires SequenceInv(s) && AtPc(s, id, Noted)
    ensures SequenceInv(StartedCall(s, id, name, idempotencyKey, fate))
  {
    EmitKeepsSequence(s, [ToolAuthorized(id, name), ToolStarted(id, name, idempotencyKey)], fate);
  }

  lemma ReportKeepsSequence(s: State, id: string, ending: Ending, fate: AppendFate)
    requires SequenceInv(s) && AtPc(s, id, Ran)
    ensures SequenceInv(ReportedCall(s, id, ending, fate))
  {
    match ending
    case Finished(isError) => EmitKeepsSequence(s, [ToolFinished(id, isError)], fate);
    case OutcomeUnknown => EmitKeepsSequence(s, [ToolOutcomeUnknown(id)], fate);
    case NoEvent =>
  }

  lemma CancelKeepsSequence(s: State, written: bool, acknowledged: bool, fate: AppendFate)
    requires SequenceInv(s) && Unfinished(s) && !(s.alive && s.run == s.stored.value.runId)
    ensures SequenceInv(CancelStored(s, written, acknowledged, fate))
  {
    if acknowledged {
      var run := s.stored.value.runId;
      var saved := s.(stored := Some(s.stored.value.(state := Continuation.RunState.Finished(Cancelled))));
      var max := MaxSequence(Visible(s), run);
      MaxSequenceBounds(Visible(s), run);
      JournaledIncreasing(saved, [RunEvent(1, max + 1, run, RunFinished(Cancelled))], fate, run, max, max + 1);
    }
  }

  lemma ReconcileKeepsSequence(s: State, key: Key, resolution: string, fate: AppendFate)
    requires SequenceInv(s) && Enabled(s, Reconcile(key, resolution, fate))
    ensures SequenceInv(Reconciled(s, key, resolution, fate)) <==> !Collides(s, Reconcile(key, resolution, fate))
  {
    var event, max := ReconcileEvent(s, key, resolution), MaxSequence(Visible(s), key.0);
    var s' := Reconciled(s, key, resolution, fate);
    MaxSequenceBounds(Visible(s), key.0);
    JournaledIncreasing(s, [event], fate, key.0, max, max + 1);
    if !fate.NotRepaired? {
      if Arrives([event], fate) {
        ArrivedIsVisible(s, event, fate);
        NumberIsTaken(s, event, Visible(s'));
      } else {
        NothingArrived(s, event, fate);
        CommittedAreVisible(s);
      }
    }
  }

  lemma NumberIsTaken(s: State, event: RunEvent, visible: seq<RunEvent>)
    requires visible == s.committed + [event]
    ensures event.runId == s.run && event.sequence > s.counter ==> !AllAtMost(visible, s.run, s.counter)
  {
    assert visible[|s.committed|] == event;
  }

  lemma CommittedAreVisible(s: State)
    ensures forall run: RunId, bound: nat | AllAtMost(Visible(s), run, bound) :: AllAtMost(s.committed, run, bound)
  {
    assert forall i | 0 <= i < |s.committed| :: s.committed[i] == Visible(s)[i];
  }

  lemma ArrivedIsVisible(s: State, event: RunEvent, fate: AppendFate)
    requires Arrives([event], fate)
    ensures var visible := Visible(Journaled(s, [event], fate));
            visible == s.committed + [event] && visible[|s.committed|] == event
  {
  }

  lemma NothingArrived(s: State, event: RunEvent, fate: AppendFate)
    requires !Arrives([event], fate) && !fate.NotRepaired?
    ensures Visible(Journaled(s, [event], fate)) == s.committed
  {
  }

  ghost predicate NeverCollides(actions: seq<Action>) {
    forall n | 0 <= n < |actions| :: !Collides(After(actions[..n]), actions[n])
  }

  /**
   Over every run of the protocol in which no live process loses its next number to a reconciliation, each run's
   numbers strictly increase.
   */
  lemma {:induction false} SequencesIncrease(actions: seq<Action>)
    requires NeverCollides(actions)
    ensures SequenceInv(After(actions))
    decreases |actions|
  {
    hide SequenceInv, Collides;
    if actions == [] {
      InitialSequenceInv();
    } else {
      var earlier := actions[..|actions| - 1];
      assert forall n | 0 <= n < |earlier| :: earlier[..n] == actions[..n];
      SequencesIncrease(earlier);
      StepKeepsSequenceExactly(After(earlier), actions[|actions| - 1]);
    }
  }

  lemma InitialSequenceInv()
    ensures SequenceInv(INITIAL)
  {
  }

  /**
   After a collision the next event of the process that arrives takes a number that its run already has, unless
   the reconciliation was only a torn record, which that event then removes.
   */
  lemma CollisionBreaksOrderExactly(
    s: State, key: Key, resolution: string, torn: AppendFate, kind: EventKind, fate: AppendFate)
    requires SequenceInv(s) && Collides(s, Reconcile(key, resolution, torn))
    requires Arrives(Numbered(s.run, s.counter, [kind]), fate)
    ensures !Increasing(Visible(Emit(Reconciled(s, key, resolution, torn), [kind], fate)))
            <==> torn.Done? || torn.kept > 0
  {
    var reconciled := ReconcileEvent(s, key, resolution);
    var s' := Reconciled(s, key, resolution, torn);
    CollisionFacts(s, key, resolution, torn);
    var next := Numbered(s.run, s.counter, [kind])[0];
    assert Numbered(s.run, s.counter, [kind]) == [next];
    ArrivedIsVisible(s', next, fate);
    hide Increasing, AllAtMost, Collides, Reconciled, ReconcileEvent, Numbered, Arrives;
    if torn.Done? || torn.kept > 0 {
      RepeatedNumber(s.committed, reconciled, next);
    } else {
      FreshNumber(s, next);
    }
  }

  lemma CollisionFacts(s: State, key: Key, resolution: string, torn: AppendFate)
    requires Collides(s, Reconcile(key, resolution, torn))
    ensures var event, s' := ReconcileEvent(s, key, resolution), Reconciled(s, key, resolution, torn);
            && !torn.NotRepaired?
            && s.alive && event.runId == s.run && event.sequence > s.counter
            && s'.run == s.run && s'.counter == s.counter
            && s'.committed == if torn.Done? || torn.kept > 0 then s.committed + [event] else s.committed
  {
  }

  lemma RepeatedNumber(earlier: seq<RunEvent>, a: RunEvent, b: RunEvent)
    requires a.runId == b.runId && a.sequence >= b.sequence
    ensures !Increasing(earlier + [a] + [b])
  {
    var all, n := earlier + [a] + [b], |earlier|;
    assert all[n] == a && all[n + 1] == b;
  }

  lemma FreshNumber(s: State, next: RunEvent)
    requires SequenceInv(s) && s.alive && next.runId == s.run && next.sequence == s.counter + 1
    ensures Increasing(s.committed + [next])
  {
    assert forall i | 0 <= i < |s.committed| :: s.committed[i] == Visible(s)[i];
  }

  // ------------------------------------------------------------------------
  // A run in which it happens
  // ------------------------------------------------------------------------

  const LIVE_RECONCILIATION := [
    Report(CALL.id, OutcomeUnknown, Done), SaveResult(CALL.id, true),
    Reconcile((RUN, CALL.id), "it was done", Done), EmitOther(RunResumed, Done)]

  /** The outcome of a call stays unknown, it is reconciled while the run goes on, and the run emits an event. */
  lemma LiveReconciliationCollides()
    ensures var actions := UNTIL_EFFECT + LIVE_RECONCILIATION;
            && SequenceInv(After(actions[..9])) && Collides(After(actions[..9]), actions[9])
            && !Increasing(Visible(After(actions)))
  {
    var actions := UNTIL_EFFECT + LIVE_RECONCILIATION;
    hide Increasing, AllAtMost;
    FirstEffect();
    assert actions[..7] == UNTIL_EFFECT && actions[..11] == actions;
    forall n: nat | 7 <= n < 11 {
      AfterNext(actions, n);
    }
    UnknownOutcomeSteps();
    UnknownOutcomeCollides();
    CollisionBreaksOrderExactly(UNKNOWN, (RUN, CALL.id), "it was done", Done, RunResumed, Done);
    NextEventSteps();
  }

  const WITH_UNKNOWN := STARTED_CALL + [RunEvent(1, 3, RUN, ToolOutcomeUnknown(CALL.id))]

  const UNKNOWN := AT_EFFECT.(
    receipts := map[(RUN, CALL.id) := Receipt(CALL, true)], committed := WITH_UNKNOWN, counter := 3, threads := map[])

  lemma UnknownOutcomeSteps()
    ensures Step(Step(AT_EFFECT, LIVE_RECONCILIATION[0]), LIVE_RECONCILIATION[1]) == UNKNOWN
  {
    var key := (RUN, CALL.id);
    var reported := AT_EFFECT.(
      committed := WITH_UNKNOWN, counter := 3, threads := map[key := Thread(CALL, Reported)]);
    assert Step(AT_EFFECT, LIVE_RECONCILIATION[0]) == reported;
    assert Step(reported, LIVE_RECONCILIATION[1]) == UNKNOWN;
  }

  lemma NextEventSteps()
    requires Enabled(UNKNOWN, LIVE_RECONCILIATION[2])
    ensures Step(Step(UNKNOWN, LIVE_RECONCILIATION[2]), LIVE_RECONCILIATION[3])
         == Emit(Reconciled(UNKNOWN, (RUN, CALL.id), "it was done", Done), [RunResumed], Done)
  {
    hide Project, Emit, MaxSequence;
  }

  lemma UnknownOutcomeCollides()
    ensures SequenceInv(UNKNOWN) && Collides(UNKNOWN, LIVE_RECONCILIATION[2])
  {
    assert Visible(UNKNOWN) == WITH_UNKNOWN;
    ProjectMeaning(WITH_UNKNOWN, (RUN, CALL.id));
    assert Opens(WITH_UNKNOWN[1], (RUN, CALL.id));
    MaxSequenceBounds(WITH_UNKNOWN, RUN);
    assert WITH_UNKNOWN[2].sequence == 3;
  }
}
