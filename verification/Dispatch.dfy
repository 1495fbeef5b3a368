/**
 The durable dispatch protocol: a receipt and the run journal bracket every side effect,
 so that a crash between any two durable writes never repeats one. Every step below is one
 durable write, one effect, or one decision taken from durable state.
 */
module Dispatch {
  import opened Wrappers
  import opened Protocol
  import Continuation

  datatype Receipt = Receipt(call: ToolCall, done: bool)

  /** Where the executor is with a call. */
  datatype Pc =
    | Checked   // the saved state allows a dispatch
    | Noted     // a pending receipt is saved
    | Started   // the start event is durable, the tool has not run
    | Ran       // the tool has run
    | Reported  // there is a result to save

  datatype Thread = Thread(call: ToolCall, pc: Pc)

  datatype State = State(
    receipts: map<Key, Receipt>,
    committed: seq<RunEvent>,   // newline-terminated records
    torn: seq<RunEvent>,        // a complete last record without its newline, if there is one
    alive: bool,
    run: RunId,
    counter: nat,               // the sequence number the process used last
    threads: map<Key, Thread>,
    effects: multiset<Key>,     // what happened in the outside world
    live: Continuation.RunCursor,           // the cursor of the run that goes on
    stored: Option<Continuation.RunCursor>, // the saved one
    current: bool)              // whether the last save of the live cursor was acknowledged

  const INITIAL :=
    State(map[], [], [], false, [], 0, map[], multiset{}, Continuation.NewCursor([]), None, false)

  /** What the loader returns. */
  function Visible(s: State): seq<RunEvent> {
    s.committed + s.torn
  }

  // ------------------------------------------------------------------------
  // Appending to the journal
  // ------------------------------------------------------------------------

  datatype AppendFate = Done | NotRepaired | Partial(kept: nat, lastVisible: bool)

  function Journaled(s: State, events: seq<RunEvent>, fate: AppendFate): State {
    match fate
    case Done => s.(committed := s.committed + events, torn := [])
    case NotRepaired => s
    case Partial(kept, lastVisible) =>
      var m := if kept <= |events| then kept else |events|;
      s.(committed := s.committed + events[..m],
         torn := if lastVisible && m < |events| then [events[m]] else [])
  }

  /** A journal append keeps the committed records, and shows nothing else but a prefix of the batch. */
  lemma JournaledShape(s: State, events: seq<RunEvent>, fate: AppendFate) returns (q: nat)
    requires !fate.NotRepaired?
    ensures q <= |events|
    ensures var s' := Journaled(s, events, fate);
            && s.committed <= s'.committed
            && Visible(s') == s.committed + events[..q]
  {
    match fate
    case Done =>
      q := |events|;
      assert events[..q] == events;
      assert s.committed + events + [] == s.committed + events;
    case Partial(kept, lastVisible) =>
      var m := if kept <= |events| then kept else |events|;
      q := if lastVisible && m < |events| then m + 1 else m;
      assert Visible(Journaled(s, events, fate)) == s.committed + events[..q];
  }

  // ------------------------------------------------------------------------
  // Decisions from durable state
  // ------------------------------------------------------------------------

  datatype Saved =
    | Fresh         // nothing was started: dispatch
    | Known         // a result, a finish or a reconciliation is on record
    | Mismatch      // the receipt is for another invocation
    | UnknownOutcome // started and never settled: refuse

  function SavedDispatch(s: State, run: RunId, call: ToolCall): Saved {
    var key := (run, call.id);
    if key !in s.receipts then Fresh
    else if s.receipts[key].call != call then Mismatch
    else if s.receipts[key].done then Known
    else if ClosedIn(Visible(s), key) then Known
    else if OpenedIn(Visible(s), key) then UnknownOutcome
    else Fresh
  }

  predicate OpenedIn(events: seq<RunEvent>, key: Key) {
    exists i :: 0 <= i < |events| && Opens(events[i], key)
  }

  predicate ClosedIn(events: seq<RunEvent>, key: Key) {
    exists i :: 0 <= i < |events| && Closes(events[i], key)
  }

  predicate Refuses(saved: Saved) {
    saved.Mismatch? || saved.UnknownOutcome?
  }

  function MaxSequence(events: seq<RunEvent>, run: RunId): nat {
    if events == [] then 0
    else
      var rest := MaxSequence(events[..|events| - 1], run);
      var last := events[|events| - 1];
      if last.runId == run && last.sequence > rest then last.sequence else rest
  }

  /** Numbers a batch of event kinds from the counter on. */
  function Numbered(run: RunId, counter: nat, kinds: seq<EventKind>): (events: seq<RunEvent>)
    ensures |events| == |kinds|
    ensures forall i | 0 <= i < |events| :: events[i] == RunEvent(1, counter + 1 + i, run, kinds[i])
  {
    if kinds == [] then []
    else Numbered(run, counter, kinds[..|kinds| - 1])
         + [RunEvent(1, counter + |kinds|, run, kinds[|kinds| - 1])]
  }

  /** The counter moves whether or not the append succeeds. */
  function Emit(s: State, kinds: seq<EventKind>, fate: AppendFate): State {
    Journaled(s, Numbered(s.run, s.counter, kinds), fate).(counter := s.counter + |kinds|)
  }

  // ------------------------------------------------------------------------
  // Steps
  // ------------------------------------------------------------------------

  datatype Ending = Finished(isError: bool) | OutcomeUnknown | NoEvent

  datatype Action =
    | BeginRun(newRun: RunId)
    | SaveFirst(written: bool, acknowledged: bool)
    | Resume(resumed: RunId)
    | TakeTransition(event: Continuation.Transition, written: bool, acknowledged: bool)
    | Crash
    | Dispatch(call: ToolCall)
    | NotePending(id: string, written: bool, acknowledged: bool)
    | ExitEarly(id: string)
    | Start(id: string, name: string, idempotencyKey: string, fate: AppendFate)
    | Abort(id: string)
    | RunTool(id: string)
    | Report(id: string, ending: Ending, fate: AppendFate)
    | SaveResult(id: string, written: bool)
    | EmitOther(kind: EventKind, fate: AppendFate)
    | Reconcile(key: Key, resolution: string, fate: AppendFate)
    | CancelOffline(written: bool, acknowledged: bool, fate: AppendFate)

  predicate AtPc(s: State, id: string, pc: Pc) {
    s.alive && (s.run, id) in s.threads && s.threads[(s.run, id)].pc == pc
  }

  function Goto(s: State, id: string, pc: Pc): State
    requires (s.run, id) in s.threads
  {
    s.(threads := s.threads[(s.run, id) := s.threads[(s.run, id)].(pc := pc)])
  }

  function NotedPending(s: State, id: string, written: bool, acknowledged: bool): State
    requires (s.run, id) in s.threads
  {
    var key := (s.run, id);
    var saved := if written || acknowledged
                 then s.(receipts := s.receipts[key := Receipt(s.threads[key].call, false)]) else s;
    if acknowledged then Goto(saved, id, Noted) else saved.(threads := saved.threads - {key})
  }

  function StartedCall(s: State, id: string, name: string, idempotencyKey: string, fate: AppendFate): State
    requires (s.run, id) in s.threads
  {
    var emitted := Emit(s, [ToolAuthorized(id, name), ToolStarted(id, name, idempotencyKey)], fate);
    Goto(emitted, id, if fate.Done? then Started else Reported)
  }

  function ReportedCall(s: State, id: string, ending: Ending, fate: AppendFate): State
    requires (s.run, id) in s.threads
  {
    var emitted := match ending
      case Finished(isError) => Emit(s, [ToolFinished(id, isError)], fate)
      case OutcomeUnknown => Emit(s, [ToolOutcomeUnknown(id)], fate)
      case NoEvent => s;
    Goto(emitted, id, Reported)
  }

  function SavedCall(s: State, id: string, written: bool): State
    requires (s.run, id) in s.threads
  {
    var key := (s.run, id);
    var saved := if written
                 then s.(receipts := s.receipts[key := Receipt(s.threads[key].call, true)]) else s;
    saved.(threads := saved.threads - {key})
  }

  predicate IsToolEvent(kind: EventKind) {
    kind.ToolStarted? || kind.ToolFinished? || kind.ToolReconciled?
  }

  predicate IsNewRun(s: State, run: RunId) {
    && (forall i | 0 <= i < |Visible(s)| :: Visible(s)[i].runId != run)
    && (forall key | key in s.receipts :: key.0 != run)
  }

  /** The chat has a run that was neither finished nor cancelled. */
  predicate Unfinished(s: State) {
    s.stored.Some? && !s.stored.value.state.Finished?
  }

  predicate HasResult(s: State, key: Key) {
    key in s.receipts && s.receipts[key].done
  }

  /**
   A transition needs the agent for itself, so no call is under way. After a failed save nothing but the end of
   the run follows, and a run waits only for a request that came out of a call with a saved result.
   */
  predicate MayTake(s: State, event: Continuation.Transition) {
    && s.alive && s.threads == map[]
    && (s.current || event.Finish?)
    && Continuation.Reduce(s.live, event).Ok?
    && (event.Wait? ==> HasResult(s, (s.run, event.request.id)))
  }

  predicate MayDispatch(s: State, call: ToolCall) {
    && s.alive && s.current && s.live.state.Running? && call in s.live.pending
    && (s.run, call.id) !in s.threads && SavedDispatch(s, s.run, call).Fresh?
  }

  function SaveLive(s: State, written: bool, acknowledged: bool): State {
    s.(stored := if written || acknowledged then Some(s.live) else s.stored, current := acknowledged)
  }

  function ReconcileEvent(s: State, key: Key, resolution: string): RunEvent {
    RunEvent(1, MaxSequence(Visible(s), key.0) + 1, key.0, ToolReconciled(key.1, resolution))
  }

  function Reconciled(s: State, key: Key, resolution: string, fate: AppendFate): State {
    Journaled(s, [ReconcileEvent(s, key, resolution)], fate)
  }

  /** The record is saved as cancelled, and only then the event is appended. */
  function CancelStored(s: State, written: bool, acknowledged: bool, fate: AppendFate): State
    requires Unfinished(s)
  {
    var c := s.stored.value;
    var saved := if written || acknowledged
                 then s.(stored := Some(c.(state := Continuation.RunState.Finished(Cancelled)))) else s;
    if acknowledged
    then Journaled(saved, [RunEvent(1, MaxSequence(Visible(s), c.runId) + 1, c.runId, RunFinished(Cancelled))], fate)
    else saved
  }

  /** No call that the saved run has still to execute has an unknown outcome or a receipt for something else. */
  predicate NothingRefused(s: State, calls: seq<ToolCall>, run: RunId) {
    forall call | call in calls :: !Refuses(SavedDispatch(s, run, call))
  }

  predicate Enabled(s: State, a: Action) {
    match a
    case BeginRun(run) => !s.alive && IsNewRun(s, run) && !Unfinished(s)
    case SaveFirst(_, _) => s.alive && !s.current && s.live == Continuation.NewCursor(s.run)
    case Resume(run) =>
      !s.alive && Unfinished(s) && s.stored.value.runId == run && NothingRefused(s, s.stored.value.pending, run)
    case TakeTransition(event, _, _) => MayTake(s, event)
    case Crash => s.alive
    case Dispatch(call) => MayDispatch(s, call)
    case NotePending(id, _, _) => AtPc(s, id, Checked)
    case ExitEarly(id) => AtPc(s, id, Noted)
    case Start(id, _, _, _) => AtPc(s, id, Noted)
    case Abort(id) => AtPc(s, id, Started)
    case RunTool(id) => AtPc(s, id, Started)
    case Report(id, _, _) => AtPc(s, id, Ran)
    case SaveResult(id, _) => AtPc(s, id, Reported)
    case EmitOther(kind, _) => s.alive && !IsToolEvent(kind)
    case Reconcile(key, _, _) => key in Project(Visible(s))
    case CancelOffline(_, _, _) => Unfinished(s) && !(s.alive && s.run == s.stored.value.runId)
  }

  function Apply(s: State, a: Action): State
    requires Enabled(s, a)
  {
    match a
    case BeginRun(run) =>
      s.(alive := true, run := run, counter := 0, threads := map[],
         live := Continuation.NewCursor(run), current := false)
    case SaveFirst(written, acknowledged) => SaveLive(s, written, acknowledged)
    case Resume(run) =>
      s.(alive := true, run := run, counter := MaxSequence(Visible(s), run), threads := map[],
         live := s.stored.value, current := true)
    case TakeTransition(event, written, acknowledged) =>
      SaveLive(s.(live := Continuation.Next(s.live, event)), written, acknowledged)
    case Crash => s.(alive := false, threads := map[])
    case Dispatch(call) => s.(threads := s.threads[(s.run, call.id) := Thread(call, Checked)])
    case NotePending(id, written, acknowledged) => NotedPending(s, id, written, acknowledged)
    case ExitEarly(id) => Goto(s, id, Reported)
    case Start(id, name, idempotencyKey, fate) => StartedCall(s, id, name, idempotencyKey, fate)
    case Abort(id) => Goto(s, id, Reported)
    case RunTool(id) => Goto(s, id, Ran).(effects := s.effects + multiset{(s.run, id)})
    case Report(id, ending, fate) => ReportedCall(s, id, ending, fate)
    case SaveResult(id, written) => SavedCall(s, id, written)
    case EmitOther(kind, fate) => Emit(s, [kind], fate)
    case Reconcile(key, resolution, fate) => Reconciled(s, key, resolution, fate)
    case CancelOffline(written, acknowledged, fate) => CancelStored(s, written, acknowledged, fate)
  }

  /** A step that is not enabled does nothing. */
  function Step(s: State, a: Action): State {
    if Enabled(s, a) then Apply(s, a) else s
  }

  function After(actions: seq<Action>): State {
    if actions == [] then INITIAL
    else Step(After(actions[..|actions| - 1]), actions[|actions| - 1])
  }

  lemma AfterNext(actions: seq<Action>, n: nat)
    requires n < |actions|
    ensures After(actions[..n + 1]) == Step(After(actions[..n]), actions[n])
  {
    assert actions[..n + 1][..n] == actions[..n];
  }

  // ------------------------------------------------------------------------
  // A run that reaches its first effect
  // ------------------------------------------------------------------------

  const RUN: RunId := "run"

  const CALL := ToolCall("call", "tool", "{}")

  const UNTIL_EFFECT := [
    BeginRun(RUN), SaveFirst(true, true), TakeTransition(Continuation.Selected([CALL]), true, true),
    Dispatch(CALL), NotePending(CALL.id, true, true), Start(CALL.id, "tool", "key", Done), RunTool(CALL.id)]

  const WITH_CALL := Continuation.RunCursor(RUN, Continuation.RunState.Running, 1, [CALL], {CALL.id})

  const STARTED_CALL := [
    RunEvent(1, 1, RUN, ToolAuthorized(CALL.id, "tool")), RunEvent(1, 2, RUN, ToolStarted(CALL.id, "tool", "key"))]

  const AT_EFFECT := State(
    map[(RUN, CALL.id) := Receipt(CALL, false)], STARTED_CALL, [], true, RUN, 2,
    map[(RUN, CALL.id) := Thread(CALL, Ran)], multiset{(RUN, CALL.id)}, WITH_CALL, Some(WITH_CALL), true)

  const WITH_RUN := INITIAL.(alive := true, run := RUN, live := Continuation.NewCursor(RUN))

  const SELECTED := WITH_RUN.(live := WITH_CALL, stored := Some(WITH_CALL), current := true)

  const NOTED := SELECTED.(
    receipts := map[(RUN, CALL.id) := Receipt(CALL, false)], threads := map[(RUN, CALL.id) := Thread(CALL, Noted)])

  lemma FirstEffect()
    ensures After(UNTIL_EFFECT) == AT_EFFECT
  {
    var actions := UNTIL_EFFECT;
    assert After(actions[..0]) == INITIAL;
    forall n: nat | n < 7 {
      AfterNext(actions, n);
    }
    SelectionSteps();
    NotingSteps();
    StartSteps();
    assert actions[..7] == actions;
  }

  lemma SelectionSteps()
    ensures Step(Step(Step(INITIAL, UNTIL_EFFECT[0]), UNTIL_EFFECT[1]), UNTIL_EFFECT[2]) == SELECTED
  {
    assert Step(INITIAL, UNTIL_EFFECT[0]) == WITH_RUN;
    var saved := WITH_RUN.(stored := Some(Continuation.NewCursor(RUN)), current := true);
    assert Step(WITH_RUN, UNTIL_EFFECT[1]) == saved;
    assert [CALL][0] == CALL && Continuation.Ids([CALL]) == {CALL.id};
    assert !Continuation.BadBatch(saved.live, [CALL]);
    assert {} + {CALL.id} == {CALL.id};
    assert Continuation.Reduce(saved.live, Continuation.Selected([CALL])) == Ok(WITH_CALL);
  }

  lemma NotingSteps()
    ensures Step(Step(SELECTED, UNTIL_EFFECT[3]), UNTIL_EFFECT[4]) == NOTED
  {
    var checked := SELECTED.(threads := map[(RUN, CALL.id) := Thread(CALL, Checked)]);
    assert Step(SELECTED, UNTIL_EFFECT[3]) == checked;
  }

  lemma StartSteps()
    ensures Step(Step(NOTED, UNTIL_EFFECT[5]), UNTIL_EFFECT[6]) == AT_EFFECT
  {
    var kinds := [ToolAuthorized(CALL.id, "tool"), ToolStarted(CALL.id, "tool", "key")];
    assert Numbered(RUN, 0, kinds) == STARTED_CALL;
    var started := AT_EFFECT.(threads := map[(RUN, CALL.id) := Thread(CALL, Started)], effects := multiset{});
    assert Step(NOTED, UNTIL_EFFECT[5]) == started;
  }
}
