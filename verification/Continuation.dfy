/** The serializable control state of a run: transitions are pure and either accepted or rejected as a whole. */
module Continuation {
  import opened Wrappers
  import opened Protocol

  datatype HumanInputRequest = HumanInputRequest(id: string, question: string, schema: string)

  datatype RunState =
    | Running
    | Paused
    | WaitingForInput(request: HumanInputRequest)
    | Finished(status: RunStatus)

  datatype RunCursor = RunCursor(
    runId: RunId,
    state: RunState,
    iteration: nat,
    pending: seq<ToolCall>,
    seenTools: set<string>)

  datatype Transition =
    | Selected(calls: seq<ToolCall>)
    | Observed(observedId: string)
    | Pause
    | Wait(request: HumanInputRequest)
    | Resume
    | Answer(answeredId: string)
    | Finish(status: RunStatus)

  function NewCursor(run: RunId): RunCursor {
    RunCursor(run, RunState.Running, 0, [], {})
  }

  function Ids(calls: seq<ToolCall>): set<string> {
    set c | c in calls :: c.id
  }

  function Without(calls: seq<ToolCall>, id: string): seq<ToolCall> {
    if calls == [] then []
    else if calls[0].id == id then Without(calls[1..], id)
    else [calls[0]] + Without(calls[1..], id)
  }

  /** Some id of the batch is empty, was selected before, or repeats. */
  predicate BadBatch(c: RunCursor, calls: seq<ToolCall>) {
    exists i | 0 <= i < |calls| ::
      || calls[i].id == ""
      || calls[i].id in c.seenTools
      || exists j | 0 <= j < i :: calls[j].id == calls[i].id
  }

  function Reduce(c: RunCursor, event: Transition): Result<RunCursor> {
    match event
    case Selected(calls) =>
      if !c.state.Running? || c.pending != [] || BadBatch(c, calls) then Err
      else Ok(c.(seenTools := c.seenTools + Ids(calls), pending := calls, iteration := c.iteration + 1))
    case Observed(id) =>
      if id in Ids(c.pending) then Ok(c.(pending := Without(c.pending, id))) else Err
    case Pause =>
      if c.state.Running? then Ok(c.(state := RunState.Paused)) else Err
    case Wait(request) =>
      if c.state.Running? && request.id in Ids(c.pending)
      then Ok(c.(state := RunState.WaitingForInput(request))) else Err
    case Resume =>
      if c.state.Paused? || c.state.Running? then Ok(c.(state := RunState.Running)) else Err
    case Answer(id) =>
      if c.state.WaitingForInput? && c.state.request.id == id
      then Ok(c.(pending := Without(c.pending, id), state := RunState.Running)) else Err
    case Finish(status) =>
      if !c.state.Finished? then Ok(c.(state := RunState.Finished(status))) else Err
  }

  // ------------------------------------------------------------------------
  // Whole runs: a rejected transition changes nothing
  // ------------------------------------------------------------------------

  function Next(c: RunCursor, event: Transition): RunCursor {
    match Reduce(c, event) case Ok(next) => next case Err => c
  }

  function Follow(run: RunId, events: seq<Transition>): RunCursor {
    if events == [] then NewCursor(run)
    else Next(Follow(run, events[..|events| - 1]), events[|events| - 1])
  }

  /** The batches that were accepted, in order. */
  function Batches(run: RunId, events: seq<Transition>): seq<seq<ToolCall>> {
    if events == [] then []
    else
      var earlier, last := events[..|events| - 1], events[|events| - 1];
      if last.Selected? && Reduce(Follow(run, earlier), last).Ok?
      then Batches(run, earlier) + [last.calls] else Batches(run, earlier)
  }

  ghost predicate DistinctIds(calls: seq<ToolCall>) {
    forall i, j | 0 <= i < j < |calls| :: calls[i].id != calls[j].id
  }

  ghost predicate WellFormedBatch(calls: seq<ToolCall>) {
    "" !in Ids(calls) && DistinctIds(calls)
  }

  ghost predicate DisjointBatches(batches: seq<seq<ToolCall>>) {
    forall x, y | 0 <= x < y < |batches| :: Ids(batches[x]) !! Ids(batches[y])
  }

  ghost predicate CursorInv(c: RunCursor, batches: seq<seq<ToolCall>>) {
    && c.iteration == |batches|
    && (forall id :: id in c.seenTools <==> exists x :: 0 <= x < |batches| && id in Ids(batches[x]))
    && (forall x | 0 <= x < |batches| :: WellFormedBatch(batches[x]))
    && DisjointBatches(batches)
    && WellFormedBatch(c.pending)
    && (if batches == [] then c.pending == []
        else forall call | call in c.pending :: call in batches[|batches| - 1])
  }

  lemma {:induction false} WithoutMembers(calls: seq<ToolCall>, id: string)
    ensures forall c :: c in Without(calls, id) <==> c in calls && c.id != id
    ensures DistinctIds(calls) ==> DistinctIds(Without(calls, id))
    decreases |calls|
  {
    if calls != [] {
      var rest := calls[1..];
      WithoutMembers(rest, id);
      if DistinctIds(calls) {
        assert DistinctIds(rest);
        var kept := Without(rest, id);
        forall k | 0 <= k < |kept|
          ensures kept[k].id != calls[0].id
        {
          assert kept[k] in kept;
          assert kept[k] in rest;
        }
      }
    }
  }

  lemma RemovalKeepsInv(c: RunCursor, batches: seq<seq<ToolCall>>, id: string, state: RunState)
    requires CursorInv(c, batches)
    ensures CursorInv(c.(pending := Without(c.pending, id), state := state), batches)
  {
    WithoutMembers(c.pending, id);
  }

  lemma SelectionKeepsInv(c: RunCursor, batches: seq<seq<ToolCall>>, calls: seq<ToolCall>)
    requires CursorInv(c, batches)
    requires Reduce(c, Selected(calls)).Ok?
    ensures CursorInv(Reduce(c, Selected(calls)).value, batches + [calls])
  {
    var batches' := batches + [calls];
    var c' := Reduce(c, Selected(calls)).value;
    assert forall i | 0 <= i < |calls| :: calls[i].id != "";
    forall id
      ensures id in c'.seenTools <==> exists x :: 0 <= x < |batches'| && id in Ids(batches'[x])
    {
      if id in Ids(calls) {
        assert id in Ids(batches'[|batches|]);
      } else if id in c.seenTools {
        var x :| 0 <= x < |batches| && id in Ids(batches[x]);
        assert id in Ids(batches'[x]);
      }
    }
    forall x | 0 <= x < |batches|
      ensures Ids(batches[x]) !! Ids(calls)
    {
      forall id | id in Ids(batches[x])
        ensures id !in Ids(calls)
      {
        assert id in c.seenTools;
        assert forall i | 0 <= i < |calls| :: calls[i].id !in c.seenTools;
      }
    }
  }

  lemma {:induction false} CursorInvAlways(run: RunId, events: seq<Transition>)
    ensures CursorInv(Follow(run, events), Batches(run, events))
    decreases |events|
  {
    if events != [] {
      var earlier, last := events[..|events| - 1], events[|events| - 1];
      CursorInvAlways(run, earlier);
      var c, batches := Follow(run, earlier), Batches(run, earlier);
      if Reduce(c, last).Ok? {
        match last
        case Selected(calls) => SelectionKeepsInv(c, batches, calls);
        case Observed(id) => RemovalKeepsInv(c, batches, id, c.state);
        case Answer(id) => RemovalKeepsInv(c, batches, id, RunState.Running);
        case _ =>
      }
    }
  }

  /** Pending ids are non-empty, distinct, known, and of the last accepted batch; the iteration counts the batches. */
  lemma RunInvariant(run: RunId, events: seq<Transition>)
    ensures var c, batches := Follow(run, events), Batches(run, events);
            && c.iteration == |batches|
            && WellFormedBatch(c.pending)
            && Ids(c.pending) <= c.seenTools
            && (batches != [] ==> forall call | call in c.pending :: call in batches[|batches| - 1])
  {
    CursorInvAlways(run, events);
    var c, batches := Follow(run, events), Batches(run, events);
    forall id | id in Ids(c.pending)
      ensures id in c.seenTools
    {
      assert id in Ids(batches[|batches| - 1]);
    }
  }

  /** No id is ever selected twice, within one batch or in two. */
  lemma SelectionsAreUnique(run: RunId, events: seq<Transition>)
    ensures DisjointBatches(Batches(run, events))
    ensures forall x | 0 <= x < |Batches(run, events)| :: WellFormedBatch(Batches(run, events)[x])
  {
    CursorInvAlways(run, events);
  }

  /** What a run may select: ids that are not empty, all different, and in no batch it has accepted. */
  ghost predicate NewBatch(batches: seq<seq<ToolCall>>, calls: seq<ToolCall>) {
    && (forall i | 0 <= i < |calls| :: calls[i].id != "")
    && (forall i, j | 0 <= i < j < |calls| :: calls[i].id != calls[j].id)
    && forall x, i, k | 0 <= x < |batches| && 0 <= i < |calls| && 0 <= k < |batches[x]| ::
         batches[x][k].id != calls[i].id
  }

  /**
   In every run: a batch is accepted exactly when the run is running, nothing is pending, and the batch is new.
   Then the whole batch is pending, in its order, and it is the next accepted batch.
   */
  lemma SelectsExactly(run: RunId, events: seq<Transition>, calls: seq<ToolCall>)
    ensures var c, batches := Follow(run, events), Batches(run, events);
            var after, more := Follow(run, events + [Selected(calls)]), Batches(run, events + [Selected(calls)]);
            if c.state.Running? && c.pending == [] && NewBatch(batches, calls) then
              && Reduce(c, Selected(calls)) == Ok(after)
              && after.pending == calls && after.state.Running? && after.runId == run
              && after.iteration == c.iteration + 1 && more == batches + [calls]
            else
              Reduce(c, Selected(calls)).Err? && after == c && more == batches
  {
    var c, batches := Follow(run, events), Batches(run, events);
    CursorInvAlways(run, events);
    RunIdStays(run, events);
    assert (events + [Selected(calls)])[..|events|] == events;
    hide CursorInv, Follow, Batches;
    BadBatchIsNotNew(c, batches, calls);
  }

  lemma BadBatchIsNotNew(c: RunCursor, batches: seq<seq<ToolCall>>, calls: seq<ToolCall>)
    requires CursorInv(c, batches)
    ensures BadBatch(c, calls) <==> !NewBatch(batches, calls)
  {
    forall i | 0 <= i < |calls|
      ensures calls[i].id in c.seenTools <==>
              exists x, k :: 0 <= x < |batches| && 0 <= k < |batches[x]| && batches[x][k].id == calls[i].id
    {
      if calls[i].id in c.seenTools {
        var x :| 0 <= x < |batches| && calls[i].id in Ids(batches[x]);
        var call :| call in batches[x] && call.id == calls[i].id;
        var k :| 0 <= k < |batches[x]| && batches[x][k] == call;
      }
      forall x, k | 0 <= x < |batches| && 0 <= k < |batches[x]| && batches[x][k].id == calls[i].id
        ensures calls[i].id in c.seenTools
      {
        assert batches[x][k] in batches[x] && calls[i].id in Ids(batches[x]);
      }
    }
  }

  lemma {:induction false} RunIdStays(run: RunId, events: seq<Transition>)
    ensures Follow(run, events).runId == run
    decreases |events|
  {
    if events != [] {
      RunIdStays(run, events[..|events| - 1]);
    }
  }

  /** When every other transition is accepted, and all that it changes. */
  lemma TransitionsExactly(c: RunCursor, request: HumanInputRequest, status: RunStatus)
    ensures Reduce(c, Pause) == if c.state == RunState.Running then Ok(c.(state := RunState.Paused)) else Err
    ensures Reduce(c, Wait(request)) ==
            if c.state == RunState.Running && exists call :: call in c.pending && call.id == request.id
            then Ok(c.(state := RunState.WaitingForInput(request))) else Err
    ensures Reduce(c, Resume) ==
            if c.state == RunState.Paused || c.state == RunState.Running then Ok(c.(state := RunState.Running)) else Err
    ensures Reduce(c, Finish(status)) ==
            if (exists ended :: c.state == RunState.Finished(ended)) then Err
            else Ok(c.(state := RunState.Finished(status)))
  {
    if c.state.Finished? {
      assert c.state == RunState.Finished(c.state.status);
    }
  }

  /** Observing a call, or answering its request, takes that one call out and keeps the others in order. */
  lemma RemovesExactly(c: RunCursor, left: seq<ToolCall>, call: ToolCall, right: seq<ToolCall>)
    requires c.pending == left + [call] + right && DistinctIds(c.pending)
    ensures Reduce(c, Observed(call.id)) == Ok(c.(pending := left + right))
    ensures Reduce(c, Answer(call.id)) ==
            if exists request :: c.state == RunState.WaitingForInput(request) && request.id == call.id
            then Ok(c.(pending := left + right, state := RunState.Running)) else Err
  {
    assert c.pending[|left|] == call && call in c.pending;
    assert forall i | 0 <= i < |left| :: left[i] == c.pending[i];
    assert forall i | 0 <= i < |right| :: right[i] == c.pending[|left| + 1 + i];
    WithoutOne(left, call, right);
  }

  lemma {:induction false} WithoutOne(left: seq<ToolCall>, call: ToolCall, right: seq<ToolCall>)
    requires forall i | 0 <= i < |left| :: left[i].id != call.id
    requires forall i | 0 <= i < |right| :: right[i].id != call.id
    ensures Without(left + [call] + right, call.id) == left + right
    decreases |left|
  {
    var all := left + [call] + right;
    if left == [] {
      assert all[1..] == right;
      WithoutNone(right, call.id);
    } else {
      assert all[1..] == left[1..] + [call] + right;
      WithoutOne(left[1..], call, right);
      assert [left[0]] + (left[1..] + right) == left + right;
    }
  }

  lemma {:induction false} WithoutNone(calls: seq<ToolCall>, id: string)
    requires forall i | 0 <= i < |calls| :: calls[i].id != id
    ensures Without(calls, id) == calls
    decreases |calls|
  {
    if calls != [] {
      WithoutNone(calls[1..], id);
    }
  }

  /** An id that is not pending cannot be observed, and an answer to it leaves the pending calls as they are. */
  lemma RemovesNothingElse(c: RunCursor, id: string)
    requires forall call | call in c.pending :: call.id != id
    ensures Reduce(c, Observed(id)).Err?
    ensures Reduce(c, Answer(id)).Ok? ==> Reduce(c, Answer(id)).value.pending == c.pending
  {
    WithoutNone(c.pending, id);
  }

  /** One step: what leaves `pending` stays out, and a batch arrives only when nothing is pending. */
  lemma StepFacts(c: RunCursor, event: Transition)
    ensures Reduce(c, event) == Ok(Next(c, event)) || (Reduce(c, event) == Err && Next(c, event) == c)
    ensures c.seenTools <= Next(c, event).seenTools
    ensures forall id | id in c.seenTools && id !in Ids(c.pending) :: id !in Ids(Next(c, event).pending)
    ensures event.Selected? && Reduce(c, event).Ok? ==> c.pending == []
    ensures c.state.Finished? ==>
              && Next(c, event).state == c.state && Next(c, event).iteration == c.iteration
              && Ids(Next(c, event).pending) <= Ids(c.pending)
    ensures Next(c, event).runId == c.runId
  {
    match event
    case Selected(calls) =>
      if Reduce(c, event).Ok? {
        forall id | id in Ids(calls)
          ensures id !in c.seenTools
        {
          assert forall i | 0 <= i < |calls| :: calls[i].id !in c.seenTools;
        }
      }
    case Observed(id) => WithoutMembers(c.pending, id);
    case Answer(id) => WithoutMembers(c.pending, id);
    case _ =>
  }

  /** A selected id that is no longer pending never becomes pending again. */
  lemma {:induction false} SettledStaysSettled(run: RunId, events: seq<Transition>, n: nat, id: string)
    requires n <= |events|
    requires id in Follow(run, events[..n]).seenTools && id !in Ids(Follow(run, events[..n]).pending)
    ensures id in Follow(run, events).seenTools && id !in Ids(Follow(run, events).pending)
    decreases |events|
  {
    if n == |events| {
      assert events[..n] == events;
    } else {
      var earlier := events[..|events| - 1];
      assert earlier[..n] == events[..n];
      SettledStaysSettled(run, earlier, n, id);
      StepFacts(Follow(run, earlier), events[|events| - 1]);
    }
  }

  /** A finished run keeps its status and selects nothing more. */
  lemma {:induction false} FinishedIsFinal(run: RunId, events: seq<Transition>, n: nat)
    requires n <= |events|
    requires Follow(run, events[..n]).state.Finished?
    ensures Follow(run, events).state == Follow(run, events[..n]).state
    ensures Follow(run, events).iteration == Follow(run, events[..n]).iteration
    decreases |events|
  {
    if n == |events| {
      assert events[..n] == events;
    } else {
      var earlier := events[..|events| - 1];
      assert earlier[..n] == events[..n];
      FinishedIsFinal(run, earlier, n);
      StepFacts(Follow(run, earlier), events[|events| - 1]);
    }
  }

  ghost predicate RequestPending(c: RunCursor) {
    c.state.WaitingForInput? ==> c.state.request.id in Ids(c.pending)
  }

  /** A waiting run keeps its request pending through every event but the observation of that very call. */
  lemma WaitingLosesRequestExactly(c: RunCursor, event: Transition)
    requires RequestPending(c)
    ensures RequestPending(Next(c, event)) <==>
            !(c.state.WaitingForInput? && event == Observed(c.state.request.id))
  {
    match event
    case Observed(id) =>
      WithoutMembers(c.pending, id);
      if c.state.WaitingForInput? && id != c.state.request.id {
        var call :| call in c.pending && call.id == c.state.request.id;
        assert call in Without(c.pending, id);
      }
    case _ =>
  }
}
