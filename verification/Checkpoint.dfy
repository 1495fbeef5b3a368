/** The saved checkpoint of a suspended run, the human answer it waits for, and its resumption. */
module Checkpoint {
  import opened Wrappers
  import opened Protocol
  import opened Continuation
  import Dispatch
  import Sequencing

  datatype HumanAction = Accept | Decline | CancelRequest

  datatype HumanAnswer = HumanAnswer(requestId: string, action: HumanAction, content: string)

  datatype RunCheckpoint = RunCheckpoint(direct: bool, cursor: RunCursor, acceptedAnswer: Option<HumanAnswer>)

  /** Whether some content meets the schema of a request. */
  type Schemas = (string, string) -> bool

  function Effective(record: RunCheckpoint, answer: Option<HumanAnswer>): Option<HumanAnswer> {
    if answer.Some? then answer else record.acceptedAnswer
  }

  predicate ValidateResume(valid: Schemas, record: RunCheckpoint, run: RunId, answer: Option<HumanAnswer>) {
    && record.cursor.runId == run
    && !(record.acceptedAnswer.Some? && answer.Some? && record.acceptedAnswer != answer)
    && match (record.cursor.state, Effective(record, answer))
       case (Running, None) => true
       case (Paused, None) => true
       case (WaitingForInput(request), Some(given)) =>
         request.id == given.requestId && (given.action.Accept? ==> valid(request.schema, given.content))
       case _ => false
  }

  /** Starting to wait forgets the earlier answer, even when the cursor then rejects the transition. */
  function AfterTransition(record: RunCheckpoint, event: Transition): RunCheckpoint {
    var cleared := if event.Wait? then record.(acceptedAnswer := None) else record;
    cleared.(cursor := Next(cleared.cursor, event))
  }

  function AfterTransitions(record: RunCheckpoint, events: seq<Transition>): RunCheckpoint {
    if events == [] then record
    else AfterTransition(AfterTransitions(record, events[..|events| - 1]), events[|events| - 1])
  }

  function Observations(calls: seq<ToolCall>): (events: seq<Transition>)
    ensures |events| == |calls| && forall i | 0 <= i < |calls| :: events[i] == Observed(calls[i].id)
  {
    seq(|calls|, i requires 0 <= i < |calls| => Observed(calls[i].id))
  }

  /** The transitions with which a resumed run continues; a refused request withholds every other pending call. */
  function ResumptionSteps(record: RunCheckpoint, answer: Option<HumanAnswer>): (steps: seq<Transition>)
    ensures steps != []
  {
    match Effective(record, answer)
    case None => [Transition.Resume]
    case Some(given) =>
      [Answer(given.requestId)]
      + if given.action.Accept? then [] else Observations(Without(record.cursor.pending, given.requestId))
  }

  /** The checkpoint with which a resumed run continues. */
  function Resumed(record: RunCheckpoint, answer: Option<HumanAnswer>): RunCheckpoint {
    AfterTransitions(record, ResumptionSteps(record, answer))
  }

  /**
   Whether a resumption gets as far as changing anything: `sameConfiguration` says that model, prompt, tools and
   working directory are those of the record, and `settled` that a call has no unknown outcome.
   */
  predicate MayResume(valid: Schemas, record: RunCheckpoint, run: RunId, answer: Option<HumanAnswer>,
                      sameConfiguration: bool, settled: ToolCall -> bool)
  {
    && ValidateResume(valid, record, run, answer)
    && (record.direct ==> |record.cursor.pending| == 1)
    && sameConfiguration
    && forall call | call in record.cursor.pending :: settled(call)
  }

  function NextEvent(events: seq<RunEvent>, run: RunId, kind: EventKind): RunEvent {
    RunEvent(RUN_EVENT_SCHEMA_VERSION, Dispatch.MaxSequence(events, run) + 1, run, kind)
  }

  function Min(a: nat, b: nat): nat {
    if a <= b then a else b
  }

  /** The part of an agent that holds the live checkpoint, beside the stored one and the journal. */
  class Agent {
    var continuation: Option<RunCheckpoint>
    var stored: Option<RunCheckpoint>
    var events: seq<RunEvent>
    const valid: Schemas

    constructor (valid: Schemas, stored: Option<RunCheckpoint>, events: seq<RunEvent>)
      ensures this.valid == valid && this.stored == stored && this.events == events && continuation == None
    {
      this.valid := valid;
      this.stored := stored;
      this.events := events;
      continuation := None;
    }

    /** `writable` says whether the store accepts the record. */
    method TakeTransition(event: Transition, writable: bool) returns (ok: bool)
      modifies this`continuation, this`stored
      ensures old(continuation).None? ==> ok && continuation == None && stored == old(stored)
      ensures old(continuation).Some? ==>
                && continuation == Some(AfterTransition(old(continuation.value), event))
                && ok == (Reduce(old(continuation.value.cursor), event).Ok? && writable)
                && stored == if ok then continuation else old(stored)
    {
      if continuation.Some? {
        var record := continuation.value;
        if event.Wait? {
          record := record.(acceptedAnswer := None);
        }
        var reduced := Reduce(record.cursor, event);
        if reduced.Err? {
          continuation := Some(record);
          return false;
        }
        continuation := Some(record.(cursor := reduced.value));
        if !writable {
          return false;
        }
        stored := continuation;
      }
      ok := true;
    }

    /** Accepts a human answer for the stored run; the first valid answer is kept. */
    method AcceptAnswer(answer: HumanAnswer, writable: bool) returns (ok: bool)
      requires stored.Some?
      modifies this`stored
      ensures ok == (writable && ValidateResume(valid, old(stored.value), old(stored.value.cursor.runId), Some(answer)))
      ensures stored == if ok then Some(old(stored.value).(acceptedAnswer := Some(answer))) else old(stored)
    {
      var record := stored.value;
      if !ValidateResume(valid, record, record.cursor.runId, Some(answer)) {
        return false;
      }
      if !writable {
        return false;
      }
      stored := Some(record.(acceptedAnswer := Some(answer)));
      ok := true;
    }

    /** Saves the record as cancelled, and then appends the event; `writes` is how many writes succeed. */
    method Cancel(writes: nat) returns (ok: bool)
      modifies this`stored, this`events
      ensures old(stored).None? || old(stored.value.cursor.state).Finished? ==>
                ok && stored == old(stored) && events == old(events)
      ensures old(stored).Some? && !old(stored.value.cursor.state).Finished? ==>
                && ok == (writes >= 2)
                && stored == (if writes == 0 then old(stored)
                              else Some(old(stored.value).(cursor := old(stored.value.cursor).(
                                          state := RunState.Finished(RunStatus.Cancelled)))))
                && events == old(events) + if ok
                                           then [NextEvent(old(events), old(stored.value.cursor.runId),
                                                           RunFinished(RunStatus.Cancelled))]
                                           else []
    {
      if stored.None? {
        return true;
      }
      var record := stored.value;
      if record.cursor.state.Finished? {
        return true;
      }
      if writes == 0 {
        return false;
      }
      stored := Some(record.(cursor := record.cursor.(state := RunState.Finished(RunStatus.Cancelled))));
      if writes == 1 {
        return false;
      }
      events := events + [NextEvent(events, record.cursor.runId, RunFinished(RunStatus.Cancelled))];
      ok := true;
    }

    method CheckResumption(record: RunCheckpoint, run: RunId, answer: Option<HumanAnswer>, sameConfiguration: bool,
                           settled: ToolCall -> bool) returns (may: bool)
      ensures may == MayResume(valid, record, run, answer, sameConfiguration, settled)
    {
      if !ValidateResume(valid, record, run, answer) {
        return false;
      }
      if record.direct && |record.cursor.pending| != 1 {
        return false;
      }
      if !sameConfiguration {
        return false;
      }
      for i := 0 to |record.cursor.pending|
        invariant forall j | 0 <= j < i :: settled(record.cursor.pending[j])
      {
        if !settled(record.cursor.pending[i]) {
          return false;
        }
      }
      may := true;
    }

    /**
     Loads the stored run, resets the pause request, answers or resumes the run, withholds what a refused request
     leaves pending, and records the resumption; `writes` is how many of these writes succeed. The ids of a saved
     cursor are distinct, as every reachable cursor guarantees.
     */
    method ResumeRun(run: RunId, answer: Option<HumanAnswer>, sameConfiguration: bool, settled: ToolCall -> bool,
                     writes: nat) returns (ok: bool)
      requires stored.Some? ==> DistinctIds(stored.value.cursor.pending)
      modifies this
      ensures old(stored).None? || !MayResume(valid, old(stored.value), run, answer, sameConfiguration, settled) ==>
                !ok && stored == old(stored) && continuation == old(continuation) && events == old(events)
      ensures old(stored).Some? && MayResume(valid, old(stored.value), run, answer, sameConfiguration, settled) ==>
                var record := old(stored.value);
                var steps := ResumptionSteps(record, answer);
                && ok == (writes >= |steps| + 2)
                && events == old(events) + (if ok then [NextEvent(old(events), run, RunResumed)] else [])
                && if writes == 0 then stored == old(stored) && continuation == old(continuation)
                   else
                     && stored == Some(AfterTransitions(record, steps[..Min(writes - 1, |steps|)]))
                     && continuation == Some(AfterTransitions(record, steps[..Min(writes, |steps|)]))
    {
      if stored.None? {
        return false;
      }
      hide MayResume, DistinctIds, ResumptionSteps, AfterTransition, AfterTransitions, Reduce, NextEvent;
      var record := stored.value;
      var may := CheckResumption(record, run, answer, sameConfiguration, settled);
      if !may || writes == 0 {
        return false;
      }
      var steps := ResumptionSteps(record, answer);
      continuation := Some(record);
      NoTransitions(record, steps);
      for i := 0 to |steps|
        invariant continuation == stored == Some(AfterTransitions(record, steps[..i]))
        invariant writes > i && events == old(events)
      {
        StepSucceeds(valid, record, run, answer, sameConfiguration, settled, i);
        OneMoreTransition(record, steps, i);
        ok := TakeTransition(steps[i], writes > i + 1);
        if !ok {
          return false;
        }
      }
      if writes == |steps| + 1 {
        return false;
      }
      events := events + [NextEvent(events, run, RunResumed)];
      ok := true;
    }
  }

  // ------------------------------------------------------------------------
  // Resumption
  // ------------------------------------------------------------------------

  /** The conditions of a resumption, spelled out for every state of the saved run. */
  lemma MayResumeExactly(valid: Schemas, record: RunCheckpoint, run: RunId, answer: Option<HumanAnswer>,
                         sameConfiguration: bool, settled: ToolCall -> bool)
    ensures MayResume(valid, record, run, answer, sameConfiguration, settled) <==>
            && record.cursor.runId == run && sameConfiguration
            && (forall i | 0 <= i < |record.cursor.pending| :: settled(record.cursor.pending[i]))
            && (record.direct ==> |record.cursor.pending| == 1)
            && match record.cursor.state
               case Finished(_) => false
               case WaitingForInput(request) =>
                 exists given: HumanAnswer ::
                   && given.requestId == request.id
                   && (given.action == Accept ==> valid(request.schema, given.content))
                   && ((answer == Some(given) && record.acceptedAnswer in {None, Some(given)})
                       || (answer == None && record.acceptedAnswer == Some(given)))
               case _ => answer == None && record.acceptedAnswer == None
  {
    if record.cursor.state.WaitingForInput? && Effective(record, answer).Some? {
      var given := Effective(record, answer).value;
      assert answer == Some(given) || record.acceptedAnswer == Some(given);
    }
  }

  /** The next event of a run is numbered above all its events in the journal, by one more than the last of them. */
  lemma NextEventFollows(events: seq<RunEvent>, run: RunId, kind: EventKind)
    ensures var next := NextEvent(events, run, kind);
            && next.runId == run && next.kind == kind && next.schemaVersion == 1
            && (forall i | 0 <= i < |events| && events[i].runId == run :: events[i].sequence < next.sequence)
            && (next.sequence == 1
                || exists i :: 0 <= i < |events| && events[i].runId == run && events[i].sequence + 1 == next.sequence)
  {
    Sequencing.MaxSequenceBounds(events, run);
    Sequencing.MaxSequenceOccurs(events, run);
  }

  /**
   Whatever was answered before, a run that waits for a request can take exactly the answers to it that fit; a wait
   that the cursor rejects forgets the stored answer all the same.
   */
  lemma WaitingTakesNewAnswer(valid: Schemas, record: RunCheckpoint, request: HumanInputRequest, answer: HumanAnswer)
    ensures var waiting := AfterTransition(record, Wait(request));
            && waiting.acceptedAnswer == None && waiting.direct == record.direct
            && if Reduce(record.cursor, Wait(request)).Err? then waiting.cursor == record.cursor
               else
                 && waiting.cursor == record.cursor.(state := RunState.WaitingForInput(request))
                 && !ValidateResume(valid, waiting, record.cursor.runId, None)
                 && (ValidateResume(valid, waiting, record.cursor.runId, Some(answer)) <==>
                     && answer.requestId == request.id
                     && (answer.action == Accept ==> valid(request.schema, answer.content)))
  {
  }

  lemma NoTransitions(record: RunCheckpoint, steps: seq<Transition>)
    ensures AfterTransitions(record, steps[..0]) == record
  {
    assert steps[..0] == [];
  }

  lemma OneMoreTransition(record: RunCheckpoint, steps: seq<Transition>, i: nat)
    requires i < |steps|
    ensures AfterTransitions(record, steps[..i + 1]) == AfterTransition(AfterTransitions(record, steps[..i]), steps[i])
  {
    assert steps[..i + 1][..i] == steps[..i];
  }

  lemma WithoutFirst(calls: seq<ToolCall>)
    requires calls != [] && DistinctIds(calls)
    ensures Without(calls, calls[0].id) == calls[1..]
  {
    WithoutNone(calls[1..], calls[0].id);
  }

  lemma ObserveFirst(record: RunCheckpoint)
    requires record.cursor.pending != [] && DistinctIds(record.cursor.pending)
    ensures var pending := record.cursor.pending;
            && pending[0].id in Ids(pending)
            && AfterTransition(record, Observed(pending[0].id))
               == record.(cursor := record.cursor.(pending := pending[1..]))
  {
    WithoutFirst(record.cursor.pending);
    assert record.cursor.pending[0] in record.cursor.pending;
  }

  /** After the first `n` of them the pending calls are observed from the front. */
  lemma {:induction false} ObservedPrefix(record: RunCheckpoint, n: nat)
    requires n <= |record.cursor.pending| && DistinctIds(record.cursor.pending)
    ensures var pending := record.cursor.pending;
            && AfterTransitions(record, Observations(pending)[..n])
               == record.(cursor := record.cursor.(pending := pending[n..]))
            && (n < |pending| ==> pending[n].id in Ids(pending[n..]))
    decreases n
  {
    var pending := record.cursor.pending;
    if n < |pending| {
      assert pending[n..][0] == pending[n];
      ObserveFirst(record.(cursor := record.cursor.(pending := pending[n..])));
    }
    if n == 0 {
      assert pending[0..] == pending;
    } else {
      hide Ids, AfterTransition, DistinctIds;
      ObservedPrefix(record, n - 1);
      ObservedNext(record, n);
      assert Observations(pending)[..n][..n - 1] == Observations(pending)[..n - 1];
    }
  }

  lemma ObservedNext(record: RunCheckpoint, n: nat)
    requires 0 < n <= |record.cursor.pending| && DistinctIds(record.cursor.pending)
    ensures var pending := record.cursor.pending;
            AfterTransition(record.(cursor := record.cursor.(pending := pending[n - 1..])), Observed(pending[n - 1].id))
            == record.(cursor := record.cursor.(pending := pending[n..]))
  {
    var pending := record.cursor.pending;
    assert pending[n - 1..][0] == pending[n - 1] && pending[n - 1..][1..] == pending[n..];
    ObserveFirst(record.(cursor := record.cursor.(pending := pending[n - 1..])));
  }

  lemma {:induction false} TransitionsConcatenate(record: RunCheckpoint, a: seq<Transition>, b: seq<Transition>)
    ensures AfterTransitions(record, a + b) == AfterTransitions(AfterTransitions(record, a), b)
    decreases |b|
  {
    if b == [] {
      assert a + b == a;
    } else {
      assert (a + b)[..|a + b| - 1] == a + b[..|b| - 1];
      TransitionsConcatenate(record, a, b[..|b| - 1]);
    }
  }

  /** The record after the answer and the first `n` observations of a refusal. */
  lemma RefusalPrefix(record: RunCheckpoint, given: HumanAnswer, n: nat)
    requires DistinctIds(record.cursor.pending)
    requires n <= |Without(record.cursor.pending, given.requestId)|
    requires record.cursor.state.WaitingForInput? && record.cursor.state.request.id == given.requestId
    ensures var pending := Without(record.cursor.pending, given.requestId);
            var answered := AfterTransition(record, Answer(given.requestId));
            && answered == record.(cursor := record.cursor.(pending := pending, state := RunState.Running))
            && AfterTransitions(record, [Answer(given.requestId)] + Observations(pending)[..n])
               == answered.(cursor := answered.cursor.(pending := pending[n..]))
            && (n < |pending| ==> pending[n].id in Ids(pending[n..]))
  {
    var pending := Without(record.cursor.pending, given.requestId);
    var answered := AfterTransition(record, Answer(given.requestId));
    WithoutMembers(record.cursor.pending, given.requestId);
    ObservedPrefix(answered, n);
    TransitionsConcatenate(record, [Answer(given.requestId)], Observations(pending)[..n]);
    assert [Answer(given.requestId)][..0] == [];
    assert AfterTransitions(record, [Answer(given.requestId)]) == answered;
  }

  /** No step of a validated resumption is rejected. */
  lemma ResumptionStepSucceeds(valid: Schemas, record: RunCheckpoint, run: RunId, answer: Option<HumanAnswer>, i: nat)
    requires ValidateResume(valid, record, run, answer) && DistinctIds(record.cursor.pending)
    requires i < |ResumptionSteps(record, answer)|
    ensures var steps := ResumptionSteps(record, answer);
            Reduce(AfterTransitions(record, steps[..i]).cursor, steps[i]).Ok?
  {
    var steps := ResumptionSteps(record, answer);
    assert steps[..0] == [];
    match Effective(record, answer)
    case None =>
    case Some(given) =>
      if i > 0 {
        var observations := Observations(Without(record.cursor.pending, given.requestId));
        assert steps[..i] == [Answer(given.requestId)] + observations[..i - 1];
        RefusalPrefix(record, given, i - 1);
      }
  }

  lemma StepSucceeds(valid: Schemas, record: RunCheckpoint, run: RunId, answer: Option<HumanAnswer>,
                     sameConfiguration: bool, settled: ToolCall -> bool, i: nat)
    requires MayResume(valid, record, run, answer, sameConfiguration, settled) && DistinctIds(record.cursor.pending)
    requires i < |ResumptionSteps(record, answer)|
    ensures var steps := ResumptionSteps(record, answer);
            Reduce(AfterTransitions(record, steps[..i]).cursor, steps[i]).Ok?
  {
    ResumptionStepSucceeds(valid, record, run, answer, i);
  }

  /**
   A validated resumption always gets the run running again: with its pending calls as they were,
   with the answered request gone, or after a refused request with nothing left to execute.
   */
  lemma ResumptionSucceeds(valid: Schemas, record: RunCheckpoint, run: RunId, answer: Option<HumanAnswer>)
    requires ValidateResume(valid, record, run, answer) && DistinctIds(record.cursor.pending)
    ensures var resumed := Resumed(record, answer).cursor;
            && resumed.state.Running? && resumed.runId == run
            && resumed.seenTools == record.cursor.seenTools && resumed.iteration == record.cursor.iteration
            && match Effective(record, answer)
               case None => resumed.pending == record.cursor.pending
               case Some(given) =>
                 && given.requestId !in Ids(resumed.pending)
                 && if given.action.Accept?
                    then forall c :: c in resumed.pending <==> c in record.cursor.pending && c.id != given.requestId
                    else resumed.pending == []
  {
    match Effective(record, answer)
    case None => OneTransition(record, Transition.Resume);
    case Some(given) =>
      WithoutMembers(record.cursor.pending, given.requestId);
      var pending := Without(record.cursor.pending, given.requestId);
      hide DistinctIds, Without, Observations;
      if given.action.Accept? {
        RefusalPrefix(record, given, 0);
        assert [Answer(given.requestId)] + Observations(pending)[..0] == [Answer(given.requestId)];
      } else {
        RefusalPrefix(record, given, |pending|);
        assert Observations(pending)[..|pending|] == Observations(pending);
      }
  }

  lemma OneTransition(record: RunCheckpoint, event: Transition)
    ensures AfterTransitions(record, [event]) == AfterTransition(record, event)
  {
    assert [event][..0] == [];
    assert AfterTransitions(record, [event][..0]) == record;
  }

  /** Once an answer is accepted, it is the only one with which, or without which, the run resumes. */
  lemma FirstAnswerWins(valid: Schemas, record: RunCheckpoint, first: HumanAnswer, other: Option<HumanAnswer>)
    requires ValidateResume(valid, record, record.cursor.runId, Some(first))
    ensures var accepted := record.(acceptedAnswer := Some(first));
            ValidateResume(valid, accepted, record.cursor.runId, other) <==> other == None || other == Some(first)
  {
  }

  ghost predicate CanBeResumed(valid: Schemas, record: RunCheckpoint) {
    exists answer :: ValidateResume(valid, record, record.cursor.runId, answer)
  }

  /** A saved run can be resumed at all exactly when it is unfinished and no answer stands in the way. */
  lemma ResumableExactly(valid: Schemas, record: RunCheckpoint)
    ensures CanBeResumed(valid, record) <==>
            match record.cursor.state
            case Running => record.acceptedAnswer.None?
            case Paused => record.acceptedAnswer.None?
            case Finished(_) => false
            case WaitingForInput(request) =>
              record.acceptedAnswer.Some? ==>
                && record.acceptedAnswer.value.requestId == request.id
                && (record.acceptedAnswer.value.action.Accept? ==>
                      valid(request.schema, record.acceptedAnswer.value.content))
  {
    var run := record.cursor.runId;
    var unanswered := ValidateResume(valid, record, run, None);
    var declined := record.cursor.state.WaitingForInput? &&
                    ValidateResume(valid, record, run, Some(HumanAnswer(record.cursor.state.request.id, Decline, "")));
  }

  /** A waiting run whose answer was stored first, then resumed and paused again, cannot be resumed any more. */
  lemma StoredAnswerBlocksLaterResume(valid: Schemas, record: RunCheckpoint, given: HumanAnswer,
                                      answer: Option<HumanAnswer>)
    requires ValidateResume(valid, record, record.cursor.runId, Some(given))
    requires DistinctIds(record.cursor.pending)
    ensures var accepted := record.(acceptedAnswer := Some(given));
            var paused := AfterTransition(Resumed(accepted, None), Pause);
            && paused.cursor.state.Paused?
            && !ValidateResume(valid, paused, record.cursor.runId, answer)
  {
    var accepted := record.(acceptedAnswer := Some(given));
    ResumptionSucceeds(valid, accepted, record.cursor.runId, None);
    AnswerKept(accepted, None);
  }

  lemma AnswerKept(record: RunCheckpoint, answer: Option<HumanAnswer>)
    ensures Resumed(record, answer).acceptedAnswer == record.acceptedAnswer
  {
    StepsKeepAnswer(record, ResumptionSteps(record, answer));
  }

  lemma {:induction false} StepsKeepAnswer(record: RunCheckpoint, steps: seq<Transition>)
    requires forall i | 0 <= i < |steps| :: !steps[i].Wait?
    ensures AfterTransitions(record, steps).acceptedAnswer == record.acceptedAnswer
    decreases |steps|
  {
    if steps != [] {
      StepsKeepAnswer(record, steps[..|steps| - 1]);
    }
  }

  /**
   A resumption that a failing write cuts off after `n` of its steps leaves a record that can be resumed again
   exactly when nothing of it was saved yet or no answer had been stored before.
   */
  lemma CutResumptionExactly(valid: Schemas, record: RunCheckpoint, run: RunId, answer: Option<HumanAnswer>, n: nat)
    requires ValidateResume(valid, record, run, answer) && DistinctIds(record.cursor.pending)
    requires n <= |ResumptionSteps(record, answer)|
    ensures var left := AfterTransitions(record, ResumptionSteps(record, answer)[..n]);
            CanBeResumed(valid, left) <==> n == 0 || record.acceptedAnswer.None?
  {
    var steps := ResumptionSteps(record, answer);
    var left := AfterTransitions(record, steps[..n]);
    if n == 0 {
      assert steps[..n] == [];
      assert left == record;
      assert ValidateResume(valid, left, run, answer);
    } else {
      StepsKeepAnswer(record, steps[..n]);
      RunningAfterSteps(valid, record, run, answer, n);
      ResumableExactly(valid, left);
    }
  }

  lemma RunningAfterSteps(valid: Schemas, record: RunCheckpoint, run: RunId, answer: Option<HumanAnswer>, n: nat)
    requires ValidateResume(valid, record, run, answer) && DistinctIds(record.cursor.pending)
    requires 0 < n <= |ResumptionSteps(record, answer)|
    ensures var left := AfterTransitions(record, ResumptionSteps(record, answer)[..n]).cursor;
            left.state.Running? && left.runId == run
  {
    var steps := ResumptionSteps(record, answer);
    assert steps[..0] == [];
    match Effective(record, answer)
    case None => assert steps[..1] == steps;
    case Some(given) =>
      var pending := Without(record.cursor.pending, given.requestId);
      if given.action.Accept? {
        assert steps[..1] == [Answer(given.requestId)] + Observations(pending)[..0];
      } else {
        assert steps[..n] == [Answer(given.requestId)] + Observations(pending)[..n - 1];
      }
      RefusalPrefix(record, given, n - 1);
  }
}
