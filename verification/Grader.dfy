/** Grading of one run from its event stream, against a declarative reading of what a sound trajectory is. */
module Grader {
  import opened Wrappers
  import opened Protocol

  datatype Failure =
    | RunStartedCount(found: nat)
    | SequenceNotIncreasing
    | UnsupportedSchema
    | EventAfterFinish
    | DuplicateRequest(id: string)
    | AuthorizationWithoutRequest(id: string)
    | DuplicateAuthorization(id: string)
    | OverlappingAttempt(iteration: nat)
    | AttemptEndedWithoutStart(iteration: nat)
    | StartedWithoutAuthorization(id: string)
    | StartedTwice(id: string)
    | FinishedWithoutStart(id: string)
    | UnknownWithoutStart(id: string)
    | MultipleTerminalEvents(id: string)
    | UnknownOutcome(id: string)
    | UnfinishedAttempt
    | RunFinishedCount(found: nat)
    | NotCompleted(status: Option<RunStatus>)
    | RemainUnresolved(count: nat)

  datatype RunEvaluation = RunEvaluation(
    runId: RunId,
    passed: bool,
    status: Option<RunStatus>,
    llmAttempts: nat,
    toolCallsStarted: nat,
    toolCallsFailed: nat,
    unresolved: seq<Unresolved>,
    failures: seq<Failure>)

  function OfRun(events: seq<RunEvent>, run: RunId): seq<RunEvent> {
    if events == [] then []
    else
      var last := events[|events| - 1];
      OfRun(events[..|events| - 1], run) + if last.runId == run then [last] else []
  }

  // ------------------------------------------------------------------------
  // What a passing trajectory is
  // ------------------------------------------------------------------------

  ghost predicate RequestsTool(e: RunEvent, id: string) {
    e.kind.ToolRequested? && e.kind.toolUseId == id
  }

  ghost predicate AuthorizesTool(e: RunEvent, id: string) {
    e.kind.ToolAuthorized? && e.kind.toolUseId == id
  }

  ghost predicate StartsTool(e: RunEvent, id: string) {
    e.kind.ToolStarted? && e.kind.toolUseId == id
  }

  ghost predicate FinishesTool(e: RunEvent, id: string) {
    e.kind.ToolFinished? && e.kind.toolUseId == id
  }

  ghost predicate StartsAttempt(e: RunEvent, iteration: nat) {
    e.kind.LlmAttemptStarted? && e.kind.iteration == iteration
  }

  ghost predicate EndsAttempt(e: RunEvent, iteration: nat) {
    (e.kind.LlmAttemptCompleted? || e.kind.LlmAttemptFailed?) && e.kind.iteration == iteration
  }

  /** The last event about a model attempt of the iteration, among the first `n`, started one. */
  ghost predicate AttemptOpen(es: seq<RunEvent>, n: nat, iteration: nat)
    requires n <= |es|
  {
    n > 0 && (StartsAttempt(es[n - 1], iteration)
              || (!EndsAttempt(es[n - 1], iteration) && AttemptOpen(es, n - 1, iteration)))
  }

  ghost predicate OrderedAndSupported(es: seq<RunEvent>) {
    && (forall i, j | 0 <= i < j < |es| :: es[i].sequence < es[j].sequence)
    && (forall i | 0 <= i < |es| :: es[i].schemaVersion == RUN_EVENT_SCHEMA_VERSION)
  }

  ghost predicate StartedOnce(es: seq<RunEvent>) {
    exists i: nat :: OnlyStart(es, |es|, i)
  }

  /** Among the first `n` events the one at `i`, and no other, starts a run. */
  ghost predicate OnlyStart(es: seq<RunEvent>, n: nat, i: nat)
    requires n <= |es|
  {
    i < n && es[i].kind.RunStarted? && forall j: nat | j < n && es[j].kind.RunStarted? :: j == i
  }

  ghost predicate CompletedLast(es: seq<RunEvent>) {
    && es != [] && es[|es| - 1].kind == RunFinished(Completed)
    && forall i | 0 <= i < |es| - 1 :: !es[i].kind.RunFinished?
  }

  /** Requests, authorizations and starts are unique and each follows the one before it. */
  ghost predicate ToolsAuthorized(es: seq<RunEvent>) {
    && (forall i, j, id | 0 <= i < j < |es| && RequestsTool(es[i], id) :: !RequestsTool(es[j], id))
    && (forall i, j, id | 0 <= i < j < |es| && AuthorizesTool(es[i], id) :: !AuthorizesTool(es[j], id))
    && (forall i, j, id | 0 <= i < j < |es| && StartsTool(es[i], id) :: !StartsTool(es[j], id))
    && (forall i, id | 0 <= i < |es| && AuthorizesTool(es[i], id) ::
          exists j :: 0 <= j < i && RequestsTool(es[j], id))
    && (forall i, id | 0 <= i < |es| && StartsTool(es[i], id) ::
          exists j :: 0 <= j < i && AuthorizesTool(es[j], id) && es[j].kind.toolName == es[i].kind.toolName)
  }

  /** Finishes are unique and follow their starts, no outcome is unknown, every start is settled. */
  ghost predicate ToolsSettled(es: seq<RunEvent>) {
    && (forall i, j, id | 0 <= i < j < |es| && FinishesTool(es[i], id) :: !FinishesTool(es[j], id))
    && (forall i, id | 0 <= i < |es| && FinishesTool(es[i], id) :: exists j :: 0 <= j < i && StartsTool(es[j], id))
    && (forall i | 0 <= i < |es| :: !es[i].kind.ToolOutcomeUnknown?)
    && (forall i, id | 0 <= i < |es| && StartsTool(es[i], id) ::
          exists j :: i < j < |es| && Closes(es[j], (es[i].runId, id)))
  }

  ghost predicate AttemptsBalanced(es: seq<RunEvent>) {
    && (forall i, iteration | 0 <= i < |es| && StartsAttempt(es[i], iteration) :: !AttemptOpen(es, i, iteration))
    && (forall i, iteration | 0 <= i < |es| && EndsAttempt(es[i], iteration) :: AttemptOpen(es, i, iteration))
    && (forall iteration :: !AttemptOpen(es, |es|, iteration))
  }

  ghost predicate Passes(es: seq<RunEvent>) {
    && OrderedAndSupported(es)
    && StartedOnce(es)
    && CompletedLast(es)
    && ToolsAuthorized(es)
    && ToolsSettled(es)
    && AttemptsBalanced(es)
  }

  // ------------------------------------------------------------------------
  // Prefix facts the evaluation keeps in its sets
  // ------------------------------------------------------------------------

  ghost function Requested(es: seq<RunEvent>, n: nat): set<string>
    requires n <= |es|
  {
    if n == 0 then {}
    else Requested(es, n - 1) + if es[n - 1].kind.ToolRequested? then {es[n - 1].kind.toolUseId} else {}
  }

  /** The tool name that the last authorization of a call gives. */
  ghost function Authorized(es: seq<RunEvent>, n: nat): map<string, string>
    requires n <= |es|
  {
    if n == 0 then map[]
    else if es[n - 1].kind.ToolAuthorized? then
      Authorized(es, n - 1)[es[n - 1].kind.toolUseId := es[n - 1].kind.toolName]
    else Authorized(es, n - 1)
  }

  ghost function Started(es: seq<RunEvent>, n: nat): set<string>
    requires n <= |es|
  {
    if n == 0 then {}
    else Started(es, n - 1) + if es[n - 1].kind.ToolStarted? then {es[n - 1].kind.toolUseId} else {}
  }

  ghost function Ended(es: seq<RunEvent>, n: nat): set<string>
    requires n <= |es|
  {
    if n == 0 then {}
    else Ended(es, n - 1) + if es[n - 1].kind.ToolFinished? || es[n - 1].kind.ToolOutcomeUnknown?
                            then {es[n - 1].kind.toolUseId} else {}
  }

  ghost function Attempting(es: seq<RunEvent>, n: nat): set<nat>
    requires n <= |es|
  {
    if n == 0 then {}
    else match es[n - 1].kind
      case LlmAttemptStarted(iteration) => Attempting(es, n - 1) + {iteration}
      case LlmAttemptCompleted(iteration) => Attempting(es, n - 1) - {iteration}
      case LlmAttemptFailed(iteration) => Attempting(es, n - 1) - {iteration}
      case _ => Attempting(es, n - 1)
  }

  ghost function FinishCount(es: seq<RunEvent>, n: nat): nat
    requires n <= |es|
  {
    if n == 0 then 0 else FinishCount(es, n - 1) + if es[n - 1].kind.RunFinished? then 1 else 0
  }

  ghost function StartCount(es: seq<RunEvent>, n: nat): nat
    requires n <= |es|
  {
    if n == 0 then 0 else StartCount(es, n - 1) + if es[n - 1].kind.RunStarted? then 1 else 0
  }

  ghost function AttemptCount(es: seq<RunEvent>, n: nat): nat
    requires n <= |es|
  {
    if n == 0 then 0 else AttemptCount(es, n - 1) + if es[n - 1].kind.LlmAttemptStarted? then 1 else 0
  }

  ghost function ErrorCount(es: seq<RunEvent>, n: nat): nat
    requires n <= |es|
  {
    if n == 0 then 0
    else ErrorCount(es, n - 1) + if es[n - 1].kind.ToolFinished? && es[n - 1].kind.isError then 1 else 0
  }

  ghost function LastStatus(es: seq<RunEvent>, n: nat): Option<RunStatus>
    requires n <= |es|
  {
    if n == 0 then None
    else if es[n - 1].kind.RunFinished? then Some(es[n - 1].kind.status) else LastStatus(es, n - 1)
  }

  /** What evaluation checks of event `k` against the events before it. */
  ghost predicate EventOk(es: seq<RunEvent>, k: nat)
    requires k < |es|
  {
    HeaderOk(es, k) && KindOk(es, k)
  }

  ghost predicate HeaderOk(es: seq<RunEvent>, k: nat)
    requires k < |es|
  {
    && (k > 0 ==> es[k - 1].sequence < es[k].sequence)
    && es[k].schemaVersion == RUN_EVENT_SCHEMA_VERSION
    && FinishCount(es, k) == 0
  }

  ghost predicate KindOk(es: seq<RunEvent>, k: nat)
    requires k < |es|
  {
    match es[k].kind
    case ToolRequested(id) => id !in Requested(es, k)
    case ToolAuthorized(id, _) => id in Requested(es, k) && id !in Authorized(es, k)
    case LlmAttemptStarted(iteration) => iteration !in Attempting(es, k)
    case LlmAttemptCompleted(iteration) => iteration in Attempting(es, k)
    case LlmAttemptFailed(iteration) => iteration in Attempting(es, k)
    case ToolStarted(id, name, _) =>
      id in Authorized(es, k) && Authorized(es, k)[id] == name && id !in Started(es, k)
    case ToolFinished(id, _) => id in Started(es, k) && id !in Ended(es, k)
    case ToolOutcomeUnknown(_) => false
    case _ => true
  }

  ghost predicate AllOk(es: seq<RunEvent>, n: nat)
    requires n <= |es|
  {
    forall k | 0 <= k < n :: EventOk(es, k)
  }

  // ------------------------------------------------------------------------
  // Evaluating a run
  // ------------------------------------------------------------------------

  class GraderState {
    var failures: seq<Failure>
    var previousSequence: Option<nat>
    var requested: set<string>
    var authorized: map<string, string>
    var activeAttempts: set<nat>
    var started: set<string>
    var terminal: set<string>
    var callsFailed: nat
    var status: Option<RunStatus>
    var finishCount: nat
    var attempts: nat

    constructor (startCount: nat)
      ensures previousSequence == None && Reflects([], 0) && (failures == [] <==> startCount == 1)
    {
      failures := if startCount == 1 then [] else [RunStartedCount(startCount)];
      previousSequence, requested, authorized, activeAttempts := None, {}, map[], {};
      started, terminal, callsFailed, status, finishCount, attempts := {}, {}, 0, None, 0, 0;
    }

    /** The sets and counters describe the first `n` events. */
    ghost predicate Reflects(es: seq<RunEvent>, n: nat)
      requires n <= |es|
      reads this
    {
      && ReflectsTools(es, n)
      && activeAttempts == Attempting(es, n)
      && status == LastStatus(es, n)
      && finishCount == FinishCount(es, n)
      && attempts == AttemptCount(es, n)
    }

    ghost predicate ReflectsTools(es: seq<RunEvent>, n: nat)
      requires n <= |es|
      reads this
    {
      && requested == Requested(es, n)
      && authorized == Authorized(es, n)
      && started == Started(es, n)
      && terminal == Ended(es, n)
      && callsFailed == ErrorCount(es, n)
    }

    method Fail(failure: Failure)
      modifies this`failures
      ensures failures == old(failures) + [failure]
    {
      failures := failures + [failure];
    }

    method CheckHeader(ghost es: seq<RunEvent>, ghost k: nat, event: RunEvent)
      requires k < |es| && event == es[k]
      requires finishCount == FinishCount(es, k)
      requires previousSequence == if k == 0 then None else Some(es[k - 1].sequence)
      modifies this`failures, this`previousSequence
      ensures previousSequence == Some(es[k].sequence)
      ensures failures == [] <==> old(failures) == [] && HeaderOk(es, k)
    {
      if previousSequence.Some? && event.sequence <= previousSequence.value {
        Fail(SequenceNotIncreasing);
      }
      previousSequence := Some(event.sequence);
      if event.schemaVersion != RUN_EVENT_SCHEMA_VERSION {
        Fail(UnsupportedSchema);
      }
      if finishCount > 0 {
        Fail(EventAfterFinish);
      }
    }

    /** The arms of the event match that are about model attempts and the end of the run. */
    method CheckRunEvent(ghost es: seq<RunEvent>, ghost k: nat, event: RunEvent)
      requires k < |es| && event == es[k] && !IsToolKind(event.kind)
      requires Reflects(es, k)
      modifies this`failures, this`attempts, this`activeAttempts, this`finishCount, this`status
      ensures Reflects(es, k + 1)
      ensures failures == [] <==> old(failures) == [] && KindOk(es, k)
    {
      match event.kind {
        case LlmAttemptStarted(iteration) =>
          attempts := attempts + 1;
          if iteration in activeAttempts {
            Fail(OverlappingAttempt(iteration));
          }
          activeAttempts := activeAttempts + {iteration};
        case LlmAttemptCompleted(iteration) =>
          EndAttempt(iteration);
        case LlmAttemptFailed(iteration) =>
          EndAttempt(iteration);
        case RunFinished(finalStatus) =>
          finishCount := finishCount + 1;
          status := Some(finalStatus);
        case _ =>
      }
    }

    /** The arms that are about tool calls. */
    method CheckToolEvent(ghost es: seq<RunEvent>, ghost k: nat, event: RunEvent)
      requires k < |es| && event == es[k] && IsToolKind(event.kind)
      requires Reflects(es, k)
      modifies this`failures, this`requested, this`authorized, this`started, this`terminal, this`callsFailed
      ensures Reflects(es, k + 1)
      ensures failures == [] <==> old(failures) == [] && KindOk(es, k)
    {
      match event.kind {
        case ToolRequested(id) =>
          if id in requested {
            Fail(DuplicateRequest(id));
          }
          requested := requested + {id};
        case ToolAuthorized(id, name) =>
          if id !in requested {
            Fail(AuthorizationWithoutRequest(id));
          }
          if id in authorized {
            Fail(DuplicateAuthorization(id));
          }
          authorized := authorized[id := name];
        case ToolStarted(id, name, _) =>
          if !(id in authorized && authorized[id] == name) {
            Fail(StartedWithoutAuthorization(id));
          }
          if id in started {
            Fail(StartedTwice(id));
          }
          started := started + {id};
        case ToolFinished(_, _) => CheckToolEnd(es, k, event);
        case ToolOutcomeUnknown(_) => CheckToolEnd(es, k, event);
      }
    }

    method CheckToolEnd(ghost es: seq<RunEvent>, ghost k: nat, event: RunEvent)
      requires k < |es| && event == es[k] && (event.kind.ToolFinished? || event.kind.ToolOutcomeUnknown?)
      requires Reflects(es, k)
      modifies this`failures, this`terminal, this`callsFailed
      ensures Reflects(es, k + 1)
      ensures failures == [] <==> old(failures) == [] && KindOk(es, k)
    {
      var id := event.kind.toolUseId;
      if event.kind.ToolFinished? {
        if id !in started {
          Fail(FinishedWithoutStart(id));
        }
        EndTool(id);
        callsFailed := callsFailed + if event.kind.isError then 1 else 0;
      } else {
        if id !in started {
          Fail(UnknownWithoutStart(id));
        }
        EndTool(id);
        Fail(UnknownOutcome(id));
      }
    }

    method EndTool(id: string)
      modifies this`failures, this`terminal
      ensures terminal == old(terminal) + {id}
      ensures failures == old(failures) + if id in old(terminal) then [MultipleTerminalEvents(id)] else []
    {
      if id in terminal {
        Fail(MultipleTerminalEvents(id));
      }
      terminal := terminal + {id};
    }

    /** What is checked once all events have been seen. */
    method FinalChecks(ghost es: seq<RunEvent>, unresolved: seq<Unresolved>)
      requires Reflects(es, |es|)
      modifies this`failures
      ensures failures == [] <==>
              && old(failures) == [] && Attempting(es, |es|) == {} && FinishCount(es, |es|) == 1
              && LastStatus(es, |es|) == Some(Completed) && unresolved == []
    {
      if activeAttempts != {} {
        Fail(UnfinishedAttempt);
      }
      if finishCount != 1 {
        Fail(RunFinishedCount(finishCount));
      }
      if status != Some(Completed) {
        Fail(NotCompleted(status));
      }
      if unresolved != [] {
        Fail(RemainUnresolved(|unresolved|));
      }
    }

    method EndAttempt(iteration: nat)
      modifies this`failures, this`activeAttempts
      ensures activeAttempts == old(activeAttempts) - {iteration}
      ensures failures == if iteration in old(activeAttempts) then old(failures)
                          else old(failures) + [AttemptEndedWithoutStart(iteration)]
    {
      if iteration !in activeAttempts {
        Fail(AttemptEndedWithoutStart(iteration));
      }
      activeAttempts := activeAttempts - {iteration};
    }
  }

  predicate IsToolKind(kind: EventKind) {
    || kind.ToolRequested? || kind.ToolAuthorized? || kind.ToolStarted?
    || kind.ToolFinished? || kind.ToolOutcomeUnknown?
  }

  method EvaluateRun(events: seq<RunEvent>, run: RunId) returns (evaluation: RunEvaluation)
    ensures evaluation.runId == run
    ensures evaluation.passed <==> Passes(OfRun(events, run))
    ensures evaluation.passed <==> evaluation.failures == []
    ensures var es := OfRun(events, run);
            && (evaluation.status == None <==> forall i | 0 <= i < |es| :: !es[i].kind.RunFinished?)
            && forall i | 0 <= i < |es| && es[i].kind.RunFinished? && OtherKinds(es[i + 1..]) ::
                 evaluation.status == Some(es[i].kind.status)
    ensures var es := OfRun(events, run);
            && evaluation.llmAttempts == |set i: nat | i < |es| && es[i].kind.LlmAttemptStarted?|
            && evaluation.toolCallsFailed == |set i: nat | i < |es| && es[i].kind.ToolFinished? && es[i].kind.isError|
            && evaluation.toolCallsStarted == |set i: nat | i < |es| && es[i].kind.ToolStarted? :: es[i].kind.toolUseId|
    ensures IsListing(Project(OfRun(events, run)), evaluation.unresolved)
  {
    hide OfRun, Passes, AllOk, Project, IsListing, LastStatus, AttemptCount, ErrorCount, Started, Attempting;
    var es := FilterRun(events, run);
    var all := UnresolvedToolOutcomes(events);
    var unresolved := UnresolvedOfRun(events, run, all);
    var state := GradeEvents(es);
    state.FinalChecks(es, unresolved);
    ProjectIsWellKeyed(es);
    ListingEmpty(Project(es), unresolved);
    ChecksArePasses(es);
    AttemptCountMeaning(es, |es|);
    ErrorCountMeaning(es, |es|);
    LastStatusMeaning(es, |es|);
    StartedMeaning(es);
    return RunEvaluation(run, state.failures == [], state.status, state.attempts, |state.started|,
                         state.callsFailed, unresolved, state.failures);
  }

  method GradeEvents(es: seq<RunEvent>) returns (state: GraderState)
    ensures fresh(state) && state.Reflects(es, |es|)
    ensures state.failures == [] <==> StartCount(es, |es|) == 1 && AllOk(es, |es|)
  {
    var starts := 0;
    for i := 0 to |es|
      invariant starts == StartCount(es, i)
    {
      if es[i].kind.RunStarted? {
        starts := starts + 1;
      }
    }
    state := new GraderState(starts);
    assert state.Reflects(es, 0);
    for k := 0 to |es|
      invariant fresh(state)
      invariant state.Reflects(es, k)
      invariant state.previousSequence == if k == 0 then None else Some(es[k - 1].sequence)
      invariant state.failures == [] <==> starts == 1 && AllOk(es, k)
    {
      state.CheckHeader(es, k, es[k]);
      if IsToolKind(es[k].kind) {
        state.CheckToolEvent(es, k, es[k]);
      } else {
        state.CheckRunEvent(es, k, es[k]);
      }
      assert AllOk(es, k + 1) <==> AllOk(es, k) && EventOk(es, k);
    }
  }

  method FilterRun(events: seq<RunEvent>, run: RunId) returns (es: seq<RunEvent>)
    ensures es == OfRun(events, run)
  {
    es := [];
    for i := 0 to |events|
      invariant es == OfRun(events[..i], run)
    {
      assert events[..i + 1][..i] == events[..i];
      if events[i].runId == run {
        es := es + [events[i]];
      }
    }
    assert events[..|events|] == events;
  }

  method UnresolvedOfRun(ghost events: seq<RunEvent>, run: RunId, all: seq<Unresolved>) returns (list: seq<Unresolved>)
    requires IsListing(Project(events), all)
    ensures IsListing(Project(OfRun(events, run)), list)
  {
    hide KeyLess;
    list := [];
    for i := 0 to |all|
      invariant forall u :: u in list <==> u in all[..i] && u.runId == run
      invariant forall j | 0 <= j < |list| :: exists k :: 0 <= k < i && all[k] == list[j]
      invariant Sorted(list)
      invariant forall j | 0 <= j < |list| && i < |all| :: KeyLess(KeyOf(list[j]), KeyOf(all[i]))
    {
      if all[i].runId == run {
        list := list + [all[i]];
      }
      assert all[..i + 1] == all[..i] + [all[i]];
      if i + 1 < |all| {
        forall j | 0 <= j < |list|
          ensures KeyLess(KeyOf(list[j]), KeyOf(all[i + 1]))
        {
          var k :| 0 <= k < i + 1 && all[k] == list[j];
        }
      }
    }
    assert all[..|all|] == all;
    forall u: Unresolved
      ensures u in list <==> KeyOf(u) in Project(OfRun(events, run)) && Project(OfRun(events, run))[KeyOf(u)] == u
    {
      ProjectOfRun(events, run, KeyOf(u));
    }
  }

  // ------------------------------------------------------------------------
  // What the totals count
  // ------------------------------------------------------------------------

  ghost predicate OtherKinds(es: seq<RunEvent>) {
    forall i | 0 <= i < |es| :: !es[i].kind.RunFinished?
  }

  lemma {:induction false} AttemptCountMeaning(es: seq<RunEvent>, n: nat)
    requires n <= |es|
    ensures AttemptCount(es, n) == |set i: nat | i < n && es[i].kind.LlmAttemptStarted?|
    decreases n
  {
    if n > 0 {
      AttemptCountMeaning(es, n - 1);
      var attempts := set i: nat | i < n && es[i].kind.LlmAttemptStarted?;
      OneMore((set i: nat | i < n - 1 && es[i].kind.LlmAttemptStarted?), attempts, n - 1);
    }
  }

  lemma {:induction false} ErrorCountMeaning(es: seq<RunEvent>, n: nat)
    requires n <= |es|
    ensures ErrorCount(es, n) == |set i: nat | i < n && es[i].kind.ToolFinished? && es[i].kind.isError|
    decreases n
  {
    if n > 0 {
      ErrorCountMeaning(es, n - 1);
      var errors := set i: nat | i < n && es[i].kind.ToolFinished? && es[i].kind.isError;
      OneMore((set i: nat | i < n - 1 && es[i].kind.ToolFinished? && es[i].kind.isError), errors, n - 1);
    }
  }

  lemma OneMore(before: set<nat>, after: set<nat>, x: nat)
    requires x !in before && after - {x} == before
    ensures |after| == |before| + if x in after then 1 else 0
  {
    if x in after {
      assert after == before + {x};
    } else {
      assert after == before;
    }
  }

  lemma {:induction false} LastStatusMeaning(es: seq<RunEvent>, n: nat)
    requires n <= |es|
    ensures LastStatus(es, n) == None <==> forall i | 0 <= i < n :: !es[i].kind.RunFinished?
    ensures forall i | 0 <= i < n && es[i].kind.RunFinished? && OtherKinds(es[i + 1..n]) ::
              LastStatus(es, n) == Some(es[i].kind.status)
    decreases n
  {
    if n > 0 {
      LastStatusMeaning(es, n - 1);
      forall i | 0 <= i < n && es[i].kind.RunFinished? && OtherKinds(es[i + 1..n])
        ensures LastStatus(es, n) == Some(es[i].kind.status)
      {
        if i < n - 1 {
          assert es[i + 1..n][n - 1 - (i + 1)] == es[n - 1];
          assert es[i + 1..n - 1] == es[i + 1..n][..n - 1 - (i + 1)];
        }
      }
    }
  }

  lemma StartedMeaning(es: seq<RunEvent>)
    ensures Started(es, |es|) == set i: nat | i < |es| && es[i].kind.ToolStarted? :: es[i].kind.toolUseId
  {
    forall id
      ensures id in Started(es, |es|) <==> exists i: nat :: i < |es| && StartsTool(es[i], id)
    {
      PrefixMeaning(es, |es|, id);
      if i: nat :| i < |es| && StartsTool(es[i], id) {
        assert 0 <= i < |es|;
      }
    }
    forall id
      ensures id in Started(es, |es|)
              <==> id in set i: nat | i < |es| && es[i].kind.ToolStarted? :: es[i].kind.toolUseId
    {
      if id in Started(es, |es|) {
        var i: nat :| i < |es| && StartsTool(es[i], id);
      }
      if i: nat :| i < |es| && es[i].kind.ToolStarted? && es[i].kind.toolUseId == id {
        assert StartsTool(es[i], id);
      }
    }
  }

  // ------------------------------------------------------------------------
  // Other runs do not matter
  // ------------------------------------------------------------------------

  /** The events of a run stand in a journal at the places `at`. */
  ghost predicate StandsAt(events: seq<RunEvent>, run: RunId, es: seq<RunEvent>, at: seq<nat>) {
    && |at| == |es|
    && (forall k | 0 <= k < |at| :: at[k] < |events| && events[at[k]] == es[k])
    && (forall k, l | 0 <= k < l < |at| :: at[k] < at[l])
    && forall i | 0 <= i < |events| :: i in at <==> events[i].runId == run
  }

  /** What is graded is every event of the run and no other, in the order of the journal. */
  lemma {:induction false} OfRunMeaning(events: seq<RunEvent>, run: RunId) returns (at: seq<nat>)
    ensures StandsAt(events, run, OfRun(events, run), at)
    decreases |events|
  {
    at := [];
    if events != [] {
      var n := |events| - 1;
      var earlier := OfRunMeaning(events[..n], run);
      at := earlier + if events[n].runId == run then [n] else [];
      forall i | 0 <= i < |events|
        ensures i in at <==> events[i].runId == run
      {
        assert i < n ==> events[i] == events[..n][i];
        assert n !in earlier;
        assert i in at <==> i in earlier || (i == n && events[n].runId == run);
      }
    }
  }

  lemma {:induction false} ProjectOfRun(events: seq<RunEvent>, run: RunId, key: Key)
    ensures key in Project(OfRun(events, run)) <==> key in Project(events) && key.0 == run
    ensures key in Project(OfRun(events, run)) ==> Project(OfRun(events, run))[key] == Project(events)[key]
    decreases |events|
  {
    if events != [] {
      var earlier, last := events[..|events| - 1], events[|events| - 1];
      ProjectOfRun(earlier, run, key);
      assert Project(events) == ApplyEvent(Project(earlier), last);
      if last.runId == run {
        var es := OfRun(events, run);
        assert es[..|es| - 1] == OfRun(earlier, run);
        assert Project(es) == ApplyEvent(Project(OfRun(earlier, run)), last);
      } else {
        assert OfRun(events, run) == OfRun(earlier, run);
      }
    }
  }

  /** An event of another run, wherever it is interleaved, leaves what is graded as it was. */
  lemma {:induction false} ForeignEventIgnored(a: seq<RunEvent>, e: RunEvent, b: seq<RunEvent>, run: RunId)
    requires e.runId != run
    ensures OfRun(a + [e] + b, run) == OfRun(a + b, run)
    decreases |b|
  {
    if b == [] {
      assert (a + [e] + b)[..|a|] == a && a + b == a;
    } else {
      var shorter := b[..|b| - 1];
      assert (a + [e] + b)[..|a + [e] + b| - 1] == a + [e] + shorter;
      assert (a + b)[..|a + b| - 1] == a + shorter;
      ForeignEventIgnored(a, e, shorter, run);
    }
  }

  lemma ListingEmpty(active: map<Key, Unresolved>, list: seq<Unresolved>)
    requires IsListing(active, list) && WellKeyed(active)
    ensures list == [] <==> active == map[]
  {
    if key :| key in active {
      assert active[key] in list;
    } else if list != [] {
      HasMember(list);
    }
  }

  // ------------------------------------------------------------------------
  // The checks, event by event, are the declarative reading
  // ------------------------------------------------------------------------

  ghost predicate EndOk(es: seq<RunEvent>) {
    && StartCount(es, |es|) == 1
    && Attempting(es, |es|) == {}
    && FinishCount(es, |es|) == 1
    && LastStatus(es, |es|) == Some(Completed)
    && Project(es) == map[]
  }

  lemma ChecksArePasses(es: seq<RunEvent>)
    ensures AllOk(es, |es|) && EndOk(es) <==> Passes(es)
  {
    if AllOk(es, |es|) && EndOk(es) {
      ChecksOrder(es);
      ChecksFinish(es);
      StartCountMeaning(es, |es|);
      ChecksTools(es);
      ChecksAttempts(es);
    } else if Passes(es) {
      PassesChecks(es);
    }
  }

  lemma {:induction false} PrefixMeaning(es: seq<RunEvent>, n: nat, id: string)
    requires n <= |es|
    ensures id in Requested(es, n) <==> exists j :: 0 <= j < n && RequestsTool(es[j], id)
    ensures id in Started(es, n) <==> exists j :: 0 <= j < n && StartsTool(es[j], id)
    ensures id in Ended(es, n) <==>
            exists j :: 0 <= j < n
                        && (FinishesTool(es[j], id) || (es[j].kind.ToolOutcomeUnknown? && es[j].kind.toolUseId == id))
    ensures id !in Authorized(es, n) <==> forall j | 0 <= j < n :: !AuthorizesTool(es[j], id)
    ensures id in Authorized(es, n) ==>
            exists j :: 0 <= j < n && AuthorizesTool(es[j], id) && es[j].kind.toolName == Authorized(es, n)[id]
    decreases n
  {
    if n > 0 {
      PrefixMeaning(es, n - 1, id);
    }
  }

  lemma {:induction false} AttemptMeaning(es: seq<RunEvent>, n: nat, iteration: nat)
    requires n <= |es|
    ensures iteration in Attempting(es, n) <==> AttemptOpen(es, n, iteration)
    decreases n
  {
    if n > 0 {
      AttemptMeaning(es, n - 1, iteration);
    }
  }

  lemma {:induction false} StartCountMeaning(es: seq<RunEvent>, n: nat)
    requires n <= |es|
    ensures StartCount(es, n) == 0 <==> forall j | 0 <= j < n :: !es[j].kind.RunStarted?
    ensures StartCount(es, n) == 1 <==> exists i: nat :: OnlyStart(es, n, i)
    decreases n
  {
    if n > 0 {
      StartCountMeaning(es, n - 1);
      OnlyStartStep(es, n - 1, n);
    }
  }

  lemma OnlyStartStep(es: seq<RunEvent>, n: nat, next: nat)
    requires n < |es| && next == n + 1
    ensures !es[n].kind.RunStarted? ==> forall i: nat :: OnlyStart(es, next, i) <==> OnlyStart(es, n, i)
    ensures es[n].kind.RunStarted? ==>
              ((exists i: nat :: OnlyStart(es, next, i)) <==> forall j | 0 <= j < n :: !es[j].kind.RunStarted?)
  {
    if es[n].kind.RunStarted? {
      assert (forall j | 0 <= j < n :: !es[j].kind.RunStarted?) ==> OnlyStart(es, next, n);
    }
  }

  lemma {:induction false} FinishCountMeaning(es: seq<RunEvent>, n: nat)
    requires n <= |es|
    ensures FinishCount(es, n) == 0 <==> forall j | 0 <= j < n :: !es[j].kind.RunFinished?
    decreases n
  {
    if n > 0 {
      FinishCountMeaning(es, n - 1);
    }
  }

  lemma ChecksOrder(es: seq<RunEvent>)
    requires AllOk(es, |es|)
    ensures OrderedAndSupported(es)
  {
    forall i, j | 0 <= i < j < |es|
      ensures es[i].sequence < es[j].sequence
    {
      SequenceClimbs(es, i, j);
    }
    forall i | 0 <= i < |es|
      ensures es[i].schemaVersion == RUN_EVENT_SCHEMA_VERSION
    {
      assert EventOk(es, i);
    }
  }

  lemma {:induction false} SequenceClimbs(es: seq<RunEvent>, i: nat, j: nat)
    requires AllOk(es, |es|) && i < j < |es|
    ensures es[i].sequence < es[j].sequence
    decreases j
  {
    assert EventOk(es, j);
    if i < j - 1 {
      SequenceClimbs(es, i, j - 1);
    }
  }

  lemma ChecksFinish(es: seq<RunEvent>)
    requires AllOk(es, |es|) && FinishCount(es, |es|) == 1 && LastStatus(es, |es|) == Some(Completed)
    ensures CompletedLast(es)
  {
    var n := |es| - 1;
    assert EventOk(es, n);
    FinishCountMeaning(es, n);
    assert es[n].kind.RunFinished?;
  }

  lemma ChecksAttempts(es: seq<RunEvent>)
    requires AllOk(es, |es|) && Attempting(es, |es|) == {}
    ensures AttemptsBalanced(es)
  {
    forall iteration: nat
      ensures !AttemptOpen(es, |es|, iteration)
    {
      AttemptMeaning(es, |es|, iteration);
    }
    forall i, iteration: nat | 0 <= i < |es|
      ensures StartsAttempt(es[i], iteration) ==> !AttemptOpen(es, i, iteration)
      ensures EndsAttempt(es[i], iteration) ==> AttemptOpen(es, i, iteration)
    {
      assert EventOk(es, i);
      AttemptMeaning(es, i, iteration);
    }
  }

  lemma ChecksTools(es: seq<RunEvent>)
    requires AllOk(es, |es|) && Project(es) == map[]
    ensures ToolsAuthorized(es) && ToolsSettled(es)
  {
    forall i, id | 0 <= i < |es|
      ensures RequestsTool(es[i], id) ==> forall j | 0 <= j < i :: !RequestsTool(es[j], id)
      ensures AuthorizesTool(es[i], id) ==>
                && (forall j | 0 <= j < i :: !AuthorizesTool(es[j], id))
                && exists j :: 0 <= j < i && RequestsTool(es[j], id)
      ensures StartsTool(es[i], id) ==>
                && (forall j | 0 <= j < i :: !StartsTool(es[j], id))
                && exists j :: 0 <= j < i && AuthorizesTool(es[j], id) && es[j].kind.toolName == es[i].kind.toolName
      ensures FinishesTool(es[i], id) ==>
                && (forall j | 0 <= j < i :: !FinishesTool(es[j], id))
                && exists j :: 0 <= j < i && StartsTool(es[j], id)
    {
      assert EventOk(es, i);
      PrefixMeaning(es, i, id);
    }
    forall i | 0 <= i < |es|
      ensures !es[i].kind.ToolOutcomeUnknown?
    {
      assert EventOk(es, i);
    }
    forall i, id | 0 <= i < |es| && StartsTool(es[i], id)
      ensures exists j :: i < j < |es| && Closes(es[j], (es[i].runId, id))
    {
      var key := (es[i].runId, id);
      UnresolvedMeansStartedAndNotClosed(es, key);
      assert Opens(es[i], key);
    }
  }

  lemma PassesChecks(es: seq<RunEvent>)
    requires Passes(es)
    ensures AllOk(es, |es|) && EndOk(es)
  {
    var n := |es| - 1;
    StartCountMeaning(es, |es|);
    FinishCountMeaning(es, n);
    forall k | 0 <= k < |es|
      ensures EventOk(es, k)
    {
      FinishCountMeaning(es, k);
      PassesCheck(es, k);
    }
    forall key
      ensures key !in Project(es)
    {
      UnresolvedMeansStartedAndNotClosed(es, key);
      forall i | 0 <= i < |es| && Opens(es[i], key)
        ensures exists j :: i < j < |es| && Closes(es[j], key)
      {
        assert StartsTool(es[i], key.1);
      }
    }
    assert Project(es).Keys == {};
    forall iteration: nat
      ensures iteration !in Attempting(es, |es|)
    {
      AttemptMeaning(es, |es|, iteration);
    }
  }

  lemma PassesCheck(es: seq<RunEvent>, k: nat)
    requires Passes(es) && k < |es|
    requires FinishCount(es, k) == 0
    ensures EventOk(es, k)
  {
    match es[k].kind
    case ToolRequested(id) => AuthorizedKindOk(es, k, id);
    case ToolAuthorized(id, _) => AuthorizedKindOk(es, k, id);
    case ToolStarted(id, _, _) => AuthorizedKindOk(es, k, id);
    case ToolFinished(id, _) => SettledKindOk(es, k, id);
    case LlmAttemptStarted(iteration) =>
      assert StartsAttempt(es[k], iteration);
      AttemptMeaning(es, k, iteration);
    case LlmAttemptCompleted(iteration) =>
      assert EndsAttempt(es[k], iteration);
      AttemptMeaning(es, k, iteration);
    case LlmAttemptFailed(iteration) =>
      assert EndsAttempt(es[k], iteration);
      AttemptMeaning(es, k, iteration);
    case _ =>
  }

  lemma AuthorizedKindOk(es: seq<RunEvent>, k: nat, id: string)
    requires ToolsAuthorized(es) && k < |es|
    requires RequestsTool(es[k], id) || AuthorizesTool(es[k], id) || StartsTool(es[k], id)
    ensures KindOk(es, k)
  {
    PrefixMeaning(es, k, id);
    if StartsTool(es[k], id) {
      var a :| 0 <= a < k && AuthorizesTool(es[a], id) && es[a].kind.toolName == es[k].kind.toolName;
      var b :| 0 <= b < k && AuthorizesTool(es[b], id) && es[b].kind.toolName == Authorized(es, k)[id];
      assert a == b;
    }
  }

  lemma SettledKindOk(es: seq<RunEvent>, k: nat, id: string)
    requires ToolsSettled(es) && k < |es| && FinishesTool(es[k], id)
    ensures KindOk(es, k)
  {
    PrefixMeaning(es, k, id);
  }
}
