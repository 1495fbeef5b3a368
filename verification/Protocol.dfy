/** The run events that persistence, recovery and grading share, and their unresolved-effect projection. */
module Protocol {
  const RUN_EVENT_SCHEMA_VERSION := 1

  type RunId = string

  datatype ToolCall = ToolCall(id: string, name: string, input: string)

  datatype RunStatus =
    | Paused | WaitingForInput | Completed | Cancelled
    | BudgetExceeded | IterationLimit | Partial | Failed

  datatype EventKind =
    | RunStarted
    | RunSuspended(suspendedAs: RunStatus)
    | RunResumed
    | LlmAttemptStarted(iteration: nat)
    | LlmAttemptCompleted(iteration: nat)
    | LlmAttemptFailed(iteration: nat)
    | ToolRequested(toolUseId: string)
    | ToolAuthorized(toolUseId: string, toolName: string)
    | ToolStarted(toolUseId: string, toolName: string, idempotencyKey: string)
    | ToolFinished(toolUseId: string, isError: bool)
    | ToolOutcomeUnknown(toolUseId: string)
    | ToolReconciled(toolUseId: string, resolution: string)
    | ContextCompacted
    | RunFinished(status: RunStatus)

  datatype RunEvent = RunEvent(schemaVersion: nat, sequence: nat, runId: RunId, kind: EventKind)

  /** A side effect that started and has no durable end. */
  datatype Unresolved = Unresolved(runId: RunId, toolUseId: string, toolName: string, idempotencyKey: string)

  type Key = (RunId, string)

  function KeyOf(u: Unresolved): Key {
    (u.runId, u.toolUseId)
  }

  predicate Opens(e: RunEvent, key: Key) {
    e.kind.ToolStarted? && key == (e.runId, e.kind.toolUseId)
  }

  predicate Closes(e: RunEvent, key: Key) {
    (e.kind.ToolFinished? || e.kind.ToolReconciled?) && key == (e.runId, e.kind.toolUseId)
  }

  predicate Touches(e: RunEvent, key: Key) {
    Opens(e, key) || Closes(e, key)
  }

  function OutcomeOf(e: RunEvent): Unresolved
    requires e.kind.ToolStarted?
  {
    Unresolved(e.runId, e.kind.toolUseId, e.kind.toolName, e.kind.idempotencyKey)
  }

  // ------------------------------------------------------------------------
  // The incremental index
  // ------------------------------------------------------------------------

  function ApplyEvent(active: map<Key, Unresolved>, e: RunEvent): map<Key, Unresolved> {
    match e.kind
    case ToolStarted(id, _, _) => active[(e.runId, id) := OutcomeOf(e)]
    case ToolFinished(id, _) => active - {(e.runId, id)}
    case ToolReconciled(id, _) => active - {(e.runId, id)}
    case _ => active
  }

  function ApplyAll(active: map<Key, Unresolved>, events: seq<RunEvent>): map<Key, Unresolved> {
    if events == [] then active
    else ApplyEvent(ApplyAll(active, events[..|events| - 1]), events[|events| - 1])
  }

  function Project(events: seq<RunEvent>): map<Key, Unresolved> {
    ApplyAll(map[], events)
  }

  class ToolOutcomeIndex {
    var active: map<Key, Unresolved>

    constructor ()
      ensures active == map[]
    {
      active := map[];
    }

    method Apply(event: RunEvent)
      modifies this
      ensures active == ApplyEvent(old(active), event)
    {
      match event.kind {
        case ToolStarted(id, name, key) =>
          active := active[(event.runId, id) := Unresolved(event.runId, id, name, key)];
        case ToolFinished(id, _) =>
          active := active - {(event.runId, id)};
        case ToolReconciled(id, _) =>
          active := active - {(event.runId, id)};
        case _ =>
      }
    }

    /** The outstanding calls, sorted by run and then by call. */
    method UnresolvedCalls() returns (list: seq<Unresolved>)
      requires WellKeyed(active)
      ensures IsListing(active, list)
    {
      list := [];
      var remaining := active.Keys;
      while remaining != {}
        invariant remaining <= active.Keys
        invariant Sorted(list)
        invariant forall u :: u in list <==> KeyOf(u) in active && KeyOf(u) !in remaining && active[KeyOf(u)] == u
        decreases |remaining|
      {
        var key :| key in remaining;
        var before := list;
        list := InsertSorted(list, active[key]);
        remaining := remaining - {key};
      }
    }
  }

  /** Replays a whole journal. */
  method UnresolvedToolOutcomes(events: seq<RunEvent>) returns (list: seq<Unresolved>)
    ensures IsListing(Project(events), list)
    ensures forall u :: u in list <==> exists i: nat :: IsLeftOpen(events, i, u)
    ensures forall i, j | 0 <= i < j < |list| ::
              || ComesBefore(list[i].runId, list[j].runId)
              || (list[i].runId == list[j].runId && ComesBefore(list[i].toolUseId, list[j].toolUseId))
  {
    var index := new ToolOutcomeIndex();
    for i := 0 to |events|
      invariant index.active == Project(events[..i])
    {
      assert events[..i + 1][..i] == events[..i];
      index.Apply(events[i]);
    }
    assert events[..|events|] == events;
    ProjectIsWellKeyed(events);
    list := index.UnresolvedCalls();
    ListingMeaning(events, list);
  }

  // ------------------------------------------------------------------------
  // What the projection means
  // ------------------------------------------------------------------------

  ghost predicate WellKeyed(active: map<Key, Unresolved>) {
    forall key | key in active :: KeyOf(active[key]) == key
  }

  lemma {:induction false} ProjectIsWellKeyed(events: seq<RunEvent>)
    ensures WellKeyed(Project(events))
  {
    if events != [] {
      ProjectIsWellKeyed(events[..|events| - 1]);
    }
  }

  /** Call `key` was started by event `i` and nothing after `i` started, finished or reconciled it. */
  ghost predicate LeftOpenAt(events: seq<RunEvent>, i: nat, key: Key) {
    && i < |events|
    && Opens(events[i], key)
    && forall j | i < j < |events| :: !Touches(events[j], key)
  }

  lemma {:induction false} ProjectMeaning(events: seq<RunEvent>, key: Key)
    ensures key in Project(events) <==> exists i: nat :: LeftOpenAt(events, i, key)
    ensures forall i: nat | LeftOpenAt(events, i, key) ::
              key in Project(events) && Project(events)[key] == OutcomeOf(events[i])
  {
    if events != [] {
      var n := |events| - 1;
      var earlier := events[..n];
      ProjectMeaning(earlier, key);
      if Opens(events[n], key) {
        assert LeftOpenAt(events, n, key);
        assert forall i: nat | LeftOpenAt(events, i, key) :: i == n;
      } else if Closes(events[n], key) {
        assert forall i: nat :: !LeftOpenAt(events, i, key);
      } else {
        assert forall i: nat :: LeftOpenAt(events, i, key) <==> LeftOpenAt(earlier, i, key);
      }
    }
  }

  /** The event starts, finishes or reconciles the call; an unknown outcome does none of it. */
  ghost predicate Decides(kind: EventKind, id: string) {
    match kind
    case ToolStarted(started, _, _) => started == id
    case ToolFinished(finished, _) => finished == id
    case ToolReconciled(reconciled, _) => reconciled == id
    case _ => false
  }

  /** Event `i` started the call with this name and key, and no later event of its run decides anything about it. */
  ghost predicate IsLeftOpen(events: seq<RunEvent>, i: nat, u: Unresolved) {
    && i < |events| && events[i].runId == u.runId
    && events[i].kind == ToolStarted(u.toolUseId, u.toolName, u.idempotencyKey)
    && forall j | i < j < |events| && events[j].runId == u.runId :: !Decides(events[j].kind, u.toolUseId)
  }

  /** One text continues the other, or has the smaller character where they first differ. */
  ghost predicate ComesBefore(a: string, b: string) {
    exists k :: && 0 <= k <= |a| && k < |b| && a[..k] == b[..k]
                && (k < |a| ==> a[k] < b[k])
  }

  lemma {:induction false} LessMeansBefore(a: string, b: string)
    ensures StringLess(a, b) <==> ComesBefore(a, b)
    decreases |a|
  {
    if a != [] && b != [] && a[0] == b[0] {
      LessMeansBefore(a[1..], b[1..]);
      if k :| 0 <= k <= |a| && k < |b| && a[..k] == b[..k] && (k < |a| ==> a[k] < b[k]) {
        assert a[1..][..k - 1] == a[..k][1..] == b[..k][1..] == b[1..][..k - 1];
      }
      if k :| && 0 <= k <= |a[1..]| && k < |b[1..]| && a[1..][..k] == b[1..][..k]
              && (k < |a[1..]| ==> a[1..][k] < b[1..][k]) {
        assert a[..k + 1] == [a[0]] + a[1..][..k] == [b[0]] + b[1..][..k] == b[..k + 1];
      }
    } else if b != [] {
      assert a[..0] == b[..0];
      FirstCharactersAgree(a, b);
    }
  }

  lemma FirstCharactersAgree(a: string, b: string)
    ensures forall k | 0 < k <= |a| && k < |b| && a[..k] == b[..k] :: a[0] == b[0]
  {
    forall k | 0 < k <= |a| && k < |b| && a[..k] == b[..k]
      ensures a[0] == b[0]
    {
      assert a[..k][0] == b[..k][0];
    }
  }

  /** The listed calls are those left open, with the tool and the key they were started with. */
  lemma ListingMeaning(events: seq<RunEvent>, list: seq<Unresolved>)
    requires IsListing(Project(events), list)
    ensures forall u :: u in list <==> exists i: nat :: IsLeftOpen(events, i, u)
    ensures forall i, j | 0 <= i < j < |list| ::
              || ComesBefore(list[i].runId, list[j].runId)
              || (list[i].runId == list[j].runId && ComesBefore(list[i].toolUseId, list[j].toolUseId))
  {
    forall u
      ensures u in list <==> exists i: nat :: IsLeftOpen(events, i, u)
    {
      ProjectMeaning(events, KeyOf(u));
      forall i: nat
        ensures IsLeftOpen(events, i, u) <==> LeftOpenAt(events, i, KeyOf(u)) && OutcomeOf(events[i]) == u
      {
        LeftOpenMeaning(events, i, u);
      }
    }
    forall i, j | 0 <= i < j < |list|
      ensures || ComesBefore(list[i].runId, list[j].runId)
              || (list[i].runId == list[j].runId && ComesBefore(list[i].toolUseId, list[j].toolUseId))
    {
      assert KeyLess(KeyOf(list[i]), KeyOf(list[j]));
      LessMeansBefore(list[i].runId, list[j].runId);
      LessMeansBefore(list[i].toolUseId, list[j].toolUseId);
    }
  }

  lemma LeftOpenMeaning(events: seq<RunEvent>, i: nat, u: Unresolved)
    ensures IsLeftOpen(events, i, u) <==> LeftOpenAt(events, i, KeyOf(u)) && OutcomeOf(events[i]) == u
  {
    forall j | 0 <= j < |events|
      ensures Touches(events[j], KeyOf(u)) <==> events[j].runId == u.runId && Decides(events[j].kind, u.toolUseId)
    {
    }
  }

  /** A started call is unresolved exactly as long as no later event finishes or reconciles it. */
  lemma UnresolvedMeansStartedAndNotClosed(events: seq<RunEvent>, key: Key)
    ensures key in Project(events) <==>
            exists i :: && 0 <= i < |events| && Opens(events[i], key)
                        && forall j | i < j < |events| :: !Closes(events[j], key)
  {
    ProjectMeaning(events, key);
    if i :| 0 <= i < |events| && Opens(events[i], key) && forall j | i < j < |events| :: !Closes(events[j], key) {
      var last := LastOpening(events, i, key);
      assert LeftOpenAt(events, last, key);
    }
    if key in Project(events) {
      var i: nat :| LeftOpenAt(events, i, key);
      assert Opens(events[i], key);
    }
  }

  lemma LastOpening(events: seq<RunEvent>, i: nat, key: Key) returns (last: nat)
    requires i < |events| && Opens(events[i], key)
    ensures i <= last < |events| && Opens(events[last], key)
    ensures forall j | last < j < |events| :: !Opens(events[j], key)
    decreases |events| - i
  {
    if j :| i < j < |events| && Opens(events[j], key) {
      last := LastOpening(events, j, key);
    } else {
      last := i;
    }
  }

  // ------------------------------------------------------------------------
  // The listing is determined by the map, whatever order the map is read in
  // ------------------------------------------------------------------------

  predicate StringLess(a: string, b: string) {
    b != [] && (a == [] || a[0] < b[0] || (a[0] == b[0] && StringLess(a[1..], b[1..])))
  }

  predicate KeyLess(a: Key, b: Key) {
    StringLess(a.0, b.0) || (a.0 == b.0 && StringLess(a.1, b.1))
  }

  lemma {:induction false} StringOrder(a: string, b: string, c: string)
    ensures !StringLess(a, a)
    ensures a != b ==> StringLess(a, b) || StringLess(b, a)
    ensures StringLess(a, b) && StringLess(b, c) ==> StringLess(a, c)
    decreases |a| + |b| + |c|
  {
    if a != [] {
      StringOrder(a[1..], if b == [] then [] else b[1..], if c == [] then [] else c[1..]);
      if b != [] && a[0] == b[0] && a[1..] == b[1..] {
        assert a == [a[0]] + a[1..] && b == [b[0]] + b[1..];
      }
    }
  }

  lemma KeyOrder(a: Key, b: Key, c: Key)
    ensures !KeyLess(a, a)
    ensures a != b ==> KeyLess(a, b) || KeyLess(b, a)
    ensures KeyLess(a, b) && KeyLess(b, c) ==> KeyLess(a, c)
  {
    StringOrder(a.0, b.0, c.0);
    StringOrder(a.1, b.1, c.1);
  }

  ghost predicate Sorted(list: seq<Unresolved>) {
    forall i, j | 0 <= i < j < |list| :: KeyLess(KeyOf(list[i]), KeyOf(list[j]))
  }

  ghost predicate IsListing(active: map<Key, Unresolved>, list: seq<Unresolved>) {
    && Sorted(list)
    && forall u :: u in list <==> KeyOf(u) in active && active[KeyOf(u)] == u
  }

  method InsertSorted(list: seq<Unresolved>, u: Unresolved) returns (r: seq<Unresolved>)
    requires Sorted(list)
    requires forall v | v in list :: KeyOf(v) != KeyOf(u)
    ensures Sorted(r)
    ensures forall v :: v in r <==> v == u || v in list
  {
    hide KeyLess;
    var i := 0;
    while i < |list| && KeyLess(KeyOf(list[i]), KeyOf(u))
      invariant 0 <= i <= |list|
      invariant forall k | 0 <= k < i :: KeyLess(KeyOf(list[k]), KeyOf(u))
    {
      i := i + 1;
    }
    r := list[..i] + [u] + list[i..];
    forall k | i <= k < |list|
      ensures KeyLess(KeyOf(u), KeyOf(list[k]))
    {
      assert list[i] in list && list[k] in list;
      KeyOrder(KeyOf(u), KeyOf(list[i]), KeyOf(list[k]));
    }
    assert list == list[..i] + list[i..];
  }

  lemma {:induction false} ListingIsUnique(active: map<Key, Unresolved>, a: seq<Unresolved>, b: seq<Unresolved>)
    requires IsListing(active, a) && IsListing(active, b)
    ensures a == b
  {
    SortedIsUnique(a, b);
  }

  lemma {:induction false} SortedIsUnique(a: seq<Unresolved>, b: seq<Unresolved>)
    requires Sorted(a) && Sorted(b)
    requires forall u :: u in a <==> u in b
    ensures a == b
    decreases |a|
  {
    if a == [] || b == [] {
      if a != [] {
        HasMember(a);
      } else if b != [] {
        HasMember(b);
      }
    } else {
      assert a[0] in a && b[0] in b;
      FirstIsLeast(a, b[0]);
      FirstIsLeast(b, a[0]);
      KeyOrder(KeyOf(a[0]), KeyOf(b[0]), KeyOf(a[0]));
      TailMembers(a);
      TailMembers(b);
      SortedIsUnique(a[1..], b[1..]);
    }
  }

  lemma HasMember(a: seq<Unresolved>)
    requires a != []
    ensures exists u :: u in a
  {
    assert a[0] in a;
  }

  lemma FirstIsLeast(a: seq<Unresolved>, u: Unresolved)
    requires Sorted(a) && u in a
    ensures u == a[0] || KeyLess(KeyOf(a[0]), KeyOf(u))
  {
  }

  lemma TailMembers(a: seq<Unresolved>)
    requires Sorted(a) && a != []
    ensures forall u :: u in a[1..] <==> u in a && u != a[0]
  {
    forall u | u in a[1..]
      ensures u != a[0]
    {
      KeyOrder(KeyOf(u), KeyOf(u), KeyOf(u));
    }
  }
}
