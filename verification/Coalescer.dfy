/**
 The coalescing persister as a state machine: scheduling threads overwrite one slot, a single
 worker takes and saves, flushes wait for a generation. Every atomic access is one step.
 */
module Coalescer {
  import opened Wrappers

  type Snapshot = string

  /** A snapshot with the generation it was scheduled under. */
  datatype Tagged = Tagged(generation: nat, snapshot: Snapshot)

  /** Inside one schedule call: a generation is taken, then the slot is stored, then the worker is notified. */
  datatype Scheduling = GenerationTaken(tagged: Tagged) | SlotStored

  datatype Worker = Parked | Draining | Saving(tagged: Tagged) | Saved(generation: nat)

  datatype Flushing = TargetLoaded(target: nat) | Waiting(target: nat)

  datatype State = State(
    scheduled: nat,                    // the atomic counter
    latest: Option<Tagged>,            // the slot under the mutex
    completed: nat,                    // the watch value
    permit: bool,                      // the single stored wake-up
    worker: Worker,
    schedulers: map<nat, Scheduling>,
    flushers: map<nat, Flushing>,
    log: seq<Snapshot>,                // what was scheduled under generations 1, 2, ...
    saves: seq<Tagged>,                // finished save attempts, in order
    lastStored: nat)                   // the generation stored last

  const INITIAL := State(0, None, 0, false, Parked, map[], map[], [], [], 0)

  datatype Action =
    | TakeGeneration(thread: nat, snapshot: Snapshot)
    | StoreSlot(thread: nat)
    | Notify(thread: nat)
    | Wake
    | TakeSlot
    | FinishSave
    | Send
    | LoadTarget(flush: nat)
    | Subscribe(flush: nat)
    | Return(flush: nat)

  predicate HasReceiver(s: State) {
    exists f | f in s.flushers :: s.flushers[f].Waiting?
  }

  predicate Enabled(s: State, a: Action) {
    match a
    case TakeGeneration(i, _) => i !in s.schedulers
    case StoreSlot(i) => i in s.schedulers && s.schedulers[i].GenerationTaken?
    case Notify(i) => i in s.schedulers && s.schedulers[i].SlotStored?
    case Wake => s.worker.Parked? && s.permit
    case TakeSlot => s.worker.Draining?
    case FinishSave => s.worker.Saving?
    case Send => s.worker.Saved?
    case LoadTarget(f) => f !in s.flushers
    case Subscribe(f) => f in s.flushers && s.flushers[f].TargetLoaded?
    case Return(f) => f in s.flushers && s.flushers[f].Waiting? && s.completed >= s.flushers[f].target
  }

  function Apply(s: State, a: Action): State
    requires Enabled(s, a)
  {
    match a
    case TakeGeneration(i, snapshot) =>
      s.(scheduled := s.scheduled + 1, log := s.log + [snapshot],
         schedulers := s.schedulers[i := GenerationTaken(Tagged(s.scheduled + 1, snapshot))])
    case StoreSlot(i) =>
      s.(latest := Some(s.schedulers[i].tagged), lastStored := s.schedulers[i].tagged.generation,
         schedulers := s.schedulers[i := SlotStored])
    case Notify(i) => s.(permit := true, schedulers := s.schedulers - {i})
    case Wake => s.(permit := false, worker := Draining)
    case TakeSlot =>
      if s.latest.None? then s.(worker := Parked) else s.(worker := Saving(s.latest.value), latest := None)
    case FinishSave => s.(saves := s.saves + [s.worker.tagged], worker := Saved(s.worker.tagged.generation))
    case Send =>
      // A watch channel without receivers refuses the value.
      s.(completed := if HasReceiver(s) then s.worker.generation else s.completed, worker := Draining)
    case LoadTarget(f) => s.(flushers := s.flushers[f := TargetLoaded(s.scheduled)])
    case Subscribe(f) => s.(flushers := s.flushers[f := Waiting(s.flushers[f].target)])
    case Return(f) => s.(flushers := s.flushers - {f})
  }

  function Step(s: State, a: Action): State {
    if Enabled(s, a) then Apply(s, a) else s
  }

  function After(actions: seq<Action>): State {
    if actions == [] then INITIAL else Step(After(actions[..|actions| - 1]), actions[|actions| - 1])
  }

  /** Schedule calls and the worker never wait for each other: in every state each of them may go on. */
  lemma OnlyFlushesWait(s: State, i: nat, snapshot: Snapshot, f: nat)
    ensures i !in s.schedulers ==> Enabled(s, TakeGeneration(i, snapshot))
    ensures i in s.schedulers ==>
              Enabled(s, if s.schedulers[i].GenerationTaken? then StoreSlot(i) else Notify(i))
    ensures match s.worker
            case Parked => Enabled(s, Wake) <==> s.permit
            case Draining => Enabled(s, TakeSlot)
            case Saving(_) => Enabled(s, FinishSave)
            case Saved(_) => Enabled(s, Send)
    ensures f !in s.flushers ==> Enabled(s, LoadTarget(f))
    ensures f in s.flushers && s.flushers[f].TargetLoaded? ==> Enabled(s, Subscribe(f))
  {
  }

  // ------------------------------------------------------------------------
  // Safety in every interleaving
  // ------------------------------------------------------------------------

  ghost predicate Genuine(s: State, t: Tagged) {
    0 < t.generation <= |s.log| && s.log[t.generation - 1] == t.snapshot
  }

  /** The generation that went through the slot last: still in it, with the worker, or saved. */
  function Newest(s: State): nat {
    if s.latest.Some? then s.latest.value.generation
    else if s.worker.Saving? then s.worker.tagged.generation
    else if s.saves != [] then s.saves[|s.saves| - 1].generation
    else 0
  }

  ghost predicate DataInv(s: State) {
    && s.scheduled == |s.log|
    && (s.latest.Some? ==> Genuine(s, s.latest.value))
    && (s.worker.Saving? ==> Genuine(s, s.worker.tagged))
    && (forall i | i in s.schedulers && s.schedulers[i].GenerationTaken? :: Genuine(s, s.schedulers[i].tagged))
    && (forall k | 0 <= k < |s.saves| :: Genuine(s, s.saves[k]))
  }

  ghost predicate SavedGeneration(s: State, generation: nat) {
    exists k :: 0 <= k < |s.saves| && s.saves[k].generation == generation
  }

  ghost predicate ProgressInv(s: State) {
    && (s.worker.Saved? ==> s.saves != [] && s.saves[|s.saves| - 1].generation == s.worker.generation)
    && (s.completed > 0 ==> SavedGeneration(s, s.completed))
    && s.lastStored == Newest(s)
  }

  predicate Notifying(s: State) {
    exists i | i in s.schedulers :: s.schedulers[i].SlotStored?
  }

  ghost predicate WakeInv(s: State) {
    s.latest.Some? && s.worker.Parked? && !s.permit ==> Notifying(s)
  }

  ghost predicate Inv(s: State) {
    DataInv(s) && ProgressInv(s) && WakeInv(s)
  }

  lemma StepKeepsInv(s: State, a: Action)
    requires Inv(s)
    ensures Inv(Step(s, a))
  {
    StepKeepsData(s, a);
    StepKeepsProgress(s, a);
    StepKeepsWake(s, a);
  }

  lemma StepKeepsData(s: State, a: Action)
    requires DataInv(s)
    ensures DataInv(Step(s, a))
  {
    if Enabled(s, a) && a.TakeGeneration? {
      var s' := Apply(s, a);
      assert s'.log[|s.log|] == a.snapshot;
      assert forall t | Genuine(s, t) :: Genuine(s', t);
    }
  }

  lemma StepKeepsProgress(s: State, a: Action)
    requires ProgressInv(s)
    ensures ProgressInv(Step(s, a))
  {
    if Enabled(s, a) {
      var s' := Apply(s, a);
      if a.FinishSave? {
        if s.completed > 0 {
          var k :| 0 <= k < |s.saves| && s.saves[k].generation == s.completed;
          assert s'.saves[k] == s.saves[k];
        }
      } else if a.Send? {
        assert s.saves[|s.saves| - 1].generation == s.worker.generation;
      } else {
        assert s'.completed == s.completed && s'.saves == s.saves;
      }
    }
  }

  lemma StepKeepsWake(s: State, a: Action)
    requires WakeInv(s)
    ensures WakeInv(Step(s, a))
  {
    if Enabled(s, a) {
      var s' := Apply(s, a);
      match a
      case StoreSlot(i) => assert s'.schedulers[i].SlotStored?;
      case TakeGeneration(i, snapshot) =>
        if Notifying(s) {
          var j :| j in s.schedulers && s.schedulers[j].SlotStored?;
          assert s'.schedulers[j].SlotStored?;
        }
      case _ =>
    }
  }

  lemma {:induction false} InvAlways(actions: seq<Action>)
    ensures Inv(After(actions))
    decreases |actions|
  {
    if actions != [] {
      InvAlways(actions[..|actions| - 1]);
      StepKeepsInv(After(actions[..|actions| - 1]), actions[|actions| - 1]);
    }
  }

  /** In every interleaving, with overlaps too, a saved snapshot is the one scheduled under its generation. */
  lemma SavesAreGenuine(actions: seq<Action>, k: nat)
    requires k < |After(actions).saves|
    ensures Genuine(After(actions), After(actions).saves[k])
  {
    InvAlways(actions);
  }

  /** A flush that may return has seen a finished save attempt of a generation at least its target. */
  lemma FlushSeesItsTarget(actions: seq<Action>, f: nat)
    requires Enabled(After(actions), Return(f)) && After(actions).flushers[f].target > 0
    ensures var s := After(actions);
            exists k :: 0 <= k < |s.saves| && s.saves[k].generation >= s.flushers[f].target
  {
    InvAlways(actions);
  }

  /** Flush `f` was called at step `n` and has not returned since. */
  ghost predicate CalledAt(actions: seq<Action>, n: nat, f: nat) {
    && n < |actions| && actions[n] == LoadTarget(f) && Enabled(After(actions[..n]), actions[n])
    && forall m | n < m < |actions| && actions[m] == Return(f) :: !Enabled(After(actions[..m]), actions[m])
  }

  lemma StepKeepsTarget(s: State, a: Action, f: nat)
    requires f in s.flushers && !(a == Return(f) && Enabled(s, a))
    ensures f in Step(s, a).flushers && Step(s, a).flushers[f].target == s.flushers[f].target
  {
  }

  lemma {:induction false} TargetStays(actions: seq<Action>, n: nat, f: nat)
    requires CalledAt(actions, n, f)
    ensures var s := After(actions);
            f in s.flushers && s.flushers[f].target == After(actions[..n]).scheduled
    decreases |actions|
  {
    var last := |actions| - 1;
    assert actions[..last][..n] == actions[..n];
    if n < last {
      CalledEarlier(actions, n, f);
      TargetStays(actions[..last], n, f);
      hide Step, Enabled;
      StepKeepsTarget(After(actions[..last]), actions[last], f);
    }
  }

  lemma CalledEarlier(actions: seq<Action>, n: nat, f: nat)
    requires CalledAt(actions, n, f) && n < |actions| - 1
    ensures var last := |actions| - 1;
            && CalledAt(actions[..last], n, f)
            && (actions[last] == Return(f) ==> !Enabled(After(actions[..last]), actions[last]))
  {
    hide Enabled, After;
    var earlier := actions[..|actions| - 1];
    assert forall m | 0 <= m < |actions| :: earlier[..m] == actions[..m];
  }

  /** A flush returns only after a finished save attempt of everything that was scheduled when it was called. */
  lemma FlushCoversEarlierSchedules(actions: seq<Action>, n: nat, f: nat)
    requires CalledAt(actions, n, f) && Enabled(After(actions), Return(f))
    ensures var s, earlier := After(actions), After(actions[..n]).log;
            earlier == [] || exists k :: 0 <= k < |s.saves| && s.saves[k].generation >= |earlier|
  {
    TargetStays(actions, n, f);
    InvAlways(actions[..n]);
    InvAlways(actions);
  }

  /** No wake-up is lost: a pending snapshot, a parked worker and no permit mean that a notification is under way. */
  lemma PendingWakesWorker(actions: seq<Action>)
    requires After(actions).latest.Some? && After(actions).worker.Parked?
    ensures Enabled(After(actions), Wake) || exists i :: Enabled(After(actions), Notify(i))
  {
    InvAlways(actions);
    var s := After(actions);
    if !s.permit {
      var i :| i in s.schedulers && s.schedulers[i].SlotStored?;
      assert Enabled(s, Notify(i));
    }
  }

  // ------------------------------------------------------------------------
  // Order of saves
  // ------------------------------------------------------------------------

  /** The slot receives a newer generation than it received before. */
  predicate StoresInOrder(s: State, a: Action) {
    a.StoreSlot? && Enabled(s, a) ==> s.schedulers[a.thread].tagged.generation > s.lastStored
  }

  ghost predicate InOrder(actions: seq<Action>) {
    forall n | 0 <= n < |actions| :: StoresInOrder(After(actions[..n]), actions[n])
  }

  /** Schedule calls that do not overlap: no call starts before the previous one has stored its snapshot. */
  ghost predicate NonOverlapping(actions: seq<Action>) {
    forall n | 0 <= n < |actions| ::
      actions[n].TakeGeneration? ==>
        forall i | i in After(actions[..n]).schedulers :: After(actions[..n]).schedulers[i].SlotStored?
  }

  ghost predicate OrderInv(s: State) {
    && (forall j, k | 0 <= j < k < |s.saves| :: s.saves[j].generation < s.saves[k].generation)
    && (forall k | 0 <= k < |s.saves| ::
          && (s.worker.Saving? ==> s.saves[k].generation < s.worker.tagged.generation)
          && (s.latest.Some? ==> s.saves[k].generation < s.latest.value.generation))
    && (s.worker.Saving? && s.latest.Some? ==> s.worker.tagged.generation < s.latest.value.generation)
    && (s.saves == [] ==> s.completed == 0)
    && (s.saves != [] ==> s.completed <= s.saves[|s.saves| - 1].generation)
  }

  lemma LastSaveIsNewest(s: State)
    requires Inv(s) && OrderInv(s)
    ensures forall k | 0 <= k < |s.saves| :: s.saves[k].generation <= s.lastStored
  {
    forall k | 0 <= k < |s.saves|
      ensures s.saves[k].generation <= s.lastStored
    {
      if k < |s.saves| - 1 {
        assert s.saves[k].generation < s.saves[|s.saves| - 1].generation;
      }
    }
  }

  lemma StepKeepsOrder(s: State, a: Action)
    requires Inv(s) && OrderInv(s) && StoresInOrder(s, a)
    ensures OrderInv(Step(s, a))
  {
    if Enabled(s, a) && a.StoreSlot? {
      LastSaveIsNewest(s);
    }
  }

  /** Stores in generation order make the saved generations strictly increase, so the last save is the newest. */
  lemma {:induction false} SavesIncrease(actions: seq<Action>)
    requires InOrder(actions)
    ensures OrderInv(After(actions))
    decreases |actions|
  {
    if actions != [] {
      var earlier := actions[..|actions| - 1];
      assert forall n | 0 <= n < |earlier| :: earlier[..n] == actions[..n];
      SavesIncrease(earlier);
      InvAlways(earlier);
      StepKeepsOrder(After(earlier), actions[|actions| - 1]);
    }
  }

  /** At most one call is between taking a generation and storing it, and it holds the newest one. */
  ghost predicate OneTaken(s: State) {
    if exists i :: i in s.schedulers && s.schedulers[i].GenerationTaken? then
      s.lastStored < s.scheduled
      && forall i | i in s.schedulers && s.schedulers[i].GenerationTaken? ::
           s.schedulers[i].tagged.generation == s.scheduled
    else s.lastStored == s.scheduled
  }

  lemma {:induction false} NonOverlappingFacts(actions: seq<Action>)
    requires NonOverlapping(actions)
    ensures OneTaken(After(actions)) && TakenOnce(After(actions))
    ensures InOrder(actions)
    decreases |actions|
  {
    if actions != [] {
      var earlier, a := actions[..|actions| - 1], actions[|actions| - 1];
      assert forall n | 0 <= n < |earlier| :: earlier[..n] == actions[..n];
      NonOverlappingFacts(earlier);
      InvAlways(earlier);
      var s := After(earlier);
      assert StoresInOrder(s, a);
      forall n | 0 <= n < |actions|
        ensures StoresInOrder(After(actions[..n]), actions[n])
      {
        if n < |earlier| {
          assert StoresInOrder(After(earlier[..n]), earlier[n]);
        }
      }
      OneTakenStep(s, a);
    }
  }

  ghost predicate TakenOnce(s: State) {
    forall i, j | i in s.schedulers && j in s.schedulers && i != j
                  && s.schedulers[i].GenerationTaken? :: s.schedulers[j].SlotStored?
  }

  lemma OneTakenStep(s: State, a: Action)
    requires Inv(s) && OneTaken(s) && TakenOnce(s)
    requires a.TakeGeneration? ==> forall i | i in s.schedulers :: s.schedulers[i].SlotStored?
    ensures OneTaken(Step(s, a)) && TakenOnce(Step(s, a))
  {
    if Enabled(s, a) {
      var s' := Apply(s, a);
      match a
      case TakeGeneration(i, snapshot) => assert s'.schedulers[i].GenerationTaken?;
      case StoreSlot(i) =>
        assert forall j | j in s'.schedulers :: s'.schedulers[j].SlotStored?;
      case Notify(i) =>
        assert forall j | j in s'.schedulers :: s'.schedulers[j] == s.schedulers[j];
        assert forall j | j in s.schedulers && s.schedulers[j].GenerationTaken? :: j in s'.schedulers;
      case _ => assert s'.schedulers == s.schedulers;
    }
  }

  // ------------------------------------------------------------------------
  // Latest wins
  // ------------------------------------------------------------------------

  /** Nothing is being scheduled, the slot is empty, the worker is parked. */
  predicate Quiescent(s: State) {
    s.schedulers == map[] && s.latest.None? && s.worker.Parked?
  }

  /** The snapshot scheduled last is the one saved last. */
  ghost predicate NewestSavedLast(s: State) {
    && s.saves != []
    && s.saves[|s.saves| - 1].generation == s.scheduled
    && Genuine(s, s.saves[|s.saves| - 1])
  }

  /** At rest the last save is of the newest snapshot exactly when the newest snapshot was stored last. */
  lemma LatestWinsExactly(actions: seq<Action>)
    requires Quiescent(After(actions)) && After(actions).scheduled > 0
    ensures NewestSavedLast(After(actions)) <==> After(actions).lastStored == After(actions).scheduled
  {
    InvAlways(actions);
  }

  /** Without overlap the newest snapshot is the one on disk once everything is at rest. */
  lemma LatestWins(actions: seq<Action>)
    requires NonOverlapping(actions)
    requires Quiescent(After(actions)) && After(actions).scheduled > 0
    ensures NewestSavedLast(After(actions))
  {
    NonOverlappingFacts(actions);
    LatestWinsExactly(actions);
  }

  lemma Extend(actions: seq<Action>, a: Action)
    ensures After(actions + [a]) == Step(After(actions), a)
  {
    assert (actions + [a])[..|actions|] == actions;
  }

  /** Two calls overlap: the newer snapshot is stored first, then the older one over it. */
  lemma OverlappingStores(old': Snapshot, new': Snapshot) returns (actions: seq<Action>)
    ensures After(actions) == State(2, Some(Tagged(1, old')), 0, true, Parked, map[], map[], [old', new'], [], 1)
  {
    actions := [];
    Extend(actions, TakeGeneration(0, old'));
    actions := actions + [TakeGeneration(0, old')];
    Extend(actions, TakeGeneration(1, new'));
    actions := actions + [TakeGeneration(1, new')];
    var taken := map[0 := GenerationTaken(Tagged(1, old')), 1 := GenerationTaken(Tagged(2, new'))];
    assert After(actions) == State(2, None, 0, false, Parked, taken, map[], [old', new'], [], 0);
    Extend(actions, StoreSlot(1));
    actions := actions + [StoreSlot(1)];
    Extend(actions, StoreSlot(0));
    actions := actions + [StoreSlot(0)];
    assert After(actions).schedulers == map[0 := SlotStored, 1 := SlotStored];
    Extend(actions, Notify(0));
    actions := actions + [Notify(0)];
    Extend(actions, Notify(1));
    actions := actions + [Notify(1)];
    assert After(actions).schedulers == map[];
  }

  /** The worker saves what it finds and parks; nobody is listening. */
  lemma WorkerDrains(start: seq<Action>, t: Tagged) returns (actions: seq<Action>)
    requires var s := After(start);
             s.latest == Some(t) && s.permit && s.worker.Parked? && s.schedulers == map[] && s.flushers == map[]
    ensures After(actions) == After(start).(latest := None, permit := false, saves := After(start).saves + [t])
  {
    Extend(start, Wake);
    actions := start + [Wake];
    Extend(actions, TakeSlot);
    actions := actions + [TakeSlot];
    Extend(actions, FinishSave);
    actions := actions + [FinishSave];
    Extend(actions, Send);
    actions := actions + [Send];
    Extend(actions, TakeSlot);
    actions := actions + [TakeSlot];
  }

  /** Two overlapping calls can leave the older snapshot on disk for good. */
  lemma OverlapCanLoseNewest(old': Snapshot, new': Snapshot)
    ensures exists actions ::
              Quiescent(After(actions)) && After(actions).scheduled == 2 && After(actions).log == [old', new']
              && After(actions).saves == [Tagged(1, old')]
  {
    var start := OverlappingStores(old', new');
    var actions := WorkerDrains(start, Tagged(1, old'));
    assert Quiescent(After(actions));
  }

  // ------------------------------------------------------------------------
  // When a flush gets its answer
  // ------------------------------------------------------------------------

  /** The target is announced, or a generation that reaches it is in the slot or not yet announced by the worker. */
  predicate Covered(s: State, target: nat) {
    || s.completed >= target
    || (s.latest.Some? && s.latest.value.generation >= target)
    || (s.worker.Saving? && s.worker.tagged.generation >= target)
    || (s.worker.Saved? && s.worker.generation >= target)
  }

  predicate IsWaiting(s: State, f: nat, target: nat) {
    f in s.flushers && s.flushers[f] == Waiting(target)
  }

  /** A covered flush stays covered until it returns. */
  lemma CoveredStays(s: State, a: Action, f: nat, target: nat)
    requires Inv(s) && OrderInv(s) && StoresInOrder(s, a)
    requires IsWaiting(s, f, target) && Covered(s, target)
    ensures IsWaiting(Step(s, a), f, target) ==> Covered(Step(s, a), target)
  {
    if Enabled(s, a) && a.StoreSlot? && s.latest.Some? {
      assert s.lastStored == s.latest.value.generation;
    }
  }

  // ------------------------------------------------------------------------
  // A covered flush returns after a bounded number of moves
  // ------------------------------------------------------------------------

  /** A step of the worker, or of a schedule call that has taken its generation. */
  predicate IsMove(a: Action) {
    a.StoreSlot? || a.Notify? || a.Wake? || a.TakeSlot? || a.FinishSave? || a.Send?
  }

  function TakenBy(schedulers: map<nat, Scheduling>): set<nat> {
    set i | i in schedulers && schedulers[i].GenerationTaken?
  }

  function StoredBy(schedulers: map<nat, Scheduling>): set<nat> {
    set i | i in schedulers && schedulers[i].SlotStored?
  }

  function Phase(worker: Worker): nat {
    match worker
    case Parked => 0
    case Draining => 1
    case Saved(_) => 2
    case Saving(_) => 3
  }

  /** How many moves there can be before another schedule call. */
  function Rank(s: State): nat {
    Phase(s.worker) + (if s.latest.Some? then 3 else 0) + (if s.permit then 2 else 0)
    + 3 * |StoredBy(s.schedulers)| + 7 * |TakenBy(s.schedulers)|
  }

  lemma StepLowersRank(s: State, a: Action)
    requires !a.TakeGeneration?
    ensures Rank(Step(s, a)) + (if IsMove(a) && Enabled(s, a) then 1 else 0) <= Rank(s)
  {
    if Enabled(s, a) {
      hide TakenBy, StoredBy;
      if a.StoreSlot? {
        StoreMovesOn(s.schedulers, a.thread);
      } else if a.Notify? {
        NotifyMovesOn(s.schedulers, a.thread);
      }
    }
  }

  lemma StoreMovesOn(schedulers: map<nat, Scheduling>, i: nat)
    requires i in schedulers && schedulers[i].GenerationTaken?
    ensures |TakenBy(schedulers[i := SlotStored])| + 1 == |TakenBy(schedulers)|
    ensures |StoredBy(schedulers[i := SlotStored])| == |StoredBy(schedulers)| + 1
  {
    assert TakenBy(schedulers[i := SlotStored]) == TakenBy(schedulers) - {i} && i in TakenBy(schedulers);
    assert StoredBy(schedulers[i := SlotStored]) == StoredBy(schedulers) + {i} && i !in StoredBy(schedulers);
  }

  lemma NotifyMovesOn(schedulers: map<nat, Scheduling>, i: nat)
    requires i in schedulers && schedulers[i].SlotStored?
    ensures |TakenBy(schedulers - {i})| == |TakenBy(schedulers)|
    ensures |StoredBy(schedulers - {i})| + 1 == |StoredBy(schedulers)|
  {
    assert TakenBy(schedulers - {i}) == TakenBy(schedulers);
    assert StoredBy(schedulers - {i}) == StoredBy(schedulers) - {i} && i in StoredBy(schedulers);
  }

  /** How many of these steps, taken from `s` on, are moves. */
  function Moves(s: State, more: seq<Action>): nat
    decreases |more|
  {
    if more == [] then 0
    else
      var earlier, last := more[..|more| - 1], more[|more| - 1];
      Moves(s, earlier) + if IsMove(last) && Enabled(Continue(s, earlier), last) then 1 else 0
  }

  function Continue(s: State, more: seq<Action>): State {
    if more == [] then s else Step(Continue(s, more[..|more| - 1]), more[|more| - 1])
  }

  ghost predicate StaysWaiting(s: State, more: seq<Action>, f: nat, target: nat) {
    forall n | 0 <= n <= |more| :: IsWaiting(Continue(s, more[..n]), f, target)
  }

  ghost predicate StoresStayInOrder(s: State, more: seq<Action>) {
    forall n | 0 <= n < |more| :: StoresInOrder(Continue(s, more[..n]), more[n])
  }

  lemma {:induction false} MovesAreBounded(s: State, more: seq<Action>)
    requires forall n | 0 <= n < |more| :: !more[n].TakeGeneration?
    ensures Rank(Continue(s, more)) + Moves(s, more) <= Rank(s)
    decreases |more|
  {
    if more != [] {
      var earlier := more[..|more| - 1];
      MovesAreBounded(s, earlier);
      StepLowersRank(Continue(s, earlier), more[|more| - 1]);
    }
  }

  lemma {:induction false} CoveredAllAlong(s: State, more: seq<Action>, f: nat, target: nat)
    requires Inv(s) && OrderInv(s) && Covered(s, target)
    requires StaysWaiting(s, more, f, target) && StoresStayInOrder(s, more)
    ensures Inv(Continue(s, more)) && OrderInv(Continue(s, more)) && Covered(Continue(s, more), target)
    decreases |more|
  {
    if more != [] {
      var n := |more| - 1;
      AllButLast(s, more, f, target);
      hide Inv, OrderInv, Covered, StaysWaiting, StoresStayInOrder, Step;
      CoveredAllAlong(s, more[..n], f, target);
      StepKeepsInv(Continue(s, more[..n]), more[n]);
      StepKeepsOrder(Continue(s, more[..n]), more[n]);
      CoveredStays(Continue(s, more[..n]), more[n], f, target);
    }
  }

  lemma AllButLast(s: State, more: seq<Action>, f: nat, target: nat)
    requires more != [] && StaysWaiting(s, more, f, target) && StoresStayInOrder(s, more)
    ensures var n := |more| - 1;
            && StaysWaiting(s, more[..n], f, target) && StoresStayInOrder(s, more[..n])
            && IsWaiting(Continue(s, more[..n]), f, target) && IsWaiting(Continue(s, more), f, target)
            && StoresInOrder(Continue(s, more[..n]), more[n])
  {
    var n := |more| - 1;
    assert forall k | 0 <= k <= n :: more[..n][..k] == more[..k];
    assert more[..n + 1] == more;
    assert IsWaiting(Continue(s, more[..n + 1]), f, target);
  }

  /** With no move left, a covered flush may return. */
  lemma RestEnablesReturn(s: State, f: nat, target: nat)
    requires Inv(s) && IsWaiting(s, f, target) && Covered(s, target)
    ensures Rank(s) == 0 ==> Enabled(s, Return(f))
    ensures Enabled(s, Return(f)) || exists a :: IsMove(a) && !a.StoreSlot? && Enabled(s, a)
  {
    if !Enabled(s, Return(f)) {
      if s.worker.Parked? && !s.permit {
        var i :| i in s.schedulers && s.schedulers[i].SlotStored?;
        assert Enabled(s, Notify(i)) && i in StoredBy(s.schedulers);
      } else {
        assert Enabled(s, Wake) || Enabled(s, TakeSlot) || Enabled(s, FinishSave) || Enabled(s, Send);
      }
    }
  }

  /**
   From a covered state, without new schedule calls: at most `Rank` moves of the worker and of calls under way
   are possible, in whatever order and with whatever steps of flushes between them; until the flush may return,
   one of them is possible; and after that many it may return.
   */
  lemma CoveredReturns(actions: seq<Action>, more: seq<Action>, f: nat, target: nat)
    requires InOrder(actions) && Covered(After(actions), target)
    requires forall n | 0 <= n < |more| :: !more[n].TakeGeneration?
    requires StaysWaiting(After(actions), more, f, target) && StoresStayInOrder(After(actions), more)
    ensures var s, s' := After(actions), Continue(After(actions), more);
            && Moves(s, more) <= Rank(s)
            && (Enabled(s', Return(f)) || exists a :: IsMove(a) && !a.StoreSlot? && Enabled(s', a))
            && (Moves(s, more) == Rank(s) ==> Enabled(s', Return(f)))
  {
    var s := After(actions);
    InvAlways(actions);
    SavesIncrease(actions);
    MovesAreBounded(s, more);
    CoveredAllAlong(s, more, f, target);
    assert more[..|more|] == more;
    assert IsWaiting(Continue(s, more[..|more|]), f, target);
    RestEnablesReturn(Continue(s, more), f, target);
  }

  /** A flush that is not covered cannot return, and no step but a new store of its target changes that. */
  lemma UncoveredWaits(s: State, a: Action, f: nat, target: nat)
    requires IsWaiting(s, f, target) && !Covered(s, target)
    requires a.StoreSlot? && Enabled(s, a) ==> s.schedulers[a.thread].tagged.generation < target
    ensures !Enabled(s, Return(f))
    ensures IsWaiting(Step(s, a), f, target) && !Covered(Step(s, a), target)
  {
  }

  /** A flush that subscribes after the save was announced to nobody waits although its snapshot is on disk. */
  lemma FlushCanMissItsSave(snapshot: Snapshot)
    ensures exists actions ::
              && After(actions).saves == [Tagged(1, snapshot)]
              && After(actions).schedulers == map[]
              && IsWaiting(After(actions), 0, 1) && !Covered(After(actions), 1)
  {
    var start := [];
    Extend(start, TakeGeneration(0, snapshot));
    start := start + [TakeGeneration(0, snapshot)];
    Extend(start, StoreSlot(0));
    start := start + [StoreSlot(0)];
    Extend(start, Notify(0));
    start := start + [Notify(0)];
    assert After(start).schedulers == map[];
    var actions := WorkerDrains(start, Tagged(1, snapshot));
    Extend(actions, LoadTarget(0));
    actions := actions + [LoadTarget(0)];
    Extend(actions, Subscribe(0));
    actions := actions + [Subscribe(0)];
    assert IsWaiting(After(actions), 0, 1) && !Covered(After(actions), 1);
  }
}
