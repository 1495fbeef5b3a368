/**
 What the phases are for: running them in order, with the calls of each phase
 interleaved in any way, is the same as running the calls one after another.
 A call is a sequence of atomic actions on the shared store and on a state of its own.
 */
module Serializability {
  import opened Scheduler

  type Store<V> = map<Resource, V>

  type Action<!V, !L> = (Store<V>, L) -> (Store<V>, L)

  /** The shared store, and for every call what it has observed so far. */
  datatype World<V, L> = World(store: Store<V>, locals: seq<L>)

  /** Call `call` performs its action number `step`. */
  datatype Event = Event(call: nat, step: nat)

  ghost function Claimed(claims: Claims): set<Resource> {
    set a | a in claims :: a.resource
  }

  ghost function Written(claims: Claims): set<Resource> {
    set a | a in claims && a.kind == Write :: a.resource
  }

  ghost predicate SameAt<V>(s: Store<V>, t: Store<V>, k: Resource) {
    (k in s <==> k in t) && (k in s ==> s[k] == t[k])
  }

  /** An action of a call that claims `claims`: only a barrier claimant may touch unclaimed resources. */
  ghost predicate Respects<V(!new), L(!new)>(claims: Claims, act: Action<V, L>) {
    IsGlobal(claims) ||
    (&& (forall s, l, k | k !in Written(claims) :: SameAt(act(s, l).0, s, k))
     && (forall s, t, l | Agree(s, t, Claimed(claims)) ::
           act(s, l).1 == act(t, l).1 && Agree(act(s, l).0, act(t, l).0, Claimed(claims))))
  }

  ghost predicate Agree<V>(s: Store<V>, t: Store<V>, keys: set<Resource>) {
    forall k | k in keys :: SameAt(s, t, k)
  }

  // ------------------------------------------------------------------------
  // Execution of traces
  // ------------------------------------------------------------------------

  ghost predicate ValidEvent<V, L>(calls: seq<seq<Action<V, L>>>, e: Event) {
    e.call < |calls| && e.step < |calls[e.call]|
  }

  ghost function Exec<V, L>(calls: seq<seq<Action<V, L>>>, e: Event, w: World<V, L>): (r: World<V, L>)
    requires ValidEvent(calls, e) && |w.locals| == |calls|
    ensures |r.locals| == |calls|
  {
    var (store, local) := calls[e.call][e.step](w.store, w.locals[e.call]);
    World(store, w.locals[e.call := local])
  }

  ghost predicate ValidTrace<V, L>(calls: seq<seq<Action<V, L>>>, trace: seq<Event>) {
    forall i | 0 <= i < |trace| :: ValidEvent(calls, trace[i])
  }

  ghost function Run<V, L>(calls: seq<seq<Action<V, L>>>, trace: seq<Event>, w: World<V, L>): (r: World<V, L>)
    requires ValidTrace(calls, trace) && |w.locals| == |calls|
    ensures |r.locals| == |calls|
  {
    if trace == [] then w else Run(calls, trace[1..], Exec(calls, trace[0], w))
  }

  ghost predicate AllRespect<V(!new), L(!new)>(accesses: seq<Claims>, calls: seq<seq<Action<V, L>>>) {
    && |accesses| == |calls|
    && forall i, k | 0 <= i < |calls| && 0 <= k < |calls[i]| :: Respects(accesses[i], calls[i][k])
  }

  ghost predicate Dependent(accesses: seq<Claims>, e: Event, f: Event)
    requires e.call < |accesses| && f.call < |accesses|
  {
    e.call == f.call || Conflict(accesses[e.call], accesses[f.call])
  }

  // ------------------------------------------------------------------------
  // Independent actions commute
  // ------------------------------------------------------------------------

  lemma IndependentCommute<V(!new), L(!new)>(
    accesses: seq<Claims>, calls: seq<seq<Action<V, L>>>, e: Event, f: Event, w: World<V, L>)
    requires AllRespect(accesses, calls) && |w.locals| == |calls|
    requires ValidEvent(calls, e) && ValidEvent(calls, f)
    requires !Dependent(accesses, e, f)
    ensures Exec(calls, f, Exec(calls, e, w)) == Exec(calls, e, Exec(calls, f, w))
  {
    var a, b := calls[e.call][e.step], calls[f.call][f.step];
    var le, lf := w.locals[e.call], w.locals[f.call];
    var ca, cb := accesses[e.call], accesses[f.call];
    assert Respects(ca, a) && Respects(cb, b);
    ClaimsDisjoint(ca, cb);
    ClaimsDisjoint(cb, ca);
    StoresCommute(ca, cb, a, b, w.store, le, lf);
    var ef, fe := Exec(calls, f, Exec(calls, e, w)), Exec(calls, e, Exec(calls, f, w));
    assert ef.locals == fe.locals;
  }

  lemma ClaimsDisjoint(a: Claims, b: Claims)
    requires !Conflict(a, b)
    ensures Written(a) !! Claimed(b)
  {
    if k :| k in Written(a) && k in Claimed(b) {
      OverlapConflicts(a, b, k);
    }
  }

  lemma OverlapConflicts(a: Claims, b: Claims, k: Resource)
    requires k in Written(a) && k in Claimed(b)
    ensures Conflict(a, b)
  {
    var x :| x in a && x.kind == Write && x.resource == k;
    var y :| y in b && y.resource == k;
  }

  lemma StoresCommute<V(!new), L(!new)>(
    ca: Claims, cb: Claims, a: Action<V, L>, b: Action<V, L>, s: Store<V>, la: L, lb: L)
    requires Respects(ca, a) && Respects(cb, b) && !IsGlobal(ca) && !IsGlobal(cb)
    requires Written(ca) !! Claimed(cb) && Written(cb) !! Claimed(ca)
    ensures b(a(s, la).0, lb).1 == b(s, lb).1
    ensures a(b(s, lb).0, la).1 == a(s, la).1
    ensures b(a(s, la).0, lb).0 == a(b(s, lb).0, la).0
  {
    var sa, sb := a(s, la).0, b(s, lb).0;
    assert Agree(sa, s, Claimed(cb));
    assert Agree(sb, s, Claimed(ca));
    var sab, sba := b(sa, lb).0, a(sb, la).0;
    forall k
      ensures (k in sab <==> k in sba) && (k in sab ==> sab[k] == sba[k])
    {
      if k in Written(ca) {
        assert k in Claimed(ca) && k !in Written(cb);
        assert SameAt(sab, sa, k) && SameAt(sba, sa, k);
      } else if k in Written(cb) {
        assert k in Claimed(cb);
        assert SameAt(sab, sb, k) && SameAt(sba, sb, k);
      } else {
        assert SameAt(sab, sa, k) && SameAt(sba, sb, k);
      }
    }
    assert sab == sba;
  }

  // ------------------------------------------------------------------------
  // Traces with the same dependent order are equivalent
  // ------------------------------------------------------------------------

  ghost predicate NoDuplicates(trace: seq<Event>) {
    forall i, j | 0 <= i < j < |trace| :: trace[i] != trace[j]
  }

  ghost predicate Before(trace: seq<Event>, e: Event, f: Event) {
    exists i, j :: 0 <= i < j < |trace| && trace[i] == e && trace[j] == f
  }

  ghost predicate SameEvents(s: seq<Event>, t: seq<Event>) {
    forall e :: e in s <==> e in t
  }

  ghost predicate KeepsDependentOrder(accesses: seq<Claims>, s: seq<Event>, t: seq<Event>)
    requires forall e | e in s :: e.call < |accesses|
  {
    forall i, j | 0 <= i < j < |s| && Dependent(accesses, s[i], s[j]) :: Before(t, s[i], s[j])
  }

  lemma RunCons<V, L>(calls: seq<seq<Action<V, L>>>, e: Event, rest: seq<Event>, w: World<V, L>)
    requires ValidEvent(calls, e) && ValidTrace(calls, rest) && |w.locals| == |calls|
    ensures ValidTrace(calls, [e] + rest)
    ensures Run(calls, [e] + rest, w) == Run(calls, rest, Exec(calls, e, w))
  {
    assert ([e] + rest)[1..] == rest;
  }

  /** Moving an event to the front of a trace past events it is independent of. */
  lemma {:induction false} MoveToFront<V(!new), L(!new)>(
    accesses: seq<Claims>, calls: seq<seq<Action<V, L>>>, before: seq<Event>, e: Event, after: seq<Event>,
    w: World<V, L>)
    requires AllRespect(accesses, calls) && |w.locals| == |calls|
    requires ValidTrace(calls, before) && ValidEvent(calls, e) && ValidTrace(calls, after)
    requires forall q | 0 <= q < |before| :: !Dependent(accesses, before[q], e)
    ensures ValidTrace(calls, before + [e] + after) && ValidTrace(calls, before + after)
    ensures Run(calls, before + [e] + after, w) == Run(calls, before + after, Exec(calls, e, w))
    decreases |before|
  {
    if before == [] {
      assert before + [e] + after == [e] + after;
      assert before + after == after;
      RunCons(calls, e, after, w);
    } else {
      var first, tail := before[0], before[1..];
      MoveToFront(accesses, calls, tail, e, after, Exec(calls, first, w));
      assert before + [e] + after == [first] + (tail + [e] + after);
      assert before + after == [first] + (tail + after);
      RunCons(calls, first, tail + [e] + after, w);
      RunCons(calls, first, tail + after, Exec(calls, e, w));
      IndependentCommute(accesses, calls, first, e, w);
    }
  }

  lemma {:induction false} TracesEquivalent<V(!new), L(!new)>(
    accesses: seq<Claims>, calls: seq<seq<Action<V, L>>>, s: seq<Event>, t: seq<Event>, w: World<V, L>)
    requires AllRespect(accesses, calls) && |w.locals| == |calls|
    requires ValidTrace(calls, s) && ValidTrace(calls, t)
    requires NoDuplicates(s) && NoDuplicates(t) && SameEvents(s, t)
    requires KeepsDependentOrder(accesses, s, t)
    ensures Run(calls, s, w) == Run(calls, t, w)
    decreases |s|
  {
    if s == [] {
      if t != [] {
        HasMember(t);
      }
    } else {
      var e := s[0];
      assert e in s;
      var p :| 0 <= p < |t| && t[p] == e;
      var before, after := t[..p], t[p + 1..];
      forall q | 0 <= q < p
        ensures !Dependent(accesses, before[q], e)
      {
        EarlierIsIndependent(accesses, s, t, p, q);
      }
      MoveToFront(accesses, calls, before, e, after, w);
      assert t == before + [e] + after;
      RemovedOnce(s, 0);
      RemovedOnce(t, p);
      assert s[..0] + s[1..] == s[1..];
      RemainderKeepsOrder(accesses, s, t, p);
      TracesEquivalent(accesses, calls, s[1..], before + after, Exec(calls, e, w));
    }
  }

  lemma HasMember(t: seq<Event>)
    requires t != []
    ensures exists e :: e in t
  {
    assert t[0] in t;
  }

  lemma NotBefore(t: seq<Event>, p: nat, q: nat)
    requires NoDuplicates(t) && q < p < |t|
    ensures !Before(t, t[p], t[q])
  {
  }

  lemma EarlierIsIndependent(accesses: seq<Claims>, s: seq<Event>, t: seq<Event>, p: nat, q: nat)
    requires s != [] && q < p < |t| && t[p] == s[0]
    requires forall e | e in s :: e.call < |accesses|
    requires NoDuplicates(t) && SameEvents(s, t)
    requires KeepsDependentOrder(accesses, s, t)
    ensures t[q].call < |accesses| && t[p].call < |accesses|
    ensures !Dependent(accesses, t[q], t[p])
  {
    assert t[q] in t && t[p] in t;
    assert t[q] in s;
    var x :| 0 <= x < |s| && s[x] == t[q];
    NotBefore(t, p, q);
    DependencyIsConflict(accesses[s[0].call], accesses[s[x].call]);
    DependencyIsConflict(accesses[s[x].call], accesses[s[0].call]);
    assert Dependent(accesses, t[q], t[p]) == Dependent(accesses, s[0], s[x]);
  }

  /** Dropping one position of a duplicate-free trace removes exactly that event. */
  lemma RemovedOnce(t: seq<Event>, p: nat)
    requires NoDuplicates(t) && p < |t|
    ensures var rest := t[..p] + t[p + 1..];
            && NoDuplicates(rest)
            && (forall e :: e in rest <==> e in t && e != t[p])
  {
    var rest := t[..p] + t[p + 1..];
    forall e | e in t && e != t[p]
      ensures e in rest
    {
      var i :| 0 <= i < |t| && t[i] == e;
      assert rest[if i < p then i else i - 1] == e;
    }
    forall e | e in rest
      ensures e in t && e != t[p]
    {
      var i :| 0 <= i < |rest| && rest[i] == e;
      assert t[if i < p then i else i + 1] == e;
    }
  }

  lemma RemainderKeepsOrder(accesses: seq<Claims>, s: seq<Event>, t: seq<Event>, p: nat)
    requires s != [] && p < |t| && t[p] == s[0]
    requires forall e | e in s :: e.call < |accesses|
    requires NoDuplicates(s)
    requires KeepsDependentOrder(accesses, s, t)
    ensures KeepsDependentOrder(accesses, s[1..], t[..p] + t[p + 1..])
  {
    var rest := t[..p] + t[p + 1..];
    forall i, j | 0 <= i < j < |s| - 1 && Dependent(accesses, s[1..][i], s[1..][j])
      ensures Before(rest, s[1..][i], s[1..][j])
    {
      var e, f := s[i + 1], s[j + 1];
      assert Before(t, e, f);
      var x, y :| 0 <= x < y < |t| && t[x] == e && t[y] == f;
      var x', y' := if x < p then x else x - 1, if y < p then y else y - 1;
      assert rest[x'] == e && rest[y'] == f;
    }
  }

  // ------------------------------------------------------------------------
  // Serial and phased traces
  // ------------------------------------------------------------------------

  /** Every action of every call, once. */
  ghost predicate Complete<V, L>(calls: seq<seq<Action<V, L>>>, trace: seq<Event>) {
    && NoDuplicates(trace)
    && forall e :: e in trace <==> ValidEvent(calls, e)
  }

  ghost predicate ProgramOrder(trace: seq<Event>) {
    forall i, j | 0 <= i < j < |trace| && trace[i].call == trace[j].call :: trace[i].step < trace[j].step
  }

  /** The calls of the phases in order; nothing is assumed about the interleaving inside one phase. */
  ghost predicate PhasedTrace<V, L>(calls: seq<seq<Action<V, L>>>, phases: seq<ExecutionPhase>, trace: seq<Event>) {
    && Complete(calls, trace)
    && ProgramOrder(trace)
    && forall i, j, p, q | 0 <= i < j < |trace| && 0 <= p < |phases| && 0 <= q < |phases|
                           && trace[i].call in phases[p].calls && trace[j].call in phases[q].calls :: p <= q
  }

  ghost function CallTrace(call: nat, steps: nat): seq<Event> {
    seq(steps, k requires 0 <= k => Event(call, k))
  }

  /** The calls below `n` run one after another in batch order. */
  ghost function SerialTrace<V, L>(calls: seq<seq<Action<V, L>>>, n: nat): seq<Event>
    requires n <= |calls|
  {
    if n == 0 then [] else SerialTrace(calls, n - 1) + CallTrace(n - 1, |calls[n - 1]|)
  }

  lemma {:induction false} SerialTraceFacts<V, L>(calls: seq<seq<Action<V, L>>>, n: nat)
    requires n <= |calls|
    ensures var trace := SerialTrace(calls, n);
            && (forall e :: e in trace <==> e.call < n && ValidEvent(calls, e))
            && (forall i, j | 0 <= i < j < |trace| ::
                  trace[i].call < trace[j].call || (trace[i].call == trace[j].call && trace[i].step < trace[j].step))
  {
    if n > 0 {
      SerialTraceFacts(calls, n - 1);
      var trace, rest, last := SerialTrace(calls, n), SerialTrace(calls, n - 1), CallTrace(n - 1, |calls[n - 1]|);
      forall e
        ensures e in trace <==> e.call < n && ValidEvent(calls, e)
      {
        if e.call == n - 1 && e.step < |calls[n - 1]| {
          assert last[e.step] == e;
        }
      }
      forall i, j | 0 <= i < j < |trace|
        ensures trace[i].call < trace[j].call || (trace[i].call == trace[j].call && trace[i].step < trace[j].step)
      {
        if i < |rest| <= j {
          assert rest[i] in rest;
        }
      }
    }
  }

  /**
   Serializability: every phased execution ends with the store, and gives every call
   the observations, of the execution that runs the calls one by one.
   */
  lemma PhasedExecutionIsSerializable<V(!new), L(!new)>(
    accesses: seq<Claims>, calls: seq<seq<Action<V, L>>>, trace: seq<Event>, w: World<V, L>)
    requires AllRespect(accesses, calls) && |w.locals| == |calls|
    requires PhasedTrace(calls, Layering(accesses), trace)
    ensures ValidTrace(calls, trace) && ValidTrace(calls, SerialTrace(calls, |calls|))
    ensures Run(calls, trace, w) == Run(calls, SerialTrace(calls, |calls|), w)
  {
    var serial := SerialTrace(calls, |calls|);
    SerialTraceFacts(calls, |calls|);
    assert forall i | 0 <= i < |trace| :: trace[i] in trace;
    assert forall i | 0 <= i < |serial| :: serial[i] in serial;
    forall i, j | 0 <= i < j < |serial| && Dependent(accesses, serial[i], serial[j])
      ensures Before(trace, serial[i], serial[j])
    {
      DependentOrderForced(accesses, calls, trace, serial[i], serial[j]);
    }
    TracesEquivalent(accesses, calls, serial, trace, w);
  }

  lemma DependentOrderForced<V, L>(
    accesses: seq<Claims>, calls: seq<seq<Action<V, L>>>, trace: seq<Event>, e: Event, f: Event)
    requires |accesses| == |calls|
    requires PhasedTrace(calls, Layering(accesses), trace)
    requires ValidEvent(calls, e) && ValidEvent(calls, f)
    requires e.call < f.call || (e.call == f.call && e.step < f.step)
    requires Dependent(accesses, e, f)
    ensures Before(trace, e, f)
  {
    assert e in trace && f in trace;
    var i, j :| 0 <= i < |trace| && 0 <= j < |trace| && trace[i] == e && trace[j] == f;
    if e.call < f.call {
      var d, d' := Depth(accesses, e.call), Depth(accesses, f.call);
      DependencyIsConflict(accesses[e.call], accesses[f.call]);
      DependencyDeepens(accesses, e.call, f.call);
      LayeringPartitions(accesses);
      LayerMembers(accesses, d, |accesses|);
      LayerMembers(accesses, d', |accesses|);
      assert e.call in Layering(accesses)[d].calls && f.call in Layering(accesses)[d'].calls;
    }
  }

  // ------------------------------------------------------------------------
  // How much of the ordering is necessary
  // ------------------------------------------------------------------------

  ghost predicate OrderObservable(a: Action<int, int>, b: Action<int, int>, s: Store<int>, la: int, lb: int) {
    || b(a(s, la).0, lb).0 != a(b(s, lb).0, la).0
    || b(a(s, la).0, lb).1 != b(s, lb).1
    || a(b(s, lb).0, la).1 != a(s, la).1
  }

  /** Some pair of actions allowed by the two claim lists can tell in which order it ran. */
  ghost predicate Interfere(ca: Claims, cb: Claims) {
    exists a: Action<int, int>, b: Action<int, int>, s, la, lb ::
      Respects(ca, a) && Respects(cb, b) && OrderObservable(a, b, s, la, lb)
  }

  /** The scheduler separates two calls exactly when their order can matter, or one of them claims nothing at all. */
  lemma ConflictIsExact(ca: Claims, cb: Claims)
    ensures Interfere(ca, cb) <==> Conflict(ca, cb) && ca != [] && cb != []
  {
    if Conflict(ca, cb) && ca != [] && cb != [] {
      ConflictInterferes(ca, cb);
    } else if Interfere(ca, cb) {
      var a: Action<int, int>, b: Action<int, int>, s, la, lb :|
        Respects(ca, a) && Respects(cb, b) && OrderObservable(a, b, s, la, lb);
      OrderUnobservable(ca, cb, a, b, s, la, lb);
    }
  }

  lemma OrderUnobservable(
    ca: Claims, cb: Claims, a: Action<int, int>, b: Action<int, int>, s: Store<int>, la: int, lb: int)
    requires Respects(ca, a) && Respects(cb, b)
    requires !Conflict(ca, cb) || ca == [] || cb == []
    ensures !OrderObservable(a, b, s, la, lb)
  {
    if ca == [] {
      NoClaimsNoEffect(a, s, b(s, lb).0, la);
    } else if cb == [] {
      NoClaimsNoEffect(b, s, a(s, la).0, lb);
    } else {
      ClaimsDisjoint(ca, cb);
      DependencyIsConflict(ca, cb);
      DependencyIsConflict(cb, ca);
      ClaimsDisjoint(cb, ca);
      StoresCommute(ca, cb, a, b, s, la, lb);
    }
  }

  lemma NoClaimsNoEffect(act: Action<int, int>, s: Store<int>, t: Store<int>, l: int)
    requires Respects([], act)
    ensures act(s, l).0 == s && act(t, l).0 == t && act(s, l).1 == act(t, l).1
  {
    assert Agree(s, t, Claimed([]));
    forall k
      ensures SameAt(act(s, l).0, s, k) && SameAt(act(t, l).0, t, k)
    {
      assert k !in Written([]);
    }
    StoreExtensionality(act(s, l).0, s);
    StoreExtensionality(act(t, l).0, t);
  }

  lemma StoreExtensionality<V>(s: Store<V>, t: Store<V>)
    requires forall k :: SameAt(s, t, k)
    ensures s == t
  {
    forall k
      ensures k in s <==> k in t
    {
      assert SameAt(s, t, k);
    }
    forall k | k in s
      ensures s[k] == t[k]
    {
      assert SameAt(s, t, k);
    }
  }

  lemma ConflictInterferes(ca: Claims, cb: Claims)
    requires Conflict(ca, cb) && ca != [] && cb != []
    ensures Interfere(ca, cb)
  {
    if IsGlobal(ca) {
      WriterAndReaderInterfere(ca, cb, cb[0].resource);
    } else if IsGlobal(cb) {
      WriterAndReaderInterfere(cb, ca, ca[0].resource);
    } else {
      var x, y :| x in ca && y in cb && x.resource == y.resource && (x.kind == Write || y.kind == Write);
      if x.kind == Write {
        WriterAndReaderInterfere(ca, cb, x.resource);
      } else {
        WriterAndReaderInterfere(cb, ca, x.resource);
      }
    }
  }

  lemma WriterAndReaderInterfere(ca: Claims, cb: Claims, r: Resource)
    requires IsGlobal(ca) || r in Written(ca)
    requires r in Claimed(cb)
    ensures Interfere(ca, cb) && Interfere(cb, ca)
  {
    var write: Action<int, int> := (s, l) => (s[r := 1], l);
    var read: Action<int, int> := (s, l) => (s, if r in s then s[r] else 0);
    var s: Store<int> := map[];
    assert Respects(ca, write) by {
      forall s, t, l | Agree(s, t, Claimed(ca))
        ensures write(s, l).1 == write(t, l).1 && Agree(write(s, l).0, write(t, l).0, Claimed(ca))
      {
      }
    }
    assert Respects(cb, read) by {
      forall s: Store<int>, t: Store<int>, l | Agree(s, t, Claimed(cb))
        ensures read(s, l).1 == read(t, l).1 && Agree(read(s, l).0, read(t, l).0, Claimed(cb))
      {
        assert SameAt(s, t, r);
      }
    }
    assert read(write(s, 0).0, 0).1 == 1 && read(s, 0).1 == 0;
    assert OrderObservable(write, read, s, 0, 0);
    assert OrderObservable(read, write, s, 0, 0);
  }
}
