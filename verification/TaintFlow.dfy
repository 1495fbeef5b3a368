/**
 What is tainted, and what the search steps through, in terms of the definitions, calls and assignments of a
 program and of nothing else.
 */
module TaintFlow {
  import opened Wrappers
  import opened Taint
  import opened TaintSearch
  import opened TaintCoverage

  /** One path extends the other by whole components, or they are the same. */
  ghost predicate Comparable(path: string, other: string) {
    path != "" && (Split(path) <= Split(other) || Split(other) <= Split(path))
  }

  /** The assignment reads the path, or a part or the whole of what it is a part of. */
  ghost predicate ReadsFrom(a: Assignment, path: string) {
    exists r :: r in a.rhs && Comparable(r, path)
  }

  ghost predicate ReadsAny(a: Assignment, paths: TaintSet) {
    exists t :: t in paths && ReadsFrom(a, t)
  }

  /** The later assignment reads what the earlier one assigns. */
  ghost predicate PassesOn(earlier: Assignment, later: Assignment) {
    exists l :: l in earlier.lhs && ReadsFrom(later, l)
  }

  /** By start byte, and in the order of recording where two start at the same byte. */
  ghost predicate Precedes(assignments: seq<Assignment>, c: nat, d: nat) {
    && c < |assignments| && d < |assignments|
    && (assignments[c].start < assignments[d].start || (assignments[c].start == assignments[d].start && c < d))
  }

  /** Assignments in order: the first reads the seed, each later one the one before, and the last assigns the path. */
  ghost predicate IsFlow(assignments: seq<Assignment>, seed: TaintSet, chain: seq<nat>, x: string) {
    && chain != []
    && (forall k | 0 <= k < |chain| :: chain[k] < |assignments|)
    && (forall j, k | 0 <= j < k < |chain| :: Precedes(assignments, chain[j], chain[k]))
    && ReadsAny(assignments[chain[0]], seed)
    && (forall k | 0 < k < |chain| :: PassesOn(assignments[chain[k - 1]], assignments[chain[k]]))
    && x in assignments[chain[|chain| - 1]].lhs
  }

  ghost predicate Ordered(assignments: seq<Assignment>, ids: seq<nat>) {
    && (forall k | 0 <= k < |ids| :: ids[k] < |assignments|)
    && forall j, k | 0 <= j < k < |ids| :: Precedes(assignments, ids[j], ids[k])
  }

  ghost predicate FlowsWithin(assignments: seq<Assignment>, seed: TaintSet, ids: seq<nat>, x: string) {
    exists chain :: IsFlow(assignments, seed, chain, x) && forall k | 0 <= k < |chain| :: chain[k] in ids
  }

  // ------------------------------------------------------------------------
  // All assignments of a list
  // ------------------------------------------------------------------------

  /** What one assignment adds: the paths it assigns, if it reads a tainted one. */
  lemma AssignmentMeaning(running: TaintSet, a: Assignment, x: string)
    ensures x in AfterAssignment(running, a) <==> x in running || (x in a.lhs && ReadsAny(a, running))
  {
    forall r | r in a.rhs {
      TaintedMeansComparable(r, running);
    }
  }

  lemma FlowThroughLast(assignments: seq<Assignment>, seed: TaintSet, ids: seq<nat>, x: string, t: string)
    requires ids != [] && Ordered(assignments, ids)
    requires x in assignments[ids[|ids| - 1]].lhs && ReadsFrom(assignments[ids[|ids| - 1]], t)
    requires t in seed || FlowsWithin(assignments, seed, ids[..|ids| - 1], t)
    ensures FlowsWithin(assignments, seed, ids, x)
  {
    hide ReadsFrom;
    var n := |ids| - 1;
    var last := ids[n];
    if t in seed {
      assert IsFlow(assignments, seed, [last], x);
    } else {
      var chain :| IsFlow(assignments, seed, chain, t) && forall k | 0 <= k < |chain| :: chain[k] in ids[..n];
      var longer := chain + [last];
      forall k | 0 <= k < |chain|
        ensures Precedes(assignments, chain[k], last) && chain[k] in ids
      {
        var m :| 0 <= m < n && ids[m] == chain[k];
      }
      assert PassesOn(assignments[chain[|chain| - 1]], assignments[last]);
      assert IsFlow(assignments, seed, longer, x);
    }
  }

  lemma FlowWithMore(assignments: seq<Assignment>, seed: TaintSet, fewer: seq<nat>, more: seq<nat>, x: string)
    requires FlowsWithin(assignments, seed, fewer, x) && forall c | c in fewer :: c in more
    ensures FlowsWithin(assignments, seed, more, x)
  {
    var chain :| IsFlow(assignments, seed, chain, x) && forall k | 0 <= k < |chain| :: chain[k] in fewer;
    assert forall k | 0 <= k < |chain| :: chain[k] in more;
  }

  /** A flow either ends before the last assignment of the list, or in it. */
  lemma FlowEnds(assignments: seq<Assignment>, seed: TaintSet, ids: seq<nat>, x: string)
    requires ids != [] && Ordered(assignments, ids) && FlowsWithin(assignments, seed, ids, x)
    ensures var n := |ids| - 1;
            || FlowsWithin(assignments, seed, ids[..n], x)
            || (x in assignments[ids[n]].lhs
                && exists t :: ReadsFrom(assignments[ids[n]], t)
                               && (t in seed || FlowsWithin(assignments, seed, ids[..n], t)))
  {
    hide ReadsFrom, Precedes, Ordered;
    var n := |ids| - 1;
    var chain :| IsFlow(assignments, seed, chain, x) && forall k | 0 <= k < |chain| :: chain[k] in ids;
    var m := |chain| - 1;
    forall k | 0 <= k < |chain| && (k < m || chain[m] != ids[n])
      ensures chain[k] in ids[..n]
    {
      EarlierInList(assignments, ids, chain[k], chain[m]);
    }
    if chain[m] != ids[n] {
      assert FlowsWithin(assignments, seed, ids[..n], x);
    } else if m == 0 {
      var t :| t in seed && ReadsFrom(assignments[chain[0]], t);
    } else {
      var l := FlowBeforeLast(assignments, seed, chain, x);
      assert FlowsWithin(assignments, seed, ids[..n], l);
    }
  }

  lemma FlowBeforeLast(assignments: seq<Assignment>, seed: TaintSet, chain: seq<nat>, x: string) returns (l: string)
    requires IsFlow(assignments, seed, chain, x) && |chain| > 1
    ensures ReadsFrom(assignments[chain[|chain| - 1]], l) && IsFlow(assignments, seed, chain[..|chain| - 1], l)
  {
    hide ReadsFrom, Precedes;
    var m := |chain| - 1;
    assert PassesOn(assignments[chain[m - 1]], assignments[chain[m]]);
    l :| l in assignments[chain[m - 1]].lhs && ReadsFrom(assignments[chain[m]], l);
  }

  lemma EarlierInList(assignments: seq<Assignment>, ids: seq<nat>, c: nat, last: nat)
    requires ids != [] && Ordered(assignments, ids) && c in ids && last in ids
    requires Precedes(assignments, c, last) || (c == last && c != ids[|ids| - 1])
    ensures c in ids[..|ids| - 1]
  {
    var i :| 0 <= i < |ids| && ids[i] == c;
    var j :| 0 <= j < |ids| && ids[j] == last;
    assert i < |ids| - 1;
    assert ids[..|ids| - 1][i] == c;
  }

  /** After a list of assignments a path is tainted exactly if it was, or a taint flows to it through the list. */
  lemma {:induction false} TaintFlows(assignments: seq<Assignment>, ids: seq<nat>, seed: TaintSet, x: string)
    requires Ordered(assignments, ids)
    ensures x in AfterAll(assignments, ids, seed) <==> x in seed || FlowsWithin(assignments, seed, ids, x)
    decreases |ids|
  {
    if ids == [] {
      NoFlowThroughNothing(assignments, seed, x);
    } else {
      var n := |ids| - 1;
      var a, earlier := assignments[ids[n]], AfterAll(assignments, ids[..n], seed);
      TaintFlows(assignments, ids[..n], seed, x);
      AssignmentMeaning(earlier, a, x);
      hide AfterAssignment, ReadsFrom, IsFlow;
      assert forall c | c in ids[..n] :: c in ids;
      if x in a.lhs && ReadsAny(a, earlier) {
        var t :| t in earlier && ReadsFrom(a, t);
        TaintFlows(assignments, ids[..n], seed, t);
        FlowThroughLast(assignments, seed, ids, x, t);
      }
      if FlowsWithin(assignments, seed, ids[..n], x) {
        FlowWithMore(assignments, seed, ids[..n], ids, x);
      } else if FlowsWithin(assignments, seed, ids, x) {
        FlowEnds(assignments, seed, ids, x);
        var t :| ReadsFrom(a, t) && (t in seed || FlowsWithin(assignments, seed, ids[..n], t));
        TaintFlows(assignments, ids[..n], seed, t);
      }
    }
  }

  lemma NoFlowThroughNothing(assignments: seq<Assignment>, seed: TaintSet, x: string)
    ensures !FlowsWithin(assignments, seed, [], x)
  {
    forall chain: seq<nat> | chain != []
      ensures chain[0] !in [] && exists k :: 0 <= k < |chain| && chain[k] !in []
    {
    }
  }

  // ------------------------------------------------------------------------
  // The assignments of a function that come first
  // ------------------------------------------------------------------------

  /** The members of a list that are in a set, in their order. */
  ghost function Selected(ids: seq<nat>, keep: set<nat>): seq<nat> {
    if ids == [] then []
    else Selected(ids[..|ids| - 1], keep) + if ids[|ids| - 1] in keep then [ids[|ids| - 1]] else []
  }

  lemma {:induction false} SelectedFacts(assignments: seq<Assignment>, ids: seq<nat>, keep: set<nat>)
    requires Ordered(assignments, ids)
    ensures Ordered(assignments, Selected(ids, keep))
    ensures forall c :: c in Selected(ids, keep) <==> c in ids && c in keep
    decreases |ids|
  {
    if ids != [] {
      var n := |ids| - 1;
      var earlier := Selected(ids[..n], keep);
      SelectedFacts(assignments, ids[..n], keep);
      assert ids == ids[..n] + [ids[n]];
      forall k | 0 <= k < |earlier|
        ensures Precedes(assignments, earlier[k], ids[n])
      {
        assert earlier[k] in ids[..n];
        var m :| 0 <= m < n && ids[m] == earlier[k];
      }
    }
  }

  lemma {:induction false} BeforeIsSelected(
    assignments: seq<Assignment>, ids: seq<nat>, seed: TaintSet, byte: nat, keep: set<nat>)
    requires forall k | 0 <= k < |ids| :: ids[k] < |assignments|
    requires forall c | c in ids :: c in keep <==> assignments[c].start < byte
    ensures forall k | 0 <= k < |Selected(ids, keep)| :: Selected(ids, keep)[k] < |assignments|
    ensures AfterThoseBefore(assignments, ids, seed, byte) == AfterAll(assignments, Selected(ids, keep), seed)
    decreases |ids|
  {
    if ids != [] {
      var n := |ids| - 1;
      BeforeIsSelected(assignments, ids[..n], seed, byte, keep);
      var earlier := Selected(ids[..n], keep);
      assert ids[n] in ids;
      assert (earlier + [ids[n]])[..|earlier|] == earlier && earlier + [] == earlier;
      if ids[n] in keep {
        assert Selected(ids, keep)[..|earlier|] == earlier;
      }
    }
  }

  lemma {:induction false} AboveIsSelected(
    assignments: seq<Assignment>, ids: seq<nat>, seed: TaintSet, line: nat, keep: set<nat>)
    requires forall k | 0 <= k < |ids| :: ids[k] < |assignments|
    requires forall c | c in ids :: c in keep <==> assignments[c].line < line
    ensures forall k | 0 <= k < |Selected(ids, keep)| :: Selected(ids, keep)[k] < |assignments|
    ensures AfterThoseAbove(assignments, ids, seed, line) == AfterAll(assignments, Selected(ids, keep), seed)
    decreases |ids|
  {
    if ids != [] {
      var n := |ids| - 1;
      AboveIsSelected(assignments, ids[..n], seed, line, keep);
      var earlier := Selected(ids[..n], keep);
      assert ids[n] in ids;
      assert (earlier + [ids[n]])[..|earlier|] == earlier && earlier + [] == earlier;
      if ids[n] in keep {
        assert Selected(ids, keep)[..|earlier|] == earlier;
      }
    }
  }

  /** The list of a function's assignments holds all and only those, in order. */
  lemma AssignsInOrder(index: SymbolIndex, fn: nat)
    requires ValidIndex(index)
    ensures Ordered(index.assignments, AssignsOf(index, fn))
    ensures forall c: nat :: c in AssignsOf(index, fn) <==>
                             c < |index.assignments| && index.assignments[c].inFn == fn
  {
    var ids := AssignsOf(index, fn);
    var starts, owners := AssignStarts(index.assignments), AssignOwners(index.assignments);
    assert ValidGroup(owners, starts, |owners|, fn, ids);
    forall c: nat
      ensures c in ids <==> c < |index.assignments| && index.assignments[c].inFn == fn
    {
      assert c < |owners| ==> owners[c] == index.assignments[c].inFn;
    }
  }

  /** A taint flows to the path through assignments of the function that are in the set. */
  ghost predicate FlowsIn(index: SymbolIndex, fn: nat, seed: TaintSet, keep: set<nat>, x: string) {
    exists chain ::
      && IsFlow(index.assignments, seed, chain, x)
      && forall k | 0 <= k < |chain| :: chain[k] in keep && index.assignments[chain[k]].inFn == fn
  }

  ghost function StartingBefore(index: SymbolIndex, byte: nat): set<nat> {
    set c: nat | c < |index.assignments| && index.assignments[c].start < byte
  }

  ghost function OnLinesAbove(index: SymbolIndex, line: nat): set<nat> {
    set c: nat | c < |index.assignments| && index.assignments[c].line < line
  }

  lemma FlowsThroughSelected(index: SymbolIndex, fn: nat, seed: TaintSet, keep: set<nat>, x: string)
    requires ValidIndex(index)
    ensures var ids := Selected(AssignsOf(index, fn), keep);
            && Ordered(index.assignments, ids)
            && (FlowsWithin(index.assignments, seed, ids, x) <==> FlowsIn(index, fn, seed, keep, x))
  {
    AssignsInOrder(index, fn);
    SelectedFacts(index.assignments, AssignsOf(index, fn), keep);
    hide ValidIndex, Selected, Ordered;
    var ids := Selected(AssignsOf(index, fn), keep);
    forall chain | IsFlow(index.assignments, seed, chain, x)
      ensures (forall k | 0 <= k < |chain| :: chain[k] in ids)
              <==> forall k | 0 <= k < |chain| :: chain[k] in keep && index.assignments[chain[k]].inFn == fn
    {
    }
  }

  /** When a byte is reached, a path is tainted exactly if it is in the seed or flows from it before. */
  lemma TaintAtMeaning(index: SymbolIndex, fn: nat, seed: TaintSet, byte: nat, x: string)
    requires ValidIndex(index)
    ensures x in TaintAt(index, fn, seed, byte) <==>
            x in seed || FlowsIn(index, fn, seed, StartingBefore(index, byte), x)
  {
    var ids, keep := AssignsOf(index, fn), StartingBefore(index, byte);
    AssignsFacts(index, fn);
    BeforeIsSelected(index.assignments, ids, seed, byte, keep);
    FlowsThroughSelected(index, fn, seed, keep, x);
    TaintFlows(index.assignments, Selected(ids, keep), seed, x);
  }

  /** The same for a line, with the assignments on the lines above it. */
  lemma TaintOnLineMeaning(index: SymbolIndex, fn: nat, seed: TaintSet, line: nat, x: string)
    requires ValidIndex(index)
    ensures x in TaintOnLine(index, fn, seed, line) <==>
            x in seed || FlowsIn(index, fn, seed, OnLinesAbove(index, line), x)
  {
    var ids, keep := AssignsOf(index, fn), OnLinesAbove(index, line);
    AssignsFacts(index, fn);
    AboveIsSelected(index.assignments, ids, seed, line, keep);
    FlowsThroughSelected(index, fn, seed, keep, x);
    TaintFlows(index.assignments, Selected(ids, keep), seed, x);
  }

  // ------------------------------------------------------------------------
  // The steps of the search and its sink
  // ------------------------------------------------------------------------

  /** One of the identifiers is comparable to a path that is in the seed or flows from it through the set. */
  ghost predicate TaintsAny(index: SymbolIndex, p: Point, keep: set<nat>, ids: seq<string>) {
    exists id, t :: id in ids && Comparable(id, t) && (t in p.tainted || FlowsIn(index, p.fn, p.tainted, keep, t))
  }

  lemma AnyTaintedMeaning(ids: seq<string>, running: TaintSet)
    ensures AnyTainted(ids, running) <==> exists id, t :: id in ids && t in running && Comparable(id, t)
  {
    hide PathIsTainted, Split;
    if AnyTainted(ids, running) {
      var id :| id in ids && PathIsTainted(id, running);
      TaintedMeansComparable(id, running);
    }
    if id, t :| id in ids && t in running && Comparable(id, t) {
      TaintedMeansComparable(id, running);
    }
  }

  /** The sink is hit in its function, when one of its identifiers is tainted by the assignments above its line. */
  lemma SinkMeaning(index: SymbolIndex, query: Query, p: Point)
    requires ValidIndex(index)
    ensures HitsSink(index, query, p) <==>
            query.sinkFn == Some(p.fn) && TaintsAny(index, p, OnLinesAbove(index, query.sinkHop.line), query.sinkIdents)
  {
    var running := TaintOnLine(index, p.fn, p.tainted, query.sinkHop.line);
    forall t {
      TaintOnLineMeaning(index, p.fn, p.tainted, query.sinkHop.line, t);
    }
    AnyTaintedMeaning(query.sinkIdents, running);
    hide ValidIndex, Comparable, FlowsIn, AnyTainted;
  }

  /** The `i`-th argument of call site `c` is tainted when control reaches the call from `p`. */
  ghost predicate TaintsArg(index: SymbolIndex, p: Point, c: nat, i: nat) {
    && c < |index.callSites| && index.callSites[c].inFn == p.fn && i < |index.callSites[c].args|
    && TaintsAny(index, p, StartingBefore(index, index.callSites[c].start), index.callSites[c].args[i])
  }

  lemma ArgsMeaning(index: SymbolIndex, p: Point, c: nat)
    requires ValidIndex(index) && c < |index.callSites| && index.callSites[c].inFn == p.fn
    ensures forall i: nat :: i in TaintedArgs(index, p, c) <==> TaintsArg(index, p, c, i)
  {
    var cs := index.callSites[c];
    var running := TaintAt(index, p.fn, p.tainted, cs.start);
    forall t {
      TaintAtMeaning(index, p.fn, p.tainted, cs.start, t);
    }
    forall i: nat | i < |cs.args| {
      AnyTaintedMeaning(cs.args[i], running);
    }
    hide ValidIndex, Comparable, FlowsIn, AnyTainted, TaintAt, StartingBefore;
    forall i: nat
      ensures i in TaintedArgs(index, p, c) <==> TaintsArg(index, p, c, i)
    {
      assert i < |cs.args| ==> (AnyTainted(cs.args[i], running) <==> TaintsArg(index, p, c, i));
    }
  }

  /** Function `f` is one that the name of the call can mean. */
  ghost predicate Answers(index: SymbolIndex, c: nat, f: nat) {
    && c < |index.callSites| && f < |index.fnDefs|
    && index.fnDefs[f].name == index.callSites[c].callee && index.callSites[c].callee != ""
  }

  lemma CandidatesMeaning(index: SymbolIndex, c: nat)
    requires ValidIndex(index) && c < |index.callSites|
    ensures var candidates := Candidates(index, index.callSites[c].callee);
            && (forall f: nat :: f in candidates <==> Answers(index, c, f))
            && (forall i, j | 0 <= i < j < |candidates| :: candidates[i] < candidates[j])
  {
    var callee := index.callSites[c].callee;
    assert NamedBy(index.fnDefs, |index.fnDefs|, callee, Candidates(index, callee));
  }

  /** A call without an answer: something tainted goes in, and no function has its name. */
  lemma UnansweredMeaning(index: SymbolIndex, p: Point, c: nat)
    requires ValidIndex(index)
    ensures Unanswered(index, p, c) <==>
            (exists i: nat :: TaintsArg(index, p, c, i)) && forall f: nat :: !Answers(index, c, f)
  {
    if c < |index.callSites| && index.callSites[c].inFn == p.fn {
      TaintedCallMeaning(index, p, c);
      CandidatesMeaning(index, c);
      hide ValidIndex, TaintsArg, Answers, TaintedArgs;
      var candidates := Candidates(index, index.callSites[c].callee);
      assert candidates != [] ==> candidates[0] in candidates;
    }
  }

  lemma TaintedCallMeaning(index: SymbolIndex, p: Point, c: nat)
    requires ValidIndex(index) && c < |index.callSites| && index.callSites[c].inFn == p.fn
    ensures TaintedCall(index, p, c) <==> exists i: nat :: TaintsArg(index, p, c, i)
  {
    ArgsMeaning(index, p, c);
    hide ValidIndex, TaintsArg;
    var positions := TaintedArgs(index, p, c);
    assert positions != [] ==> positions[0] in positions;
  }

  /** A parameter is tainted if its own argument is, or some argument beyond the end of the list. */
  ghost predicate TaintsParam(index: SymbolIndex, p: Point, c: nat, params: seq<string>, x: string) {
    exists i: nat :: TaintsArg(index, p, c, i) && if i < |params| then x == params[i] else x in params
  }

  ghost predicate TaintsBeyond(index: SymbolIndex, p: Point, c: nat, params: seq<string>) {
    exists i: nat :: TaintsArg(index, p, c, i) && i >= |params|
  }

  lemma BindingMeaning(index: SymbolIndex, p: Point, c: nat, params: seq<string>)
    requires ValidIndex(index) && c < |index.callSites| && index.callSites[c].inFn == p.fn
    ensures forall x :: x in BoundTo(params, TaintedArgs(index, p, c)) <==> TaintsParam(index, p, c, params, x)
    ensures Overflows(params, TaintedArgs(index, p, c)) <==> TaintsBeyond(index, p, c, params)
  {
    ArgsMeaning(index, p, c);
    hide ValidIndex, TaintsArg, TaintedArgs;
    var positions := TaintedArgs(index, p, c);
    assert forall k | 0 <= k < |positions| :: positions[k] in positions;
    forall i: nat | i in positions
      ensures exists k :: 0 <= k < |positions| && positions[k] == i
    {
    }
    forall x
      ensures x in BoundTo(params, positions) <==> TaintsParam(index, p, c, params, x)
    {
      if TaintsParam(index, p, c, params, x) {
        var i: nat :| TaintsArg(index, p, c, i) && if i < |params| then x == params[i] else x in params;
        var k :| 0 <= k < |positions| && positions[k] == i;
        assert BindsAt(params, positions[k], x);
      }
      if x in BoundTo(params, positions) {
        var k :| 0 <= k < |positions| && BindsAt(params, positions[k], x);
        assert TaintsArg(index, p, c, positions[k]);
      }
    }
    if TaintsBeyond(index, p, c, params) {
      var i: nat :| TaintsArg(index, p, c, i) && i >= |params|;
      var k :| 0 <= k < |positions| && positions[k] == i;
    }
    if Overflows(params, positions) {
      var k :| 0 <= k < |positions| && positions[k] >= |params|;
      assert TaintsArg(index, p, c, positions[k]);
    }
  }

  /**
   One step of the search: something tainted goes into a call that the function's name answers, the parameters its
   tainted arguments reach are tainted there, and the hop tells where, and how sure that is.
   */
  lemma StepMeaning(index: SymbolIndex, p: Point, q: Point, c: nat, hop: Hop)
    requires ValidIndex(index)
    ensures CallStep(index, p, q, c, hop) <==>
            && (exists i: nat :: TaintsArg(index, p, c, i)) && Answers(index, c, q.fn)
            && (forall x :: x in q.tainted <==> TaintsParam(index, p, c, index.fnDefs[q.fn].params, x))
            && hop.line == index.callSites[c].line && hop.start == index.callSites[c].start
            && var ambiguous := exists f: nat :: f != q.fn && Answers(index, c, f);
            && hop.kind == (if TaintsBeyond(index, p, c, index.fnDefs[q.fn].params) then ImpreciseBinding
                            else if ambiguous then Ambiguous else Resolved)
            && (forall f: nat :: f in hop.candidates <==> ambiguous && Answers(index, c, f))
            && forall i, j | 0 <= i < j < |hop.candidates| :: hop.candidates[i] < hop.candidates[j]
  {
    if c < |index.callSites| && index.callSites[c].inFn == p.fn {
      TaintedCallMeaning(index, p, c);
      CandidatesMeaning(index, c);
      if Answers(index, c, q.fn) {
        var candidates, params := Candidates(index, index.callSites[c].callee), index.fnDefs[q.fn].params;
        BindingMeaning(index, p, c, params);
        SeveralMeaning(candidates, q.fn);
        if forall i, j | 0 <= i < j < |hop.candidates| :: hop.candidates[i] < hop.candidates[j] {
          SameOrderedList(hop.candidates, if |candidates| > 1 then candidates else []);
        }
        hide ValidIndex, TaintsArg, TaintedArgs, TaintsParam, TaintsBeyond, Overflows, BoundTo;
      }
    }
  }

  lemma SeveralMeaning(list: seq<nat>, x: nat)
    requires x in list && forall i, j | 0 <= i < j < |list| :: list[i] < list[j]
    ensures |list| > 1 <==> exists y :: y != x && y in list
  {
    if |list| > 1 {
      assert list[0] in list && list[1] in list;
    }
  }

  lemma {:induction false} SameOrderedList(a: seq<nat>, b: seq<nat>)
    requires forall i, j | 0 <= i < j < |a| :: a[i] < a[j]
    requires forall i, j | 0 <= i < j < |b| :: b[i] < b[j]
    ensures a == b <==> forall x: nat :: x in a <==> x in b
    decreases |a|
  {
    if forall x: nat :: x in a <==> x in b {
      if a == [] {
        assert b != [] ==> b[0] in b;
      } else {
        var m, n := |a| - 1, |b| - 1;
        assert a[m] in a && a[m] in b;
        LastIsLargest(a);
        LastIsLargest(b);
        assert b[n] in b && a[m] == b[n];
        forall x: nat
          ensures x in a[..m] <==> x in b[..n]
        {
          assert x in a <==> x in b;
        }
        SameOrderedList(a[..m], b[..n]);
        assert a == a[..m] + [a[m]] && b == b[..n] + [b[n]];
      }
    }
  }

  lemma LastIsLargest(list: seq<nat>)
    requires list != [] && forall i, j | 0 <= i < j < |list| :: list[i] < list[j]
    ensures forall x: nat :: x in list[..|list| - 1] <==> x in list && x != list[|list| - 1]
    ensures forall x: nat | x in list :: x <= list[|list| - 1]
  {
    assert list == list[..|list| - 1] + [list[|list| - 1]];
  }
}
