/** The search as the loop that computes it, its results, and what more taint in the seed adds to them. */
module TaintTrace {
  import opened Wrappers
  import opened Taint
  import opened TaintSearch
  import opened TaintCoverage

  // ------------------------------------------------------------------------
  // The search
  // ------------------------------------------------------------------------

  /**
   Sound always: every path is witnessed, ranked and within the limits. A search that no limit cut off reports the
   sink exactly when a chain of at most `maxDepth + 1` hops reaches it, and reports every tainted call that nobody
   answers within `maxDepth` hops, unless a point is reached both at the depth limit and below it.
   */
  method Trace(index: SymbolIndex, query: Query, opts: Options) returns (paths: seq<Path>, truncated: bool)
    requires ValidIndex(index) && LinesFollowBytes(index) && ValidQuery(index, query)
    ensures |paths| <= opts.maxPaths
    ensures PathsOk(index, query, opts, paths)
    ensures Ranked(paths)
    ensures !truncated && |paths| < opts.maxPaths && !Race(index, query, opts) ==>
              && (SinkReported(index, query, paths) <==> SinkWithin(index, query, opts.maxDepth + 1))
              && AllUnansweredReported(index, query, opts, paths)
    ensures var found := Run(index, query, opts, InitialWorklist(query));
            truncated == found.truncated && BestOf(found.final.paths, opts.maxPaths, paths)
  {
    hide SinkReported, SinkWithin, Race, PathsOk, AllUnansweredReported;
    paths, truncated := Search(index, query, opts);
    ghost var unsorted := paths;
    SearchMeaning(index, query, opts);
    paths := SortPaths(paths);
    SameMembers(index, query, opts, unsorted, paths);
    ghost var sorted := paths;
    if |paths| > opts.maxPaths {
      FirstPathsOk(index, query, opts, paths);
      paths := paths[..opts.maxPaths];
    }
    BestAreFirst(unsorted, opts.maxPaths, sorted, paths);
  }

  /** As many of the paths as the limit allows, those that rank first. */
  ghost predicate BestOf(found: seq<Path>, limit: nat, paths: seq<Path>) {
    exists others: seq<Path> ::
      && multiset(found) == multiset(paths) + multiset(others) && Ranked(paths + others)
      && |paths| == if |found| <= limit then |found| else limit
  }

  lemma BestAreFirst(found: seq<Path>, limit: nat, sorted: seq<Path>, paths: seq<Path>)
    requires multiset(found) == multiset(sorted) && |found| == |sorted| && Ranked(sorted)
    requires paths == if |sorted| > limit then sorted[..limit] else sorted
    ensures BestOf(found, limit, paths)
  {
    hide Ranked;
    var others := sorted[|paths|..];
    assert paths + others == sorted;
    assert multiset(paths) + multiset(others) == multiset(paths + others);
  }

  /** What the search as a function finds. */
  lemma SearchMeaning(index: SymbolIndex, query: Query, opts: Options)
    requires ValidIndex(index) && ValidQuery(index, query)
    ensures var found := Run(index, query, opts, InitialWorklist(query));
            && PathsOk(index, query, opts, found.final.paths)
            && (!found.truncated && |found.final.paths| < opts.maxPaths && !Race(index, query, opts) ==>
                  && (SinkReported(index, query, found.final.paths) <==> SinkWithin(index, query, opts.maxDepth + 1))
                  && AllUnansweredReported(index, query, opts, found.final.paths))
  {
    hide SinkReported, SinkWithin, Race, PathsOk, FramesOk, Covers, Annotated, AllUnansweredReported;
    var found := Run(index, query, opts, InitialWorklist(query));
    InitialInv(index, query, opts);
    RunKeeps(index, query, opts, InitialWorklist(query));
    if found.final.queue == [] && !Race(index, query, opts) {
      NoRaceGivesUpLate(index, query, opts, found.final);
      ExhaustedSearchIsComplete(index, query, opts, found.final);
      ExhaustedSearchReportsUnanswered(index, query, opts, found.final);
    }
  }

  lemma FirstPathsOk(index: SymbolIndex, query: Query, opts: Options, paths: seq<Path>)
    requires ValidIndex(index) && |paths| > opts.maxPaths && PathsOk(index, query, opts, paths) && Ranked(paths)
    ensures PathsOk(index, query, opts, paths[..opts.maxPaths]) && Ranked(paths[..opts.maxPaths])
  {
    assert forall path | path in paths[..opts.maxPaths] :: path in paths;
  }

  lemma SameMembers(index: SymbolIndex, query: Query, opts: Options, unsorted: seq<Path>, paths: seq<Path>)
    requires ValidIndex(index) && multiset(unsorted) == multiset(paths)
    ensures PathsOk(index, query, opts, unsorted) ==> PathsOk(index, query, opts, paths)
    ensures SinkReported(index, query, unsorted) <==> SinkReported(index, query, paths)
    ensures AllUnansweredReported(index, query, opts, unsorted) ==> AllUnansweredReported(index, query, opts, paths)
    ensures |unsorted| == |paths|
  {
    assert |unsorted| == |multiset(unsorted)| && |paths| == |multiset(paths)|;
    assert forall path :: path in unsorted <==> path in multiset(unsorted);
    assert forall path :: path in paths <==> path in multiset(paths);
    hide PathsOk, SinkReported, ValidIndex;
    if AllUnansweredReported(index, query, opts, unsorted) {
      hide PlainWithin;
      forall p | PlainWithin(index, query, p, opts.maxDepth)
        ensures UnansweredReported(index, p, paths)
      {
        SameReported(index, p, unsorted, paths);
      }
    }
  }

  lemma SameReported(index: SymbolIndex, p: Point, unsorted: seq<Path>, paths: seq<Path>)
    requires ValidIndex(index) && UnansweredReported(index, p, unsorted)
    requires forall path | path in unsorted :: path in paths
    ensures UnansweredReported(index, p, paths)
  {
    hide ValidIndex, Unanswered, StopsAt;
    forall c: nat | Unanswered(index, p, c)
      ensures StopsAt(index, paths, c)
    {
      StopsAtWithMore(index, unsorted, paths, c);
    }
  }

  /** The worklist. */
  method Search(index: SymbolIndex, query: Query, opts: Options) returns (paths: seq<Path>, truncated: bool)
    requires ValidIndex(index) && LinesFollowBytes(index) && ValidQuery(index, query)
    ensures var found := Run(index, query, opts, InitialWorklist(query));
            paths == found.final.paths && truncated == found.truncated
  {
    hide ValidIndex, LinesFollowBytes, HitsSink, CallsYield, Run;
    paths, truncated := [], false;
    var visited: set<Point> := {};
    var frontierCount := 0;
    var queue := [Frame(query.startFn, query.initial, [query.source])];
    ghost var w := InitialWorklist(query);
    while queue != []
      invariant w.queue == queue && w.visited == visited && w.count == frontierCount && w.paths == paths
      invariant frontierCount <= opts.maxFrontier
      invariant Run(index, query, opts, w) == Run(index, query, opts, InitialWorklist(query))
      decreases opts.maxFrontier - frontierCount, |queue|
    {
      ghost var turn := Turn(index, query, opts, w);
      NextTurn(index, query, opts, w);
      var frame := queue[|queue| - 1];
      queue := queue[..|queue| - 1];
      if |paths| >= opts.maxPaths {
        return;
      }
      if PointOf(frame) in visited {
        w := turn.next;
        continue;
      }
      visited := visited + {PointOf(frame)};
      var atSink := CheckSink(index, query, frame);
      if atSink {
        paths := paths + [frame.hops + [query.sinkHop]];
        w := turn.next;
        continue;
      }
      if |frame.hops| > opts.maxDepth {
        w := turn.next;
        continue;
      }
      var pushed, found, full := ExpandFrame(index, opts, frame, opts.maxFrontier - frontierCount);
      paths := paths + found;
      if full {
        truncated := true;
        return;
      }
      frontierCount := frontierCount + |pushed|;
      queue := queue + pushed;
      w := turn.next;
    }
    NothingLeft(index, query, opts, w);
  }

  lemma NothingLeft(index: SymbolIndex, query: Query, opts: Options, w: Worklist)
    requires ValidIndex(index) && w.count <= opts.maxFrontier && w.queue == []
    ensures Run(index, query, opts, w) == Outcome(w, false)
  {
  }

  lemma NextTurn(index: SymbolIndex, query: Query, opts: Options, w: Worklist)
    requires ValidIndex(index) && w.count <= opts.maxFrontier && w.queue != []
    ensures var turn := Turn(index, query, opts, w);
            Run(index, query, opts, w) == if turn.Continue? then Run(index, query, opts, turn.next)
                                          else Outcome(turn.final, turn.truncated)
  {
    hide Turn;
  }

  /** In the sink's function the assignments above the sink's line decide whether a sink identifier is tainted. */
  method CheckSink(index: SymbolIndex, query: Query, frame: Frame) returns (atSink: bool)
    requires ValidIndex(index) && LinesFollowBytes(index)
    ensures atSink <==> HitsSink(index, query, PointOf(frame))
  {
    atSink := false;
    if query.sinkFn == Some(frame.fn) {
      var running := PropagateUntil(index, frame.fn, frame.tainted, query.sinkHop.line);
      atSink := AnyTainted(query.sinkIdents, running);
    }
  }

  /** Walks the call sites of a frame in byte order; `room` is how many more frames the search admits. */
  method ExpandFrame(index: SymbolIndex, opts: Options, frame: Frame, room: nat)
    returns (pushed: seq<Frame>, found: seq<Path>, full: bool)
    requires ValidIndex(index)
    ensures Yield(pushed, found, full) == CallsYield(index, opts, frame, 0, room)
  {
    hide ValidIndex, CallYield, CallsYield, Behind, TaintAt, Applied;
    pushed, found, full := [], [], false;
    var calls := CallsOf(index, frame.fn);
    var running := frame.tainted;
    var next: nat := 0;
    ghost var passed := 0;
    NothingApplied(index, frame);
    ghost var all := CallsYield(index, opts, frame, 0, room);
    NothingBefore(all);
    for k := 0 to |calls|
      invariant |pushed| <= room
      invariant all == Behind(pushed, found, CallsYield(index, opts, frame, k, room - |pushed|))
      invariant Applied(index, frame, running, next, passed)
      invariant passed == if k == 0 then 0 else StartOfCall(index, frame, k - 1)
    {
      CallsInOrder(index, frame, k);
      NextCall(index, opts, frame, k, pushed, found, room - |pushed|);
      var cs := index.callSites[calls[k]];
      running, next := AdvanceToCall(index, frame, running, next, passed, cs.start);
      passed := cs.start;
      var frames, paths, overflow := VisitCall(index, opts, frame, calls[k], running, room - |pushed|);
      pushed, found := pushed + frames, found + paths;
      if overflow {
        full := true;
        return;
      }
    }
    NoMoreCalls(index, opts, frame, room - |pushed|);
    NothingBehind(pushed, found);
  }

  ghost function StartOfCall(index: SymbolIndex, frame: Frame, k: nat): nat
    requires ValidIndex(index) && k < |CallsOf(index, frame.fn)|
  {
    CallsFacts(index, frame.fn);
    index.callSites[CallsOf(index, frame.fn)[k]].start
  }

  lemma CallsInOrder(index: SymbolIndex, frame: Frame, k: nat)
    requires ValidIndex(index) && k < |CallsOf(index, frame.fn)|
    ensures CallsOf(index, frame.fn)[k] < |index.callSites|
    ensures k > 0 ==> StartOfCall(index, frame, k - 1) <= StartOfCall(index, frame, k)
  {
    CallsFacts(index, frame.fn);
  }

  /** The first `next` assignments of the frame's function have been applied, and all of them start before `passed`. */
  ghost predicate Applied(index: SymbolIndex, frame: Frame, running: TaintSet, next: nat, passed: nat)
    requires ValidIndex(index)
  {
    AssignsFacts(index, frame.fn);
    var assigns := AssignsOf(index, frame.fn);
    && next <= |assigns| && running == AfterAll(index.assignments, assigns[..next], frame.tainted)
    && forall j | 0 <= j < next :: index.assignments[assigns[j]].start < passed
  }

  lemma NothingApplied(index: SymbolIndex, frame: Frame)
    requires ValidIndex(index)
    ensures Applied(index, frame, frame.tainted, 0, 0)
  {
    AssignsFacts(index, frame.fn);
    assert AssignsOf(index, frame.fn)[..0] == [];
  }

  method AdvanceToCall(index: SymbolIndex, frame: Frame, before: TaintSet, from: nat, ghost passed: nat, byte: nat)
    returns (running: TaintSet, next: nat)
    requires ValidIndex(index) && Applied(index, frame, before, from, passed) && passed <= byte
    ensures Applied(index, frame, running, next, byte)
    ensures running == TaintAt(index, frame.fn, frame.tainted, byte)
  {
    AssignsFacts(index, frame.fn);
    running, next := AdvanceTo(index.assignments, AssignsOf(index, frame.fn), frame.tainted, byte, before, from);
  }

  lemma NothingBefore(y: Yield)
    ensures Behind([], [], y) == y
  {
  }

  lemma NothingBehind(frames: seq<Frame>, paths: seq<Path>)
    ensures Behind(frames, paths, Yield([], [], false)) == Yield(frames, paths, false)
  {
  }

  lemma NoMoreCalls(index: SymbolIndex, opts: Options, frame: Frame, room: nat)
    requires ValidIndex(index)
    ensures CallsYield(index, opts, frame, |CallsOf(index, frame.fn)|, room) == Yield([], [], false)
  {
    hide ValidIndex;
  }

  lemma NextCall(
    index: SymbolIndex, opts: Options, frame: Frame, k: nat, pushed: seq<Frame>, found: seq<Path>, room: nat)
    requires ValidIndex(index) && k < |CallsOf(index, frame.fn)|
    requires CallsOf(index, frame.fn)[k] < |index.callSites|
    ensures var y := CallYield(index, opts, frame, CallsOf(index, frame.fn)[k], room);
            Behind(pushed, found, CallsYield(index, opts, frame, k, room))
            == if y.full then Yield(pushed + y.frames, found + y.paths, true)
               else Behind(pushed + y.frames, found + y.paths,
                           CallsYield(index, opts, frame, k + 1, room - |y.frames|))
  {
    hide ValidIndex, CallYield;
    var y := CallYield(index, opts, frame, CallsOf(index, frame.fn)[k], room);
    if !y.full {
      var rest := CallsYield(index, opts, frame, k + 1, room - |y.frames|);
      assert CallsYield(index, opts, frame, k, room) == Behind(y.frames, y.paths, rest);
      assert pushed + (y.frames + rest.frames) == pushed + y.frames + rest.frames;
      assert found + (y.paths + rest.paths) == found + y.paths + rest.paths;
    }
  }

  /** One call site: nothing tainted goes in, or nobody is known under its name, or every candidate is entered. */
  method VisitCall(index: SymbolIndex, opts: Options, frame: Frame, c: nat, running: TaintSet, room: nat)
    returns (pushed: seq<Frame>, found: seq<Path>, full: bool)
    requires ValidIndex(index) && c < |index.callSites|
    requires running == TaintAt(index, frame.fn, frame.tainted, index.callSites[c].start)
    ensures Yield(pushed, found, full) == CallYield(index, opts, frame, c, room)
  {
    pushed, found, full := [], [], false;
    var cs := index.callSites[c];
    var positions := TaintedArgPositions(cs.args, running);
    if positions != [] {
      if Candidates(index, cs.callee) == [] {
        found := [frame.hops + [UnresolvedHop(cs)]];
      } else {
        pushed, full := EnterCandidates(index, opts, frame, c, positions, room);
      }
    }
  }

  /** One new frame for every function of the callee's name, unless the path gets too long or there is no room. */
  method EnterCandidates(index: SymbolIndex, opts: Options, frame: Frame, c: nat, positions: seq<nat>, room: nat)
    returns (pushed: seq<Frame>, full: bool)
    requires ValidIndex(index) && c < |index.callSites| && positions == TaintedArgs(index, PointOf(frame), c)
    ensures Yield(pushed, [], full) == CandidateYield(index, opts, frame, c, 0, room)
  {
    hide ValidIndex, CandidateYield, TaintedArgs, Behind, Entry, BoundTo, Overflows, Binds;
    pushed, full := [], false;
    var cs := index.callSites[c];
    var candidates := Candidates(index, cs.callee);
    ghost var all := CandidateYield(index, opts, frame, c, 0, room);
    NothingBefore(all);
    for i := 0 to |candidates|
      invariant |pushed| <= room
      invariant all == Behind(pushed, [], CandidateYield(index, opts, frame, c, i, room - |pushed|))
    {
      var fn := candidates[i];
      NextCandidate(index, opts, frame, c, i, pushed, room - |pushed|);
      var bound, imprecise := BindArgs(index.fnDefs[fn].params, positions);
      var hops := frame.hops + [CallHop(cs, candidates, imprecise)];
      EntryMeaning(index, frame, c, fn);
      if |hops| > opts.maxDepth + 1 {
        continue;
      }
      if |pushed| + 1 > room {
        full := true;
        return;
      }
      pushed := pushed + [Frame(fn, bound, hops)];
    }
    NoMoreCandidates(index, opts, frame, c, room - |pushed|);
    NothingBehind(pushed, []);
  }

  lemma EntryMeaning(index: SymbolIndex, frame: Frame, c: nat, fn: nat)
    requires ValidIndex(index) && c < |index.callSites| && fn < |index.fnDefs|
    ensures var cs, positions := index.callSites[c], TaintedArgs(index, PointOf(frame), c);
            var imprecise := Overflows(index.fnDefs[fn].params, positions);
            Entry(index, frame, c, fn)
            == Frame(fn, BoundTo(index.fnDefs[fn].params, positions),
                     frame.hops + [CallHop(cs, Candidates(index, cs.callee), imprecise)])
  {
    hide ValidIndex, TaintedArgs;
  }

  lemma NoMoreCandidates(index: SymbolIndex, opts: Options, frame: Frame, c: nat, room: nat)
    requires ValidIndex(index) && c < |index.callSites|
    ensures CandidateYield(index, opts, frame, c, |Candidates(index, index.callSites[c].callee)|, room)
         == Yield([], [], false)
  {
    hide ValidIndex;
  }

  /** What the candidates from the `i`-th on yield behind the frames so far, by what becomes of the `i`-th. */
  lemma NextCandidate(index: SymbolIndex, opts: Options, frame: Frame, c: nat, i: nat, pushed: seq<Frame>, room: nat)
    requires ValidIndex(index) && c < |index.callSites|
    requires i < |Candidates(index, index.callSites[c].callee)|
    ensures Candidates(index, index.callSites[c].callee)[i] < |index.fnDefs|
    ensures var next := Entry(index, frame, c, Candidates(index, index.callSites[c].callee)[i]);
            Behind(pushed, [], CandidateYield(index, opts, frame, c, i, room))
            == if |next.hops| > opts.maxDepth + 1
               then Behind(pushed, [], CandidateYield(index, opts, frame, c, i + 1, room))
               else if room == 0 then Yield(pushed, [], true)
               else Behind(pushed + [next], [], CandidateYield(index, opts, frame, c, i + 1, room - 1))
  {
    hide ValidIndex, Entry;
    CandidatesAreIndexed(index, index.callSites[c].callee);
    var next := Entry(index, frame, c, Candidates(index, index.callSites[c].callee)[i]);
    if |next.hops| <= opts.maxDepth + 1 && room > 0 {
      var y := CandidateYield(index, opts, frame, c, i + 1, room - 1);
      assert CandidateYield(index, opts, frame, c, i, room) == Behind([next], [], y);
      assert pushed + ([next] + y.frames) == pushed + [next] + y.frames;
    }
  }

  /** Applies the assignments that start before a byte and have not been applied yet. */
  method AdvanceTo(assignments: seq<Assignment>, ids: seq<nat>, ghost seed: TaintSet, byte: nat,
                   before: TaintSet, from: nat)
    returns (running: TaintSet, next: nat)
    requires forall k | 0 <= k < |ids| :: ids[k] < |assignments|
    requires forall i, j | 0 <= i < j < |ids| :: assignments[ids[i]].start <= assignments[ids[j]].start
    requires from <= |ids| && before == AfterAll(assignments, ids[..from], seed)
    requires forall j | 0 <= j < from :: assignments[ids[j]].start < byte
    ensures next <= |ids| && running == AfterAll(assignments, ids[..next], seed)
    ensures running == AfterThoseBefore(assignments, ids, seed, byte)
    ensures forall j | 0 <= j < next :: assignments[ids[j]].start < byte
  {
    running, next := before, from;
    while next < |ids| && assignments[ids[next]].start < byte
      invariant next <= |ids|
      invariant running == AfterAll(assignments, ids[..next], seed)
      invariant forall j | 0 <= j < next :: assignments[ids[j]].start < byte
    {
      assert ids[..next + 1][..next] == ids[..next];
      running := AfterAssignment(running, assignments[ids[next]]);
      next := next + 1;
    }
    SplitAtByte(assignments, ids, seed, next, byte);
  }

  // ------------------------------------------------------------------------
  // A larger seed reaches at least as much
  // ------------------------------------------------------------------------

  lemma TaintMonotone(index: SymbolIndex, fn: nat, s: TaintSet, t: TaintSet, byte: nat, line: nat)
    requires ValidIndex(index) && s <= t
    ensures TaintAt(index, fn, s, byte) <= TaintAt(index, fn, t, byte)
    ensures TaintOnLine(index, fn, s, line) <= TaintOnLine(index, fn, t, line)
  {
    AssignsFacts(index, fn);
    PropagationMonotone(index.assignments, AssignsOf(index, fn), s, t, byte, line);
  }

  lemma AnyTaintedMonotone(ids: seq<string>, s: TaintSet, t: TaintSet)
    requires s <= t && AnyTainted(ids, s)
    ensures AnyTainted(ids, t)
  {
    var id :| id in ids && PathIsTainted(id, s);
    assert PathIsTainted(id, t);
  }

  /** Whatever argument is tainted from a point is tainted from one with more taint. */
  lemma TaintedArgsMonotone(index: SymbolIndex, p: Point, p': Point, c: nat)
    requires ValidIndex(index) && p.fn == p'.fn && p.tainted <= p'.tainted && c < |index.callSites|
    ensures forall i | 0 <= i < |TaintedArgs(index, p, c)| :: TaintedArgs(index, p, c)[i] in TaintedArgs(index, p', c)
  {
    var cs := index.callSites[c];
    TaintMonotone(index, p.fn, p.tainted, p'.tainted, cs.start, 0);
    var positions := TaintedArgs(index, p, c);
    forall i | 0 <= i < |positions|
      ensures positions[i] in TaintedArgs(index, p', c)
    {
      AnyTaintedMonotone(cs.args[positions[i]], TaintAt(index, p.fn, p.tainted, cs.start),
                         TaintAt(index, p.fn, p'.tainted, cs.start));
    }
  }

  lemma BindingMonotone(params: seq<string>, positions: seq<nat>, more: seq<nat>)
    requires forall i | 0 <= i < |positions| :: positions[i] in more
    ensures BoundTo(params, positions) <= BoundTo(params, more)
  {
    forall x | x in BoundTo(params, positions)
      ensures x in BoundTo(params, more)
    {
      var i :| 0 <= i < |positions| && BindsAt(params, positions[i], x);
      var j :| 0 <= j < |more| && more[j] == positions[i];
    }
  }

  lemma StepMonotone(index: SymbolIndex, p: Point, q: Point, hop: Hop, larger: TaintSet) returns (q': Point, hop': Hop)
    requires ValidIndex(index) && StepExists(index, p, q, hop) && p.tainted <= larger
    ensures StepExists(index, Point(p.fn, larger), q', hop')
    ensures q'.fn == q.fn && q.tainted <= q'.tainted
  {
    hide ValidIndex, TaintedArgs, BoundTo, Overflows;
    var c: nat :| CallStep(index, p, q, c, hop);
    var cs, p' := index.callSites[c], Point(p.fn, larger);
    TaintedArgsMonotone(index, p, p', c);
    assert TaintedArgs(index, p, c)[0] in TaintedArgs(index, p', c);
    var params, positions' := index.fnDefs[q.fn].params, TaintedArgs(index, p', c);
    BindingMonotone(params, TaintedArgs(index, p, c), positions');
    q' := Point(q.fn, BoundTo(params, positions'));
    hop' := CallHop(cs, Candidates(index, cs.callee), Overflows(params, positions'));
    assert CallStep(index, p', q', c, hop');
  }

  lemma ReachesExtends(index: SymbolIndex, query: Query, hops: Path, p: Point, q: Point, hop: Hop)
    requires ValidIndex(index)
    requires Reaches(index, query, hops, p) && StepExists(index, p, q, hop)
    ensures Reaches(index, query, hops + [hop], q)
  {
    hide ValidIndex, StepExists;
    var points :| Chain(index, query, points, hops) && points[|points| - 1] == p;
    var longer := points + [q];
    assert Chain(index, query, longer, hops + [hop]);
    assert longer[|longer| - 1] == q;
  }

  /** Whatever a chain reaches from a seed, a chain of the same length reaches from a larger seed. */
  lemma {:induction false} ReachMonotone(
    index: SymbolIndex, query: Query, larger: TaintSet, points: seq<Point>, hops: Path) returns (hops': Path, p': Point)
    requires ValidIndex(index) && query.initial <= larger
    requires Chain(index, query, points, hops)
    ensures Reaches(index, query.(initial := larger), hops', p') && |hops'| == |hops|
    ensures p'.fn == points[|points| - 1].fn && points[|points| - 1].tainted <= p'.tainted
    decreases |points|
  {
    hide ValidIndex, StepExists;
    var query' := query.(initial := larger);
    var n := |points| - 1;
    if n == 0 {
      hops', p' := [query.source], Point(query.startFn, larger);
      assert Chain(index, query', [p'], hops');
    } else {
      var shorter, last := ReachMonotone(index, query, larger, points[..n], hops[..n]);
      var q, hop := StepMonotone(index, points[n - 1], points[n], hops[n], last.tainted);
      ReachesExtends(index, query', shorter, last, q, hop);
      hops', p' := shorter + [hop], q;
    }
  }

  /** A sink that is reached from a seed is reached, in as many hops, from every larger seed. */
  lemma SinkReachMonotone(index: SymbolIndex, query: Query, larger: TaintSet, path: Path) returns (path': Path)
    requires ValidIndex(index) && query.initial <= larger && SinkPath(index, query, path)
    ensures SinkPath(index, query.(initial := larger), path') && |path'| == |path|
  {
    var query' := query.(initial := larger);
    var hops := path[..|path| - 1];
    var p :| Reaches(index, query, hops, p) && HitsSink(index, query, p);
    var points :| Chain(index, query, points, hops) && points[|points| - 1] == p;
    var hops', p' := ReachMonotone(index, query, larger, points, hops);
    TaintMonotone(index, p.fn, p.tainted, p'.tainted, 0, query.sinkHop.line);
    AnyTaintedMonotone(query.sinkIdents, TaintOnLine(index, p.fn, p.tainted, query.sinkHop.line),
                       TaintOnLine(index, p.fn, p'.tainted, query.sinkHop.line));
    path' := hops' + [query.sinkHop];
    assert path'[..|path'| - 1] == hops';
    assert HitsSink(index, query', p');
  }

  // ------------------------------------------------------------------------
  // Ranking
  // ------------------------------------------------------------------------

  function CountKind(path: Path, kind: HopKind): nat {
    if path == [] then 0
    else CountKind(path[..|path| - 1], kind) + if path[|path| - 1].kind == kind then 1 else 0
  }

  function PathDepth(path: Path): nat {
    if path == [] then 0 else |path| - 1
  }

  /** Fewer unresolved hops first, then shorter, then fewer imprecise bindings. */
  predicate RanksBefore(a: Path, b: Path) {
    var ua, ub := CountKind(a, UnresolvedCallee), CountKind(b, UnresolvedCallee);
    var ia, ib := CountKind(a, ImpreciseBinding), CountKind(b, ImpreciseBinding);
    ua < ub || (ua == ub && (PathDepth(a) < PathDepth(b) || (PathDepth(a) == PathDepth(b) && ia <= ib)))
  }

  lemma {:induction false} CountKindMeaning(path: Path, kind: HopKind)
    ensures CountKind(path, kind) == |set i: nat | i < |path| && path[i].kind == kind|
    decreases |path|
  {
    if path != [] {
      CountKindMeaning(path[..|path| - 1], kind);
      LastHopCounts(path, kind);
    }
  }

  lemma LastHopCounts(path: Path, kind: HopKind)
    requires path != []
    ensures var n := |path| - 1;
            |set i: nat | i < |path| && path[i].kind == kind|
            == |set i: nat | i < n && path[..n][i].kind == kind| + if path[n].kind == kind then 1 else 0
  {
    var n := |path| - 1;
    var before := set i: nat | i < n && path[..n][i].kind == kind;
    var all := set i: nat | i < |path| && path[i].kind == kind;
    if path[n].kind == kind {
      assert all == before + {n};
    } else {
      assert all == before;
    }
  }

  /** The order of the paths, with the hops that count for it. */
  lemma RankingMeaning(a: Path, b: Path)
    requires a != [] && b != []
    ensures var unresolvedA := |set i: nat | i < |a| && a[i].kind == UnresolvedCallee|;
            var unresolvedB := |set i: nat | i < |b| && b[i].kind == UnresolvedCallee|;
            var impreciseA := |set i: nat | i < |a| && a[i].kind == ImpreciseBinding|;
            var impreciseB := |set i: nat | i < |b| && b[i].kind == ImpreciseBinding|;
            RanksBefore(a, b) <==> if unresolvedA != unresolvedB then unresolvedA < unresolvedB
                                   else if |a| != |b| then |a| < |b|
                                   else impreciseA <= impreciseB
  {
    CountKindMeaning(a, UnresolvedCallee);
    CountKindMeaning(b, UnresolvedCallee);
    CountKindMeaning(a, ImpreciseBinding);
    CountKindMeaning(b, ImpreciseBinding);
  }

  lemma RankingIsTransitive(a: Path, b: Path, c: Path)
    requires RanksBefore(a, b) && RanksBefore(b, c)
    ensures RanksBefore(a, c)
  {
  }

  lemma RankingIsTotal(a: Path, b: Path)
    ensures RanksBefore(a, b) || RanksBefore(b, a)
  {
  }

  ghost predicate Ranked(paths: seq<Path>) {
    forall i, j | 0 <= i < j < |paths| :: RanksBefore(paths[i], paths[j])
  }

  lemma NothingIsRanked()
    ensures Ranked([])
  {
  }

  method SortPaths(paths: seq<Path>) returns (sorted: seq<Path>)
    ensures Ranked(sorted)
    ensures multiset(sorted) == multiset(paths)
  {
    hide RanksBefore, Ranked;
    sorted := [];
    NothingIsRanked();
    for i := 0 to |paths|
      invariant Ranked(sorted)
      invariant multiset(sorted) == multiset(paths[..i])
    {
      var k := |sorted|;
      while k > 0 && !RanksBefore(sorted[k - 1], paths[i])
        invariant 0 <= k <= |sorted|
        invariant forall j | k <= j < |sorted| :: RanksBefore(paths[i], sorted[j])
      {
        RankingIsTotal(sorted[k - 1], paths[i]);
        k := k - 1;
      }
      assert paths[..i + 1] == paths[..i] + [paths[i]];
      RankedInsert(sorted, k, paths[i]);
      sorted := sorted[..k] + [paths[i]] + sorted[k..];
    }
    assert paths[..|paths|] == paths;
  }

  lemma RankedInsert(sorted: seq<Path>, k: nat, path: Path)
    requires Ranked(sorted) && k <= |sorted|
    requires forall j | k <= j < |sorted| :: RanksBefore(path, sorted[j])
    requires k > 0 ==> RanksBefore(sorted[k - 1], path)
    ensures Ranked(sorted[..k] + [path] + sorted[k..])
    ensures multiset(sorted[..k] + [path] + sorted[k..]) == multiset(sorted) + multiset([path])
  {
    hide RanksBefore;
    assert sorted == sorted[..k] + sorted[k..];
    var r := sorted[..k] + [path] + sorted[k..];
    forall i, j | 0 <= i < j < |r|
      ensures RanksBefore(r[i], r[j])
    {
      if i < k && j == k && i < k - 1 {
        RankingIsTransitive(sorted[i], sorted[k - 1], path);
      }
    }
  }
}
