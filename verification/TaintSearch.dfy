/** The worklist search as a function of its stack, and what the paths it reports mean. */
module TaintSearch {
  import opened Wrappers
  import opened Taint

  datatype HopKind = Source | Resolved | ImpreciseBinding | Ambiguous | UnresolvedCallee | Sink

  datatype Hop = Hop(line: nat, start: nat, kind: HopKind, candidates: seq<nat>)

  type Path = seq<Hop>

  /** A function and what is tainted on entry to it. */
  datatype Point = Point(fn: nat, tainted: TaintSet)

  datatype Frame = Frame(fn: nat, tainted: TaintSet, hops: Path)

  datatype Options = Options(maxDepth: nat, maxPaths: nat, maxFrontier: nat)

  /** Where the taint starts, and the statement it is to reach. */
  datatype Query = Query(
    startFn: nat, initial: TaintSet, source: Hop,
    sinkFn: Option<nat>, sinkIdents: seq<string>, sinkHop: Hop)

  ghost predicate ValidQuery(index: SymbolIndex, query: Query) {
    query.startFn < |index.fnDefs| && query.source.kind.Source? && query.sinkHop.kind.Sink?
  }

  function PointOf(frame: Frame): Point {
    Point(frame.fn, frame.tainted)
  }

  // ------------------------------------------------------------------------
  // What a path means
  // ------------------------------------------------------------------------

  /** The arguments of call site `c` that are tainted when control reaches it from `p`. */
  ghost function TaintedArgs(index: SymbolIndex, p: Point, c: nat): seq<nat>
    requires ValidIndex(index) && c < |index.callSites|
  {
    TaintedArgPositions(index.callSites[c].args, TaintAt(index, p.fn, p.tainted, index.callSites[c].start))
  }

  ghost predicate TaintedCall(index: SymbolIndex, p: Point, c: nat)
    requires ValidIndex(index)
  {
    c < |index.callSites| && index.callSites[c].inFn == p.fn && TaintedArgs(index, p, c) != []
  }

  function CallHop(cs: CallSite, candidates: seq<nat>, imprecise: bool): Hop {
    Hop(cs.line, cs.start,
        if imprecise then ImpreciseBinding else if |candidates| > 1 then Ambiguous else Resolved,
        if |candidates| > 1 then candidates else [])
  }

  function UnresolvedHop(cs: CallSite): Hop {
    Hop(cs.line, cs.start, UnresolvedCallee, [])
  }

  /** One step: a tainted call, resolved by name, whose tainted arguments are bound to parameters. */
  ghost predicate CallStep(index: SymbolIndex, p: Point, q: Point, c: nat, hop: Hop)
    requires ValidIndex(index)
  {
    && TaintedCall(index, p, c)
    && var cs, positions := index.callSites[c], TaintedArgs(index, p, c);
    && var candidates := Candidates(index, cs.callee);
    && q.fn in candidates && q.fn < |index.fnDefs|
    && q.tainted == BoundTo(index.fnDefs[q.fn].params, positions)
    && hop == CallHop(cs, candidates, Overflows(index.fnDefs[q.fn].params, positions))
  }

  ghost predicate StepExists(index: SymbolIndex, p: Point, q: Point, hop: Hop)
    requires ValidIndex(index)
  {
    exists c: nat :: CallStep(index, p, q, c, hop)
  }

  ghost predicate Chain(index: SymbolIndex, query: Query, points: seq<Point>, hops: Path)
    requires ValidIndex(index)
  {
    && |points| == |hops| > 0
    && points[0] == Point(query.startFn, query.initial)
    && hops[0] == query.source
    && forall k | 0 < k < |points| :: StepExists(index, points[k - 1], points[k], hops[k])
  }

  ghost predicate Reaches(index: SymbolIndex, query: Query, hops: Path, p: Point)
    requires ValidIndex(index)
  {
    exists points :: Chain(index, query, points, hops) && points[|points| - 1] == p
  }

  ghost predicate HitsSink(index: SymbolIndex, query: Query, p: Point)
    requires ValidIndex(index)
  {
    && query.sinkFn == Some(p.fn)
    && AnyTainted(query.sinkIdents, TaintOnLine(index, p.fn, p.tainted, query.sinkHop.line))
  }

  /** A chain to the sink's function in which a sink identifier is tainted on the sink's line. */
  ghost predicate SinkPath(index: SymbolIndex, query: Query, path: Path)
    requires ValidIndex(index)
  {
    && path != [] && path[|path| - 1] == query.sinkHop
    && exists p :: Reaches(index, query, path[..|path| - 1], p) && HitsSink(index, query, p)
  }

  /** A chain to a tainted call that no indexed function answers. */
  ghost predicate UnresolvedPath(index: SymbolIndex, query: Query, path: Path)
    requires ValidIndex(index)
  {
    && path != []
    && exists p, c: nat ::
         && Reaches(index, query, path[..|path| - 1], p) && TaintedCall(index, p, c)
         && Candidates(index, index.callSites[c].callee) == []
         && path[|path| - 1] == UnresolvedHop(index.callSites[c])
  }

  ghost predicate Witnessed(index: SymbolIndex, query: Query, path: Path)
    requires ValidIndex(index)
  {
    SinkPath(index, query, path) || UnresolvedPath(index, query, path)
  }

  ghost predicate PathsOk(index: SymbolIndex, query: Query, opts: Options, paths: seq<Path>)
    requires ValidIndex(index)
  {
    forall path | path in paths :: Witnessed(index, query, path) && |path| <= opts.maxDepth + 2
  }

  ghost predicate SinkReported(index: SymbolIndex, query: Query, paths: seq<Path>)
    requires ValidIndex(index)
  {
    exists path :: path in paths && SinkPath(index, query, path)
  }

  /** Some chain of at most `n` hops, the source among them, reaches the sink. */
  ghost predicate SinkWithin(index: SymbolIndex, query: Query, n: nat)
    requires ValidIndex(index)
  {
    exists hops, p :: Reaches(index, query, hops, p) && |hops| <= n && HitsSink(index, query, p)
  }

  // ------------------------------------------------------------------------
  // The search as a function
  // ------------------------------------------------------------------------

  /** The frames a part of the walk pushes, the paths it reports, and whether it ran out of room. */
  datatype Yield = Yield(frames: seq<Frame>, paths: seq<Path>, full: bool)

  function Behind(frames: seq<Frame>, paths: seq<Path>, y: Yield): Yield {
    Yield(frames + y.frames, paths + y.paths, y.full)
  }

  lemma CandidatesAreIndexed(index: SymbolIndex, callee: string)
    requires ValidIndex(index)
    ensures forall k | 0 <= k < |Candidates(index, callee)| :: Candidates(index, callee)[k] < |index.fnDefs|
  {
    assert NamedBy(index.fnDefs, |index.fnDefs|, callee, NameList(index.byName, callee));
  }

  /** The frame that enters function `fn` through call site `c`. */
  ghost function Entry(index: SymbolIndex, frame: Frame, c: nat, fn: nat): Frame
    requires ValidIndex(index) && c < |index.callSites| && fn < |index.fnDefs|
  {
    var cs, positions := index.callSites[c], TaintedArgs(index, PointOf(frame), c);
    var params := index.fnDefs[fn].params;
    var hop := CallHop(cs, Candidates(index, cs.callee), Overflows(params, positions));
    Frame(fn, BoundTo(params, positions), frame.hops + [hop])
  }

  /** The candidates of a call site from the `i`-th on; `room` is how many more frames the search admits. */
  ghost function CandidateYield(index: SymbolIndex, opts: Options, frame: Frame, c: nat, i: nat, room: nat): (y: Yield)
    requires ValidIndex(index) && c < |index.callSites|
    requires i <= |Candidates(index, index.callSites[c].callee)|
    ensures |y.frames| <= room
    decreases |Candidates(index, index.callSites[c].callee)| - i
  {
    var candidates := Candidates(index, index.callSites[c].callee);
    CandidatesAreIndexed(index, index.callSites[c].callee);
    if i == |candidates| then Yield([], [], false)
    else
      var next := Entry(index, frame, c, candidates[i]);
      if |next.hops| > opts.maxDepth + 1 then CandidateYield(index, opts, frame, c, i + 1, room)
      else if room == 0 then Yield([], [], true)
      else Behind([next], [], CandidateYield(index, opts, frame, c, i + 1, room - 1))
  }

  ghost function CallYield(index: SymbolIndex, opts: Options, frame: Frame, c: nat, room: nat): (y: Yield)
    requires ValidIndex(index) && c < |index.callSites|
    ensures |y.frames| <= room
  {
    var cs := index.callSites[c];
    if TaintedArgs(index, PointOf(frame), c) == [] then Yield([], [], false)
    else if Candidates(index, cs.callee) == [] then Yield([], [frame.hops + [UnresolvedHop(cs)]], false)
    else CandidateYield(index, opts, frame, c, 0, room)
  }

  /** The call sites of a frame from the `k`-th on. */
  ghost function CallsYield(index: SymbolIndex, opts: Options, frame: Frame, k: nat, room: nat): (y: Yield)
    requires ValidIndex(index) && k <= |CallsOf(index, frame.fn)|
    ensures |y.frames| <= room
    decreases |CallsOf(index, frame.fn)| - k
  {
    var calls := CallsOf(index, frame.fn);
    CallsFacts(index, frame.fn);
    if k == |calls| then Yield([], [], false)
    else
      var y := CallYield(index, opts, frame, calls[k], room);
      if y.full then y
      else Behind(y.frames, y.paths, CallsYield(index, opts, frame, k + 1, room - |y.frames|))
  }

  lemma CallsFacts(index: SymbolIndex, fn: nat)
    requires ValidIndex(index)
    ensures var ids := CallsOf(index, fn);
            && (forall k | 0 <= k < |ids| :: ids[k] < |index.callSites| && index.callSites[ids[k]].inFn == fn)
            && (forall i, j | 0 <= i < j < |ids| :: index.callSites[ids[i]].start <= index.callSites[ids[j]].start)
            && (forall c: nat | c < |index.callSites| && index.callSites[c].inFn == fn :: c in ids)
  {
    var ids := CallsOf(index, fn);
    var starts, owners := CallStarts(index.callSites), CallOwners(index.callSites);
    assert ValidGroup(owners, starts, |owners|, fn, ids);
    forall c: nat | c < |index.callSites| && index.callSites[c].inFn == fn
      ensures c in ids
    {
      assert owners[c] == fn;
    }
    forall i, j | 0 <= i < j < |ids|
      ensures index.callSites[ids[i]].start <= index.callSites[ids[j]].start
    {
      assert starts[ids[i]] <= starts[ids[j]];
    }
    forall k | 0 <= k < |ids|
      ensures ids[k] < |index.callSites| && index.callSites[ids[k]].inFn == fn
    {
      assert owners[ids[k]] == fn;
    }
  }

  /** `givenUp` are the visited points whose calls are not followed, because their frame was at the depth limit. */
  datatype Worklist = Worklist(
    queue: seq<Frame>, visited: set<Point>, givenUp: set<Point>, count: nat, paths: seq<Path>)

  datatype Progress = Continue(next: Worklist) | Stop(final: Worklist, truncated: bool)

  function InitialWorklist(query: Query): Worklist {
    Worklist([Frame(query.startFn, query.initial, [query.source])], {}, {}, 0, [])
  }

  /** One turn takes the frame that was pushed last. */
  ghost function Turn(index: SymbolIndex, query: Query, opts: Options, w: Worklist): (r: Progress)
    requires ValidIndex(index) && w.queue != [] && w.count <= opts.maxFrontier
    ensures r.Stop? ==> r.final.queue != [] && (r.truncated || |r.final.paths| >= opts.maxPaths)
    ensures r.Continue? ==>
              && w.count <= r.next.count <= opts.maxFrontier
              && (r.next.count == w.count ==> |r.next.queue| < |w.queue|)
  {
    var frame, rest := w.queue[|w.queue| - 1], w.queue[..|w.queue| - 1];
    var here := PointOf(frame);
    if |w.paths| >= opts.maxPaths then Stop(w, false)
    else if here in w.visited then Continue(w.(queue := rest))
    else
      var marked := w.(queue := rest, visited := w.visited + {here});
      if HitsSink(index, query, here) then
        Continue(marked.(paths := w.paths + [frame.hops + [query.sinkHop]]))
      else if |frame.hops| > opts.maxDepth then Continue(marked.(givenUp := w.givenUp + {here}))
      else
        var y := CallsYield(index, opts, frame, 0, opts.maxFrontier - w.count);
        if y.full then Stop(marked.(queue := w.queue, paths := w.paths + y.paths), true)
        else Continue(marked.(queue := rest + y.frames, count := w.count + |y.frames|, paths := w.paths + y.paths))
  }

  datatype Outcome = Outcome(final: Worklist, truncated: bool)

  ghost function Run(index: SymbolIndex, query: Query, opts: Options, w: Worklist): (r: Outcome)
    requires ValidIndex(index) && w.count <= opts.maxFrontier
    ensures !r.truncated && |r.final.paths| < opts.maxPaths ==> r.final.queue == []
    decreases opts.maxFrontier - w.count, |w.queue|
  {
    if w.queue == [] then Outcome(w, false)
    else
      match Turn(index, query, opts, w)
      case Continue(next) => Run(index, query, opts, next)
      case Stop(final, truncated) => Outcome(final, truncated)
  }
}
