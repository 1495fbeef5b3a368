/**
 What the search covers. It marks a point as visited before it gives the point up for its depth, so the order of
 the stack can cost it a sink; without such a race it is complete up to its depth.
 */
module TaintCoverage {
  import opened Taint
  import opened TaintSearch

  // ------------------------------------------------------------------------
  // What expanding a frame yields
  // ------------------------------------------------------------------------

  ghost predicate Succeeds(index: SymbolIndex, opts: Options, frame: Frame, next: Frame)
    requires ValidIndex(index)
  {
    && next.fn < |index.fnDefs| && |frame.hops| < |next.hops| <= opts.maxDepth + 1
    && next.hops == frame.hops + [next.hops[|next.hops| - 1]]
    && StepExists(index, PointOf(frame), PointOf(next), next.hops[|next.hops| - 1])
  }

  ghost predicate FramesSucceed(index: SymbolIndex, opts: Options, frame: Frame, frames: seq<Frame>)
    requires ValidIndex(index)
  {
    forall i | 0 <= i < |frames| :: Succeeds(index, opts, frame, frames[i])
  }

  /** A path that ends in a tainted call of this frame that no indexed function answers. */
  ghost predicate EndsUnresolved(index: SymbolIndex, frame: Frame, path: Path)
    requires ValidIndex(index)
  {
    exists c: nat ::
      && TaintedCall(index, PointOf(frame), c) && Candidates(index, index.callSites[c].callee) == []
      && path == frame.hops + [UnresolvedHop(index.callSites[c])]
  }

  ghost predicate InFrames(frames: seq<Frame>, p: Point) {
    exists i :: 0 <= i < |frames| && PointOf(frames[i]) == p
  }

  lemma FramesGrow(a: seq<Frame>, b: seq<Frame>, p: Point)
    ensures InFrames(a + b, p) <==> InFrames(a, p) || InFrames(b, p)
  {
    assert forall i | 0 <= i < |a| :: (a + b)[i] == a[i];
    assert forall i | 0 <= i < |b| :: (a + b)[|a| + i] == b[i];
    if InFrames(a + b, p) {
      var i :| 0 <= i < |a + b| && PointOf((a + b)[i]) == p;
      assert i >= |a| ==> PointOf(b[i - |a|]) == p;
    }
  }

  ghost predicate CallCovered(index: SymbolIndex, p: Point, c: nat, frames: seq<Frame>)
    requires ValidIndex(index)
  {
    forall q, hop | CallStep(index, p, q, c, hop) :: InFrames(frames, q)
  }

  ghost predicate StepsCovered(index: SymbolIndex, p: Point, frames: seq<Frame>)
    requires ValidIndex(index)
  {
    forall q, hop | StepExists(index, p, q, hop) :: InFrames(frames, q)
  }

  /** The frames enter every candidate from the `i`-th on. */
  ghost predicate EnteredFrom(index: SymbolIndex, p: Point, c: nat, i: nat, frames: seq<Frame>)
    requires ValidIndex(index) && TaintedCall(index, p, c)
    requires i <= |Candidates(index, index.callSites[c].callee)|
  {
    forall q, hop | CallStep(index, p, q, c, hop) && q.fn in Candidates(index, index.callSites[c].callee)[i..] ::
      InFrames(frames, q)
  }

  ghost predicate CandidateFacts(index: SymbolIndex, opts: Options, frame: Frame, c: nat, i: nat, y: Yield)
    requires ValidIndex(index) && TaintedCall(index, PointOf(frame), c)
    requires i <= |Candidates(index, index.callSites[c].callee)|
  {
    && y.paths == [] && FramesSucceed(index, opts, frame, y.frames)
    && (!y.full ==> EnteredFrom(index, PointOf(frame), c, i, y.frames))
  }

  lemma {:induction false} CandidatesEntered(index: SymbolIndex, opts: Options, frame: Frame, c: nat, i: nat, room: nat)
    requires ValidIndex(index) && TaintedCall(index, PointOf(frame), c) && |frame.hops| <= opts.maxDepth
    requires i <= |Candidates(index, index.callSites[c].callee)|
    ensures CandidateFacts(index, opts, frame, c, i, CandidateYield(index, opts, frame, c, i, room))
    decreases |Candidates(index, index.callSites[c].callee)| - i
  {
    hide ValidIndex, TaintedArgs, CandidateFacts, CandidateYield, Entry;
    FirstCandidate(index, opts, frame, c, i, room);
    if i == |Candidates(index, index.callSites[c].callee)| || room == 0 {
      NoneEntered(index, opts, frame, c, i, i < |Candidates(index, index.callSites[c].callee)|);
    } else {
      CandidatesEntered(index, opts, frame, c, i + 1, room - 1);
      CandidateFactsNext(index, opts, frame, c, i, CandidateYield(index, opts, frame, c, i + 1, room - 1));
    }
  }

  lemma NoneEntered(index: SymbolIndex, opts: Options, frame: Frame, c: nat, i: nat, full: bool)
    requires ValidIndex(index) && TaintedCall(index, PointOf(frame), c)
    requires i <= |Candidates(index, index.callSites[c].callee)|
    requires full || i == |Candidates(index, index.callSites[c].callee)|
    ensures CandidateFacts(index, opts, frame, c, i, Yield([], [], full))
  {
    hide ValidIndex, TaintedArgs, CallStep, Succeeds;
  }

  /** Below the depth limit the next candidate is entered, unless there is none or no room. */
  lemma FirstCandidate(index: SymbolIndex, opts: Options, frame: Frame, c: nat, i: nat, room: nat)
    requires ValidIndex(index) && TaintedCall(index, PointOf(frame), c) && |frame.hops| <= opts.maxDepth
    requires i <= |Candidates(index, index.callSites[c].callee)|
    ensures var y, candidates := CandidateYield(index, opts, frame, c, i, room),
                                 Candidates(index, index.callSites[c].callee);
            if i < |candidates| && room > 0 then
              && candidates[i] < |index.fnDefs|
              && y == Behind([Entry(index, frame, c, candidates[i])], [],
                             CandidateYield(index, opts, frame, c, i + 1, room - 1))
            else y == Yield([], [], i < |candidates|)
  {
    CandidatesAreIndexed(index, index.callSites[c].callee);
    hide ValidIndex, TaintedArgs, BoundTo, Overflows, CallHop;
  }

  lemma CandidateFactsNext(index: SymbolIndex, opts: Options, frame: Frame, c: nat, i: nat, y: Yield)
    requires ValidIndex(index) && TaintedCall(index, PointOf(frame), c) && |frame.hops| <= opts.maxDepth
    requires i < |Candidates(index, index.callSites[c].callee)|
    requires CandidateFacts(index, opts, frame, c, i + 1, y)
    ensures var candidates := Candidates(index, index.callSites[c].callee);
            && candidates[i] < |index.fnDefs|
            && CandidateFacts(index, opts, frame, c, i, Behind([Entry(index, frame, c, candidates[i])], [], y))
  {
    var candidates := Candidates(index, index.callSites[c].callee);
    CandidatesAreIndexed(index, index.callSites[c].callee);
    EntrySucceeds(index, opts, frame, c, candidates[i]);
    var next := Entry(index, frame, c, candidates[i]);
    FramesSucceedBoth(index, opts, frame, [next], y.frames);
    hide EnteredFrom, ValidIndex, TaintedCall, CallStep, Entry, StepExists;
    if !y.full {
      EnteredNext(index, frame, c, i, next, y.frames);
    }
  }

  lemma FramesSucceedBoth(index: SymbolIndex, opts: Options, frame: Frame, a: seq<Frame>, b: seq<Frame>)
    requires ValidIndex(index)
    ensures FramesSucceed(index, opts, frame, a) && FramesSucceed(index, opts, frame, b)
            <==> FramesSucceed(index, opts, frame, a + b)
  {
    hide Succeeds;
    assert forall i | 0 <= i < |a| :: (a + b)[i] == a[i];
    assert forall i | 0 <= i < |b| :: (a + b)[|a| + i] == b[i];
  }

  lemma EnteredNext(index: SymbolIndex, frame: Frame, c: nat, i: nat, next: Frame, rest: seq<Frame>)
    requires ValidIndex(index) && TaintedCall(index, PointOf(frame), c)
    requires i < |Candidates(index, index.callSites[c].callee)|
    requires EnteredFrom(index, PointOf(frame), c, i + 1, rest)
    requires forall q, hop | CallStep(index, PointOf(frame), q, c, hop)
                             && q.fn == Candidates(index, index.callSites[c].callee)[i] :: q == PointOf(next)
    ensures EnteredFrom(index, PointOf(frame), c, i, [next] + rest)
  {
    var candidates := Candidates(index, index.callSites[c].callee);
    hide ValidIndex, TaintedCall, CallStep;
    assert candidates[i..] == [candidates[i]] + candidates[i + 1..];
    forall q {
      FramesGrow([next], rest, q);
    }
    assert PointOf([next][0]) == PointOf(next);
  }

  lemma EntrySucceeds(index: SymbolIndex, opts: Options, frame: Frame, c: nat, fn: nat)
    requires ValidIndex(index) && TaintedCall(index, PointOf(frame), c) && |frame.hops| <= opts.maxDepth
    requires fn in Candidates(index, index.callSites[c].callee) && fn < |index.fnDefs|
    ensures Succeeds(index, opts, frame, Entry(index, frame, c, fn))
    ensures forall q, hop | CallStep(index, PointOf(frame), q, c, hop) && q.fn == fn ::
              q == PointOf(Entry(index, frame, c, fn))
  {
    var next := Entry(index, frame, c, fn);
    assert CallStep(index, PointOf(frame), PointOf(next), c, next.hops[|next.hops| - 1]);
  }

  ghost predicate PathsEnd(index: SymbolIndex, frame: Frame, paths: seq<Path>)
    requires ValidIndex(index)
  {
    forall path | path in paths :: EndsUnresolved(index, frame, path)
  }

  lemma CallFacts(index: SymbolIndex, opts: Options, frame: Frame, c: nat, room: nat)
    requires ValidIndex(index) && c < |index.callSites| && index.callSites[c].inFn == frame.fn
    requires |frame.hops| <= opts.maxDepth
    ensures var y := CallYield(index, opts, frame, c, room);
            && FramesSucceed(index, opts, frame, y.frames) && PathsEnd(index, frame, y.paths)
            && (!y.full ==> CallCovered(index, PointOf(frame), c, y.frames))
  {
    var cs := index.callSites[c];
    if TaintedArgs(index, PointOf(frame), c) != [] {
      assert TaintedCall(index, PointOf(frame), c);
      if Candidates(index, cs.callee) == [] {
        assert EndsUnresolved(index, frame, frame.hops + [UnresolvedHop(cs)]);
      } else {
        CandidatesEntered(index, opts, frame, c, 0, room);
        assert Candidates(index, cs.callee)[0..] == Candidates(index, cs.callee);
      }
    }
  }

  ghost predicate CallsCoveredFrom(index: SymbolIndex, frame: Frame, k: nat, frames: seq<Frame>)
    requires ValidIndex(index)
  {
    forall m | k <= m < |CallsOf(index, frame.fn)| ::
      CallCovered(index, PointOf(frame), CallsOf(index, frame.fn)[m], frames)
  }

  lemma CallsCoveredNext(index: SymbolIndex, frame: Frame, k: nat, a: seq<Frame>, b: seq<Frame>)
    requires ValidIndex(index) && k < |CallsOf(index, frame.fn)|
    requires CallCovered(index, PointOf(frame), CallsOf(index, frame.fn)[k], a)
    requires CallsCoveredFrom(index, frame, k + 1, b)
    ensures CallsCoveredFrom(index, frame, k, a + b)
  {
    hide ValidIndex, CallStep;
    forall q {
      FramesGrow(a, b, q);
    }
  }

  ghost predicate FollowsFrom(index: SymbolIndex, opts: Options, frame: Frame, k: nat, y: Yield)
    requires ValidIndex(index)
  {
    && FramesSucceed(index, opts, frame, y.frames) && PathsEnd(index, frame, y.paths)
    && (!y.full ==> CallsCoveredFrom(index, frame, k, y.frames))
  }

  lemma FollowsNext(index: SymbolIndex, opts: Options, frame: Frame, k: nat, y: Yield, rest: Yield)
    requires ValidIndex(index) && k < |CallsOf(index, frame.fn)| && !y.full
    requires FramesSucceed(index, opts, frame, y.frames) && PathsEnd(index, frame, y.paths)
    requires CallCovered(index, PointOf(frame), CallsOf(index, frame.fn)[k], y.frames)
    requires FollowsFrom(index, opts, frame, k + 1, rest)
    ensures FollowsFrom(index, opts, frame, k, Behind(y.frames, y.paths, rest))
  {
    FramesSucceedBoth(index, opts, frame, y.frames, rest.frames);
    hide FramesSucceed, ValidIndex, CallCovered, CallsCoveredFrom, EndsUnresolved;
    if !rest.full {
      CallsCoveredNext(index, frame, k, y.frames, rest.frames);
    }
  }

  lemma NothingToFollow(index: SymbolIndex, opts: Options, frame: Frame)
    requires ValidIndex(index)
    ensures FollowsFrom(index, opts, frame, |CallsOf(index, frame.fn)|, Yield([], [], false))
  {
  }

  lemma StoppedFollows(index: SymbolIndex, opts: Options, frame: Frame, k: nat, y: Yield)
    requires ValidIndex(index) && y.full
    requires FramesSucceed(index, opts, frame, y.frames) && PathsEnd(index, frame, y.paths)
    ensures FollowsFrom(index, opts, frame, k, y)
  {
  }

  lemma {:induction false} CallsFollowed(index: SymbolIndex, opts: Options, frame: Frame, k: nat, room: nat)
    requires ValidIndex(index) && k <= |CallsOf(index, frame.fn)| && |frame.hops| <= opts.maxDepth
    ensures FollowsFrom(index, opts, frame, k, CallsYield(index, opts, frame, k, room))
    decreases |CallsOf(index, frame.fn)| - k
  {
    hide FollowsFrom, CallCovered, FramesSucceed, PathsEnd, CallYield, ValidIndex;
    NothingToFollow(index, opts, frame);
    if k < |CallsOf(index, frame.fn)| {
      var c := CallsOf(index, frame.fn)[k];
      CallsFacts(index, frame.fn);
      CallFacts(index, opts, frame, c, room);
      var y := CallYield(index, opts, frame, c, room);
      if y.full {
        StoppedFollows(index, opts, frame, k, y);
      } else {
        CallsFollowed(index, opts, frame, k + 1, room - |y.frames|);
        FollowsNext(index, opts, frame, k, y, CallsYield(index, opts, frame, k + 1, room - |y.frames|));
      }
    }
  }

  /** A tainted call from this point that no indexed function answers. */
  ghost predicate Unanswered(index: SymbolIndex, p: Point, c: nat)
    requires ValidIndex(index)
  {
    TaintedCall(index, p, c) && Candidates(index, index.callSites[c].callee) == []
  }

  /** Some path stops at the call site. */
  ghost predicate StopsAt(index: SymbolIndex, paths: seq<Path>, c: nat) {
    && c < |index.callSites|
    && exists path :: path in paths && path != [] && path[|path| - 1] == UnresolvedHop(index.callSites[c])
  }

  ghost predicate UnansweredReported(index: SymbolIndex, p: Point, paths: seq<Path>)
    requires ValidIndex(index)
  {
    forall c: nat | Unanswered(index, p, c) :: StopsAt(index, paths, c)
  }

  lemma StopsAtWithMore(index: SymbolIndex, fewer: seq<Path>, more: seq<Path>, c: nat)
    requires StopsAt(index, fewer, c) && forall path | path in fewer :: path in more
    ensures StopsAt(index, more, c)
  {
  }

  lemma {:induction false} UnansweredFrom(index: SymbolIndex, opts: Options, frame: Frame, k: nat, room: nat)
    requires ValidIndex(index) && k <= |CallsOf(index, frame.fn)|
    ensures var y := CallsYield(index, opts, frame, k, room);
            !y.full ==> forall m | k <= m < |CallsOf(index, frame.fn)|
                                   && Unanswered(index, PointOf(frame), CallsOf(index, frame.fn)[m]) ::
                          StopsAt(index, y.paths, CallsOf(index, frame.fn)[m])
    decreases |CallsOf(index, frame.fn)| - k
  {
    hide ValidIndex, TaintedArgs, CandidateYield, StopsAt;
    var calls := CallsOf(index, frame.fn);
    CallsFacts(index, frame.fn);
    if k < |calls| {
      var first := CallYield(index, opts, frame, calls[k], room);
      var y := CallsYield(index, opts, frame, k, room);
      if !y.full {
        var rest := CallsYield(index, opts, frame, k + 1, room - |first.frames|);
        UnansweredFrom(index, opts, frame, k + 1, room - |first.frames|);
        if Unanswered(index, PointOf(frame), calls[k]) {
          UnansweredYields(index, opts, frame, calls[k], room);
        }
        assert y.paths == first.paths + rest.paths;
        forall m | k <= m < |calls| && Unanswered(index, PointOf(frame), calls[m])
          ensures StopsAt(index, y.paths, calls[m])
        {
          StopsAtWithMore(index, if m == k then first.paths else rest.paths, y.paths, calls[m]);
        }
      }
    }
  }

  lemma UnansweredYields(index: SymbolIndex, opts: Options, frame: Frame, c: nat, room: nat)
    requires ValidIndex(index) && Unanswered(index, PointOf(frame), c)
    ensures StopsAt(index, CallYield(index, opts, frame, c, room).paths, c)
  {
    hide ValidIndex, TaintedArgs;
    var path := frame.hops + [UnresolvedHop(index.callSites[c])];
    assert path in CallYield(index, opts, frame, c, room).paths;
  }

  /**
   A frame that is expanded queues every step the relation allows and nothing else, and reports every tainted call
   that nobody answers, as long as there is room.
   */
  lemma ExpansionIsExact(index: SymbolIndex, opts: Options, frame: Frame, room: nat)
    requires ValidIndex(index) && |frame.hops| <= opts.maxDepth
    ensures var y := CallsYield(index, opts, frame, 0, room);
            && FramesSucceed(index, opts, frame, y.frames) && PathsEnd(index, frame, y.paths)
            && (!y.full ==> StepsCovered(index, PointOf(frame), y.frames))
            && (!y.full ==> UnansweredReported(index, PointOf(frame), y.paths))
  {
    UnansweredFound(index, opts, frame, room);
    CallsFollowed(index, opts, frame, 0, room);
    var y := CallsYield(index, opts, frame, 0, room);
    CallsFacts(index, frame.fn);
    hide CallsYield, ValidIndex, FramesSucceed, PathsEnd, UnansweredReported;
    if !y.full {
      forall q, hop | StepExists(index, PointOf(frame), q, hop)
        ensures InFrames(y.frames, q)
      {
        var c: nat :| CallStep(index, PointOf(frame), q, c, hop);
        assert c in CallsOf(index, frame.fn);
        var m :| 0 <= m < |CallsOf(index, frame.fn)| && CallsOf(index, frame.fn)[m] == c;
        assert CallCovered(index, PointOf(frame), c, y.frames);
      }
    }
  }

  lemma UnansweredFound(index: SymbolIndex, opts: Options, frame: Frame, room: nat)
    requires ValidIndex(index)
    ensures var y := CallsYield(index, opts, frame, 0, room);
            !y.full ==> UnansweredReported(index, PointOf(frame), y.paths)
  {
    UnansweredFrom(index, opts, frame, 0, room);
    CallsFacts(index, frame.fn);
    hide ValidIndex, CallsYield, StopsAt, TaintedArgs;
    forall c: nat | Unanswered(index, PointOf(frame), c)
      ensures exists m :: 0 <= m < |CallsOf(index, frame.fn)| && CallsOf(index, frame.fn)[m] == c
    {
      assert c in CallsOf(index, frame.fn);
    }
  }

  // ------------------------------------------------------------------------
  // What holds of the worklist at every turn
  // ------------------------------------------------------------------------

  ghost predicate Distinct(points: seq<Point>) {
    forall i, j | 0 <= i < j < |points| :: points[i] != points[j]
  }

  /** No point of the chain hits the sink. */
  ghost predicate Plain(index: SymbolIndex, query: Query, points: seq<Point>)
    requires ValidIndex(index)
  {
    forall k | 0 <= k < |points| :: !HitsSink(index, query, points[k])
  }

  /** The frame was pushed along a chain of visited points, none of them twice and none of them at the sink. */
  ghost predicate Trail(index: SymbolIndex, query: Query, visited: set<Point>, points: seq<Point>, hops: Path)
    requires ValidIndex(index)
  {
    && Chain(index, query, points, hops)
    && var before := points[..|points| - 1];
       Plain(index, query, before) && Distinct(before) && forall k | 0 <= k < |before| :: before[k] in visited
  }

  ghost predicate FrameOk(index: SymbolIndex, query: Query, opts: Options, visited: set<Point>, frame: Frame)
    requires ValidIndex(index)
  {
    && frame.fn < |index.fnDefs| && |frame.hops| <= opts.maxDepth + 1
    && exists points :: Trail(index, query, visited, points, frame.hops) && points[|points| - 1] == PointOf(frame)
  }

  ghost predicate FramesOk(index: SymbolIndex, query: Query, opts: Options, visited: set<Point>, frames: seq<Frame>)
    requires ValidIndex(index)
  {
    forall i | 0 <= i < |frames| :: FrameOk(index, query, opts, visited, frames[i])
  }

  /** A chain of exactly `n` points, all different and none at the sink, ends here. */
  ghost predicate SimplyReached(index: SymbolIndex, query: Query, p: Point, n: nat)
    requires ValidIndex(index)
  {
    exists points, hops ::
      && Chain(index, query, points, hops) && |points| == n && points[n - 1] == p
      && Plain(index, query, points) && Distinct(points)
  }

  /** A chain of at most `n` points, none at the sink, ends here. */
  ghost predicate PlainWithin(index: SymbolIndex, query: Query, p: Point, n: nat)
    requires ValidIndex(index)
  {
    exists points, hops ::
      && Chain(index, query, points, hops) && |points| <= n && points[|points| - 1] == p
      && Plain(index, query, points)
  }

  ghost predicate GivenUpOk(index: SymbolIndex, query: Query, opts: Options, w: Worklist)
    requires ValidIndex(index)
  {
    forall p | p in w.givenUp ::
      p in w.visited && !HitsSink(index, query, p) && SimplyReached(index, query, p, opts.maxDepth + 1)
  }

  /** Every step from a visited point that was followed is visited or waiting. */
  ghost predicate Closed(index: SymbolIndex, query: Query, w: Worklist)
    requires ValidIndex(index)
  {
    forall p, q, hop | p in w.visited && p !in w.givenUp && !HitsSink(index, query, p)
                       && StepExists(index, p, q, hop) ::
      q in w.visited || InFrames(w.queue, q)
  }

  ghost predicate VisitedSink(index: SymbolIndex, query: Query, visited: set<Point>)
    requires ValidIndex(index)
  {
    exists p :: p in visited && HitsSink(index, query, p)
  }

  ghost predicate Covers(index: SymbolIndex, query: Query, w: Worklist)
    requires ValidIndex(index)
  {
    var start := Point(query.startFn, query.initial);
    && (start in w.visited || InFrames(w.queue, start))
    && Closed(index, query, w)
    && (VisitedSink(index, query, w.visited) ==> SinkReported(index, query, w.paths))
  }

  /** Every tainted call that nobody answers, from a visited point that was followed, is reported. */
  ghost predicate Annotated(index: SymbolIndex, query: Query, w: Worklist)
    requires ValidIndex(index)
  {
    forall p | p in w.visited && p !in w.givenUp && !HitsSink(index, query, p) :: UnansweredReported(index, p, w.paths)
  }

  ghost predicate SearchInv(index: SymbolIndex, query: Query, opts: Options, w: Worklist)
    requires ValidIndex(index)
  {
    && FramesOk(index, query, opts, w.visited, w.queue)
    && PathsOk(index, query, opts, w.paths)
    && GivenUpOk(index, query, opts, w)
    && Covers(index, query, w)
    && Annotated(index, query, w)
  }

  // ------------------------------------------------------------------------
  // Every turn keeps it
  // ------------------------------------------------------------------------

  lemma InitialInv(index: SymbolIndex, query: Query, opts: Options)
    requires ValidIndex(index) && ValidQuery(index, query)
    ensures SearchInv(index, query, opts, InitialWorklist(query))
  {
    var w, start := InitialWorklist(query), Point(query.startFn, query.initial);
    assert Chain(index, query, [start], [query.source]);
    assert Trail(index, query, {}, [start], [query.source]);
    assert PointOf(w.queue[0]) == start;
  }

  lemma TrailOf(index: SymbolIndex, query: Query, opts: Options, visited: set<Point>, frame: Frame)
    returns (points: seq<Point>)
    requires ValidIndex(index) && FrameOk(index, query, opts, visited, frame)
    ensures Trail(index, query, visited, points, frame.hops) && points[|points| - 1] == PointOf(frame)
    ensures Reaches(index, query, frame.hops, PointOf(frame))
  {
    points :| Trail(index, query, visited, points, frame.hops) && points[|points| - 1] == PointOf(frame);
  }

  lemma FramesStayOk(index: SymbolIndex, query: Query, opts: Options, visited: set<Point>, more: set<Point>,
                     frames: seq<Frame>)
    requires ValidIndex(index) && visited <= more && FramesOk(index, query, opts, visited, frames)
    ensures FramesOk(index, query, opts, more, frames)
  {
    forall i | 0 <= i < |frames|
      ensures FrameOk(index, query, opts, more, frames[i])
    {
      var points := TrailOf(index, query, opts, visited, frames[i]);
      hide Chain, Plain;
      assert Trail(index, query, more, points, frames[i].hops);
    }
  }

  /** A frame whose point was not visited before ends a chain without repetition. */
  lemma TrailIsSimple(index: SymbolIndex, query: Query, opts: Options, visited: set<Point>, frame: Frame)
    returns (points: seq<Point>)
    requires ValidIndex(index) && FrameOk(index, query, opts, visited, frame)
    requires PointOf(frame) !in visited && !HitsSink(index, query, PointOf(frame))
    ensures Chain(index, query, points, frame.hops) && points[|points| - 1] == PointOf(frame)
    ensures Plain(index, query, points) && Distinct(points)
    ensures forall k | 0 <= k < |points| :: points[k] in visited + {PointOf(frame)}
  {
    points := TrailOf(index, query, opts, visited, frame);
    var n := |points| - 1;
    hide Chain, HitsSink;
    assert forall k | 0 <= k < n :: points[..n][k] == points[k];
  }

  lemma SuccessorsOk(index: SymbolIndex, query: Query, opts: Options, visited: set<Point>, frame: Frame,
                     frames: seq<Frame>)
    requires ValidIndex(index) && FrameOk(index, query, opts, visited, frame)
    requires PointOf(frame) !in visited && !HitsSink(index, query, PointOf(frame))
    requires FramesSucceed(index, opts, frame, frames)
    ensures FramesOk(index, query, opts, visited + {PointOf(frame)}, frames)
  {
    var points := TrailIsSimple(index, query, opts, visited, frame);
    forall i | 0 <= i < |frames|
      ensures FrameOk(index, query, opts, visited + {PointOf(frame)}, frames[i])
    {
      SuccessorTrail(index, query, opts, visited + {PointOf(frame)}, frame, points, frames[i]);
    }
  }

  lemma SuccessorTrail(index: SymbolIndex, query: Query, opts: Options, visited: set<Point>, frame: Frame,
                       points: seq<Point>, next: Frame)
    requires ValidIndex(index) && Succeeds(index, opts, frame, next)
    requires Chain(index, query, points, frame.hops) && points[|points| - 1] == PointOf(frame)
    requires Plain(index, query, points) && Distinct(points) && forall k | 0 <= k < |points| :: points[k] in visited
    ensures FrameOk(index, query, opts, visited, next)
  {
    hide HitsSink, StepExists, ValidIndex;
    var longer := points + [PointOf(next)];
    assert longer[..|points|] == points;
    assert Chain(index, query, longer, next.hops);
    assert Trail(index, query, visited, longer, next.hops);
  }

  lemma EndsAreWitnessed(index: SymbolIndex, query: Query, opts: Options, visited: set<Point>, frame: Frame,
                         paths: seq<Path>)
    requires ValidIndex(index) && FrameOk(index, query, opts, visited, frame) && PathsEnd(index, frame, paths)
    ensures PathsOk(index, query, opts, paths)
  {
    var points := TrailOf(index, query, opts, visited, frame);
    forall path | path in paths
      ensures Witnessed(index, query, path) && |path| <= opts.maxDepth + 2
    {
      assert EndsUnresolved(index, frame, path);
      assert path[..|path| - 1] == frame.hops;
      assert UnresolvedPath(index, query, path);
    }
  }

  lemma SinkIsWitnessed(index: SymbolIndex, query: Query, opts: Options, visited: set<Point>, frame: Frame)
    requires ValidIndex(index) && FrameOk(index, query, opts, visited, frame)
    requires HitsSink(index, query, PointOf(frame))
    ensures SinkPath(index, query, frame.hops + [query.sinkHop])
    ensures PathsOk(index, query, opts, [frame.hops + [query.sinkHop]])
  {
    var points := TrailOf(index, query, opts, visited, frame);
    assert (frame.hops + [query.sinkHop])[..|frame.hops|] == frame.hops;
  }

  lemma CoversAfterDuplicate(index: SymbolIndex, query: Query, w: Worklist, rest: seq<Frame>, frame: Frame)
    requires ValidIndex(index) && Covers(index, query, w) && w.queue == rest + [frame]
    requires PointOf(frame) in w.visited
    ensures Covers(index, query, w.(queue := rest))
  {
    hide StepExists, HitsSink;
    forall p {
      FramesGrow(rest, [frame], p);
    }
  }

  /** The frame's point is visited: it is a reported sink, it is given up, or its steps are queued. */
  lemma CoversAfterVisit(index: SymbolIndex, query: Query, w: Worklist, rest: seq<Frame>, frame: Frame,
                         frames: seq<Frame>, w': Worklist)
    requires ValidIndex(index) && Covers(index, query, w) && w.queue == rest + [frame]
    requires w'.visited == w.visited + {PointOf(frame)} && w'.queue == rest + frames
    requires w.givenUp <= w'.givenUp && w.paths <= w'.paths
    requires HitsSink(index, query, PointOf(frame)) ==> SinkReported(index, query, w'.paths)
    requires HitsSink(index, query, PointOf(frame)) || PointOf(frame) in w'.givenUp
             || StepsCovered(index, PointOf(frame), frames)
    ensures Covers(index, query, w')
  {
    hide StepExists, HitsSink, SinkPath;
    forall p
      ensures InFrames(w.queue, p) ==> p in w'.visited || InFrames(w'.queue, p)
      ensures InFrames(frames, p) ==> InFrames(w'.queue, p)
    {
      FramesGrow(rest, [frame], p);
      FramesGrow(rest, frames, p);
      assert InFrames([frame], p) ==> p == PointOf(frame);
    }
    assert forall path | path in w.paths :: path in w'.paths;
  }

  lemma FramesOkBoth(index: SymbolIndex, query: Query, opts: Options, visited: set<Point>, a: seq<Frame>, b: seq<Frame>)
    requires ValidIndex(index)
    ensures FramesOk(index, query, opts, visited, a + b)
            <==> FramesOk(index, query, opts, visited, a) && FramesOk(index, query, opts, visited, b)
  {
    hide FrameOk;
    assert forall i | 0 <= i < |a| :: (a + b)[i] == a[i];
    assert forall i | 0 <= i < |b| :: (a + b)[|a| + i] == b[i];
  }

  lemma AnnotatedGrows(index: SymbolIndex, query: Query, w: Worklist, w': Worklist)
    requires ValidIndex(index) && Annotated(index, query, w)
    requires w.givenUp <= w'.givenUp && w.paths <= w'.paths
    requires forall p | p in w'.visited && p !in w.visited ::
               HitsSink(index, query, p) || p in w'.givenUp || UnansweredReported(index, p, w'.paths)
    ensures Annotated(index, query, w')
  {
    hide ValidIndex, HitsSink, Unanswered, StopsAt;
    assert forall path | path in w.paths :: path in w'.paths;
    forall p | UnansweredReported(index, p, w.paths)
      ensures UnansweredReported(index, p, w'.paths)
    {
      forall c: nat | Unanswered(index, p, c)
        ensures StopsAt(index, w'.paths, c)
      {
        StopsAtWithMore(index, w.paths, w'.paths, c);
      }
    }
  }

  lemma ReportedWithMore(index: SymbolIndex, p: Point, before: seq<Path>, paths: seq<Path>)
    requires ValidIndex(index) && UnansweredReported(index, p, paths)
    ensures UnansweredReported(index, p, before + paths)
  {
    hide ValidIndex, Unanswered, StopsAt;
    forall c: nat | Unanswered(index, p, c)
      ensures StopsAt(index, before + paths, c)
    {
      StopsAtWithMore(index, paths, before + paths, c);
    }
  }

  ghost predicate Keeps(index: SymbolIndex, query: Query, opts: Options, r: Progress)
    requires ValidIndex(index)
  {
    match r
    case Continue(next) => SearchInv(index, query, opts, next)
    case Stop(final, _) => PathsOk(index, query, opts, final.paths)
  }

  lemma TurnKeeps(index: SymbolIndex, query: Query, opts: Options, w: Worklist)
    requires ValidIndex(index) && SearchInv(index, query, opts, w) && w.queue != [] && w.count <= opts.maxFrontier
    ensures Keeps(index, query, opts, Turn(index, query, opts, w))
  {
    hide ValidIndex, FrameOk, FramesOk, HitsSink, CallsYield, SearchInv, PathsOk;
    var frame, rest := w.queue[|w.queue| - 1], w.queue[..|w.queue| - 1];
    LastFrameOk(index, query, opts, w, rest, frame);
    if |w.paths| >= opts.maxPaths {
    } else if PointOf(frame) in w.visited {
      DuplicateKeeps(index, query, opts, w, rest, frame);
    } else if HitsSink(index, query, PointOf(frame)) {
      SinkKeeps(index, query, opts, w, rest, frame);
    } else if |frame.hops| > opts.maxDepth {
      GivingUpKeeps(index, query, opts, w, rest, frame);
    } else {
      ExpandingKeeps(index, query, opts, w, rest, frame);
    }
  }

  lemma LastFrameOk(index: SymbolIndex, query: Query, opts: Options, w: Worklist, rest: seq<Frame>, frame: Frame)
    requires ValidIndex(index) && SearchInv(index, query, opts, w) && w.queue != []
    requires rest == w.queue[..|w.queue| - 1] && frame == w.queue[|w.queue| - 1]
    ensures w.queue == rest + [frame] && PathsOk(index, query, opts, w.paths)
    ensures FramesOk(index, query, opts, w.visited, rest) && FrameOk(index, query, opts, w.visited, frame)
  {
    assert w.queue == rest + [frame];
    FramesOkBoth(index, query, opts, w.visited, rest, [frame]);
    assert FrameOk(index, query, opts, w.visited, [frame][0]);
  }

  lemma DuplicateKeeps(index: SymbolIndex, query: Query, opts: Options, w: Worklist, rest: seq<Frame>, frame: Frame)
    requires ValidIndex(index) && SearchInv(index, query, opts, w) && w.queue == rest + [frame]
    requires FramesOk(index, query, opts, w.visited, rest) && PointOf(frame) in w.visited
    ensures SearchInv(index, query, opts, w.(queue := rest))
  {
    CoversAfterDuplicate(index, query, w, rest, frame);
    AnnotatedGrows(index, query, w, w.(queue := rest));
    GivenUpStays(index, query, opts, w, w.(queue := rest));
  }

  lemma GivenUpStays(index: SymbolIndex, query: Query, opts: Options, w: Worklist, w': Worklist)
    requires ValidIndex(index) && GivenUpOk(index, query, opts, w)
    requires w'.givenUp == w.givenUp && w.visited <= w'.visited
    ensures GivenUpOk(index, query, opts, w')
  {
  }

  lemma PathsOkBoth(index: SymbolIndex, query: Query, opts: Options, a: seq<Path>, b: seq<Path>)
    requires ValidIndex(index) && PathsOk(index, query, opts, a) && PathsOk(index, query, opts, b)
    ensures PathsOk(index, query, opts, a + b)
  {
  }

  lemma SinkKeeps(index: SymbolIndex, query: Query, opts: Options, w: Worklist, rest: seq<Frame>, frame: Frame)
    requires ValidIndex(index) && SearchInv(index, query, opts, w) && w.queue == rest + [frame]
    requires FramesOk(index, query, opts, w.visited, rest) && FrameOk(index, query, opts, w.visited, frame)
    requires HitsSink(index, query, PointOf(frame))
    ensures SearchInv(index, query, opts, w.(queue := rest, visited := w.visited + {PointOf(frame)},
                                             paths := w.paths + [frame.hops + [query.sinkHop]]))
  {
    var path := frame.hops + [query.sinkHop];
    var w' := w.(queue := rest, visited := w.visited + {PointOf(frame)}, paths := w.paths + [path]);
    SinkIsWitnessed(index, query, opts, w.visited, frame);
    FramesStayOk(index, query, opts, w.visited, w'.visited, rest);
    PathsOkBoth(index, query, opts, w.paths, [path]);
    GivenUpStays(index, query, opts, w, w');
    AnnotatedGrows(index, query, w, w');
    hide ValidIndex, FramesOk, GivenUpOk, HitsSink, SinkPath, PathsOk, Covers, Annotated;
    assert path in w'.paths;
    assert rest + [] == rest;
    CoversAfterVisit(index, query, w, rest, frame, [], w');
  }

  lemma GivingUpKeeps(index: SymbolIndex, query: Query, opts: Options, w: Worklist, rest: seq<Frame>, frame: Frame)
    requires ValidIndex(index) && SearchInv(index, query, opts, w) && w.queue == rest + [frame]
    requires FramesOk(index, query, opts, w.visited, rest) && FrameOk(index, query, opts, w.visited, frame)
    requires PointOf(frame) !in w.visited && !HitsSink(index, query, PointOf(frame))
    requires |frame.hops| > opts.maxDepth
    ensures SearchInv(index, query, opts, w.(queue := rest, visited := w.visited + {PointOf(frame)},
                                             givenUp := w.givenUp + {PointOf(frame)}))
  {
    hide ValidIndex, FramesOk, HitsSink, PathsOk, GivenUpOk, Covers, Annotated, UnansweredReported;
    var w' := w.(queue := rest, visited := w.visited + {PointOf(frame)}, givenUp := w.givenUp + {PointOf(frame)});
    GivenUpGrows(index, query, opts, w, frame, w');
    AnnotatedGrows(index, query, w, w');
    FramesStayOk(index, query, opts, w.visited, w'.visited, rest);
    assert rest + [] == rest;
    CoversAfterVisit(index, query, w, rest, frame, [], w');
  }

  lemma GivenUpGrows(index: SymbolIndex, query: Query, opts: Options, w: Worklist, frame: Frame, w': Worklist)
    requires ValidIndex(index) && GivenUpOk(index, query, opts, w) && FrameOk(index, query, opts, w.visited, frame)
    requires PointOf(frame) !in w.visited && !HitsSink(index, query, PointOf(frame))
    requires |frame.hops| > opts.maxDepth
    requires w'.visited == w.visited + {PointOf(frame)} && w'.givenUp == w.givenUp + {PointOf(frame)}
    ensures GivenUpOk(index, query, opts, w')
  {
    var points := TrailIsSimple(index, query, opts, w.visited, frame);
    assert SimplyReached(index, query, PointOf(frame), opts.maxDepth + 1);
    hide SimplyReached, HitsSink, Chain, FrameOk;
  }

  lemma ExpandingKeeps(index: SymbolIndex, query: Query, opts: Options, w: Worklist, rest: seq<Frame>, frame: Frame)
    requires ValidIndex(index) && SearchInv(index, query, opts, w) && w.queue == rest + [frame]
    requires FramesOk(index, query, opts, w.visited, rest) && FrameOk(index, query, opts, w.visited, frame)
    requires PointOf(frame) !in w.visited && !HitsSink(index, query, PointOf(frame))
    requires |frame.hops| <= opts.maxDepth && w.count <= opts.maxFrontier
    ensures var y := CallsYield(index, opts, frame, 0, opts.maxFrontier - w.count);
            && PathsOk(index, query, opts, w.paths + y.paths)
            && (!y.full ==>
                  SearchInv(index, query, opts,
                            w.(queue := rest + y.frames, visited := w.visited + {PointOf(frame)},
                               count := w.count + |y.frames|, paths := w.paths + y.paths)))
  {
    hide ValidIndex, FrameOk, FramesSucceed, PathsEnd, CallsYield, Witnessed, HitsSink, UnansweredReported, Annotated;
    var y := CallsYield(index, opts, frame, 0, opts.maxFrontier - w.count);
    var w' := w.(queue := rest + y.frames, visited := w.visited + {PointOf(frame)},
                 count := w.count + |y.frames|, paths := w.paths + y.paths);
    ExpansionIsExact(index, opts, frame, opts.maxFrontier - w.count);
    SuccessorsOk(index, query, opts, w.visited, frame, y.frames);
    EndsAreWitnessed(index, query, opts, w.visited, frame, y.paths);
    FramesStayOk(index, query, opts, w.visited, w'.visited, rest);
    FramesOkBoth(index, query, opts, w'.visited, rest, y.frames);
    PathsOkBoth(index, query, opts, w.paths, y.paths);
    GivenUpStays(index, query, opts, w, w');
    hide FramesOk, GivenUpOk, SinkReported, PathsOk, Covers, StepsCovered;
    if !y.full {
      ReportedWithMore(index, PointOf(frame), w.paths, y.paths);
      AnnotatedGrows(index, query, w, w');
      CoversAfterVisit(index, query, w, rest, frame, y.frames, w');
    }
  }

  /** Over the whole search every path is witnessed, and a search that ran empty has covered what it followed. */
  lemma {:induction false} RunKeeps(index: SymbolIndex, query: Query, opts: Options, w: Worklist)
    requires ValidIndex(index) && SearchInv(index, query, opts, w) && w.count <= opts.maxFrontier
    ensures var final := Run(index, query, opts, w).final;
            && PathsOk(index, query, opts, final.paths)
            && (final.queue == [] ==> SearchInv(index, query, opts, final))
    decreases opts.maxFrontier - w.count, |w.queue|
  {
    if w.queue != [] {
      TurnKeeps(index, query, opts, w);
      hide Turn, SearchInv, PathsOk;
      match Turn(index, query, opts, w)
      case Continue(next) => RunKeeps(index, query, opts, next);
      case Stop(_, _) =>
    }
  }

  // ------------------------------------------------------------------------
  // Completeness
  // ------------------------------------------------------------------------

  /**
   Some point lies at the end of two chains that avoid the sink: one of exactly `maxDepth + 1` points without
   repetition, and one of at most `maxDepth`. Only then can the search give a point up too early.
   */
  ghost predicate Race(index: SymbolIndex, query: Query, opts: Options)
    requires ValidIndex(index)
  {
    exists p :: SimplyReached(index, query, p, opts.maxDepth + 1) && PlainWithin(index, query, p, opts.maxDepth)
  }

  /** No point was given up that a short enough chain reaches too. */
  ghost predicate GaveUpLate(index: SymbolIndex, query: Query, opts: Options, w: Worklist)
    requires ValidIndex(index)
  {
    forall p | p in w.givenUp :: !PlainWithin(index, query, p, opts.maxDepth)
  }

  lemma NoRaceGivesUpLate(index: SymbolIndex, query: Query, opts: Options, w: Worklist)
    requires ValidIndex(index) && GivenUpOk(index, query, opts, w)
    ensures !Race(index, query, opts) ==> GaveUpLate(index, query, opts, w)
  {
  }

  lemma {:induction false} PlainChainIsFollowed(index: SymbolIndex, query: Query, opts: Options, w: Worklist,
                                                points: seq<Point>, hops: Path)
    requires ValidIndex(index) && Covers(index, query, w) && w.queue == []
    requires GaveUpLate(index, query, opts, w)
    requires Chain(index, query, points, hops) && |points| <= opts.maxDepth + 1
    requires Plain(index, query, points[..|points| - 1])
    ensures points[|points| - 1] in w.visited
    decreases |points|
  {
    var n := |points| - 1;
    if n > 0 {
      var before := points[..n];
      assert Plain(index, query, before[..n - 1]);
      PlainChainIsFollowed(index, query, opts, w, before, hops[..n]);
      assert PlainWithin(index, query, before[n - 1], opts.maxDepth);
      assert StepExists(index, points[n - 1], points[n], hops[n]);
      hide StepExists, HitsSink, Chain;
    }
  }

  /**
   When the search ran empty, every point that a chain of at most `maxDepth` points reaches past the sink was
   followed, exactly when none of those that were given up for their depth is such a point.
   */
  lemma FollowsAllExactly(index: SymbolIndex, query: Query, opts: Options, w: Worklist)
    requires ValidIndex(index) && SearchInv(index, query, opts, w) && w.queue == []
    ensures (forall p | PlainWithin(index, query, p, opts.maxDepth) :: p in w.visited && p !in w.givenUp)
            <==> GaveUpLate(index, query, opts, w)
  {
    if GaveUpLate(index, query, opts, w) {
      forall p | PlainWithin(index, query, p, opts.maxDepth)
        ensures p in w.visited && p !in w.givenUp
      {
        var points, hops :|
          && Chain(index, query, points, hops) && |points| <= opts.maxDepth && points[|points| - 1] == p
          && Plain(index, query, points);
        assert Plain(index, query, points[..|points| - 1]);
        PlainChainIsFollowed(index, query, opts, w, points, hops);
      }
    }
  }

  /** The chain up to its first point at the sink. */
  lemma {:induction false} UpToSink(index: SymbolIndex, query: Query, points: seq<Point>, hops: Path)
    returns (points': seq<Point>, hops': Path)
    requires ValidIndex(index) && Chain(index, query, points, hops)
    requires HitsSink(index, query, points[|points| - 1])
    ensures Chain(index, query, points', hops') && |points'| <= |points|
    ensures HitsSink(index, query, points'[|points'| - 1])
    ensures Plain(index, query, points'[..|points'| - 1])
    decreases |points|
  {
    var n := |points| - 1;
    if k :| 0 <= k < n && HitsSink(index, query, points[k]) {
      points', hops' := UpToSink(index, query, points[..k + 1], hops[..k + 1]);
    } else {
      points', hops' := points, hops;
    }
  }

  /** A search that ran empty and gave up nothing too early reports a sink exactly if `maxDepth + 1` hops reach one. */
  lemma ExhaustedSearchIsComplete(index: SymbolIndex, query: Query, opts: Options, w: Worklist)
    requires ValidIndex(index) && SearchInv(index, query, opts, w) && w.queue == []
    requires GaveUpLate(index, query, opts, w)
    ensures SinkReported(index, query, w.paths) <==> SinkWithin(index, query, opts.maxDepth + 1)
  {
    if SinkWithin(index, query, opts.maxDepth + 1) {
      var hops, p :| Reaches(index, query, hops, p) && |hops| <= opts.maxDepth + 1 && HitsSink(index, query, p);
      var points :| Chain(index, query, points, hops) && points[|points| - 1] == p;
      var points', hops' := UpToSink(index, query, points, hops);
      PlainChainIsFollowed(index, query, opts, w, points', hops');
      assert VisitedSink(index, query, w.visited);
    }
    ReportedIsWithin(index, query, opts, w.paths);
  }

  lemma ReportedIsWithin(index: SymbolIndex, query: Query, opts: Options, paths: seq<Path>)
    requires ValidIndex(index) && PathsOk(index, query, opts, paths)
    ensures SinkReported(index, query, paths) ==> SinkWithin(index, query, opts.maxDepth + 1)
  {
    if path :| path in paths && SinkPath(index, query, path) {
      var p :| Reaches(index, query, path[..|path| - 1], p) && HitsSink(index, query, p);
    }
  }

  ghost predicate AllUnansweredReported(index: SymbolIndex, query: Query, opts: Options, paths: seq<Path>)
    requires ValidIndex(index)
  {
    forall p | PlainWithin(index, query, p, opts.maxDepth) :: UnansweredReported(index, p, paths)
  }

  /** Such a search also reports every tainted call without an answer that `maxDepth` hops reach past the sink. */
  lemma ExhaustedSearchReportsUnanswered(index: SymbolIndex, query: Query, opts: Options, w: Worklist)
    requires ValidIndex(index) && SearchInv(index, query, opts, w) && w.queue == []
    requires GaveUpLate(index, query, opts, w)
    ensures AllUnansweredReported(index, query, opts, w.paths)
  {
    FollowsAllExactly(index, query, opts, w);
    forall p | PlainWithin(index, query, p, opts.maxDepth)
      ensures !HitsSink(index, query, p)
    {
    }
    hide PlainWithin, UnansweredReported;
  }
}
