/** A program whose sink the search misses, although no limit cut it off and three hops reach the sink. */
module TaintRace {
  import opened Wrappers
  import opened Taint
  import opened TaintSearch
  import opened TaintCoverage

  const X: TaintSet := {"x"}

  /** `main(x)` calls `q(x)` and then `p(x)`, `p(x)` calls `q(x)`, and `q(x)` calls `s(x)`, where the sink is. */
  const PROGRAM := SymbolIndex(
    [FnDef("main", ["x"]), FnDef("p", ["x"]), FnDef("q", ["x"]), FnDef("s", ["x"])],
    map["main" := [0], "p" := [1], "q" := [2], "s" := [3]],
    [CallSite(1, 0, 0, "q", [["x"]]), CallSite(2, 1, 0, "p", [["x"]]),
     CallSite(3, 2, 1, "q", [["x"]]), CallSite(4, 3, 2, "s", [["x"]])],
    [],
    map[0 := [0, 1], 1 := [2], 2 := [3]],
    map[])

  const QUERY := Query(0, X, Hop(0, 0, Source, []), Some(3), ["x"], Hop(5, 4, Sink, []))

  const OPTIONS := Options(2, 10, 10)

  /** The function that call site `c` calls. */
  const TARGETS: seq<nat> := [2, 1, 2, 3]

  function HopOf(c: nat): Hop
    requires c < 4
  {
    Hop(PROGRAM.callSites[c].line, PROGRAM.callSites[c].start, Resolved, [])
  }

  lemma ProgramIsValid()
    ensures ValidIndex(PROGRAM) && LinesFollowBytes(PROGRAM) && ValidQuery(PROGRAM, QUERY)
  {
    NamesAreValid();
    CallsAreValid();
  }

  lemma NamesAreValid()
    ensures ValidNames(PROGRAM.fnDefs, 4, PROGRAM.byName)
  {
    assert PROGRAM.fnDefs[0].name == "main" && PROGRAM.fnDefs[1].name == "p";
    assert PROGRAM.fnDefs[2].name == "q" && PROGRAM.fnDefs[3].name == "s";
    forall name
      ensures NamedBy(PROGRAM.fnDefs, 4, name, NameList(PROGRAM.byName, name))
    {
      var ids := NameList(PROGRAM.byName, name);
      if name in PROGRAM.byName {
        assert ids == [ids[0]] && forall f: nat | f < 4 && HasName(PROGRAM.fnDefs, f, name) :: f == ids[0];
      }
    }
  }

  lemma CallsAreValid()
    ensures ValidGroups(CallOwners(PROGRAM.callSites), CallStarts(PROGRAM.callSites), 4, PROGRAM.callsByFn)
    ensures ValidGroups(AssignOwners(PROGRAM.assignments), AssignStarts(PROGRAM.assignments), 0, PROGRAM.assignsByFn)
  {
    var owners, starts := CallOwners(PROGRAM.callSites), CallStarts(PROGRAM.callSites);
    assert owners == [0, 0, 1, 2] && starts == [0, 1, 2, 3];
    forall fn
      ensures ValidGroup(owners, starts, 4, fn, ListOf(PROGRAM.callsByFn, fn))
    {
      assert owners[0] == 0 && owners[1] == 0 && owners[2] == 1 && owners[3] == 2;
      var ids := ListOf(PROGRAM.callsByFn, fn);
      assert fn == 0 ==> ids[0] == 0 && ids[1] == 1;
      assert fn == 1 ==> ids[0] == 2;
      assert fn == 2 ==> ids[0] == 3;
    }
  }

  lemma EveryCallIsTainted(p: Point, c: nat)
    requires c < 4 && p.tainted == X && ValidIndex(PROGRAM)
    ensures TaintedArgs(PROGRAM, p, c) == [0]
  {
    hide ValidIndex;
    assert PROGRAM.callSites[c].args == [["x"]];
    assert TaintAt(PROGRAM, p.fn, X, PROGRAM.callSites[c].start) == X;
    assert "x" in ["x"] && PathIsTainted("x", X);
    assert [["x"]][..0] == [];
    assert TaintedArgPositions([["x"]], X) == [0];
  }

  lemma EveryBindingIsExact()
    ensures BoundTo(["x"], [0]) == X && !Overflows(["x"], [0])
  {
    assert BindsAt(["x"], [0][0], "x");
  }

  lemma CallOf(c: nat)
    requires c < 4
    ensures Candidates(PROGRAM, PROGRAM.callSites[c].callee) == [TARGETS[c]]
    ensures PROGRAM.fnDefs[TARGETS[c]].params == ["x"]
  {
  }

  lemma EntryOf(frame: Frame, c: nat)
    requires ValidIndex(PROGRAM) && frame.tainted == X && c < 4
    ensures Entry(PROGRAM, frame, c, TARGETS[c]) == Frame(TARGETS[c], X, frame.hops + [HopOf(c)])
  {
    EveryCallIsTainted(PointOf(frame), c);
    EveryBindingIsExact();
    CallOf(c);
    hide ValidIndex, TaintedArgs, BoundTo, Overflows;
  }

  lemma OneFrame(frame: Frame, c: nat, room: nat)
    requires ValidIndex(PROGRAM) && frame.tainted == X && |frame.hops| <= 2 && c < 4 && room > 0
    ensures CallYield(PROGRAM, OPTIONS, frame, c, room)
         == Yield([Frame(TARGETS[c], X, frame.hops + [HopOf(c)])], [], false)
  {
    hide ValidIndex, TaintedArgs, Entry, CandidateYield;
    EveryCallIsTainted(PointOf(frame), c);
    CallOf(c);
    OneCandidate(frame, c, room);
  }

  lemma OneCandidate(frame: Frame, c: nat, room: nat)
    requires ValidIndex(PROGRAM) && frame.tainted == X && |frame.hops| <= 2 && c < 4 && room > 0
    ensures CandidateYield(PROGRAM, OPTIONS, frame, c, 0, room)
         == Yield([Frame(TARGETS[c], X, frame.hops + [HopOf(c)])], [], false)
  {
    hide ValidIndex, TaintedArgs, Entry;
    CallOf(c);
    EntryOf(frame, c);
    hide Candidates;
    assert CandidateYield(PROGRAM, OPTIONS, frame, c, 1, room - 1) == Yield([], [], false);
  }

  lemma FirstCall(frame: Frame, k: nat, room: nat)
    requires ValidIndex(PROGRAM) && frame.tainted == X && |frame.hops| <= 2 && room > 0
    requires k < |CallsOf(PROGRAM, frame.fn)| && CallsOf(PROGRAM, frame.fn)[k] < 4
    ensures var c := CallsOf(PROGRAM, frame.fn)[k];
            CallsYield(PROGRAM, OPTIONS, frame, k, room)
            == Behind([Frame(TARGETS[c], X, frame.hops + [HopOf(c)])], [],
                      CallsYield(PROGRAM, OPTIONS, frame, k + 1, room - 1))
  {
    hide ValidIndex, CallYield;
    OneFrame(frame, CallsOf(PROGRAM, frame.fn)[k], room);
  }

  lemma NoMoreCalls(frame: Frame, room: nat)
    requires ValidIndex(PROGRAM)
    ensures CallsYield(PROGRAM, OPTIONS, frame, |CallsOf(PROGRAM, frame.fn)|, room) == Yield([], [], false)
  {
    hide ValidIndex;
  }

  // ------------------------------------------------------------------------
  // The run
  // ------------------------------------------------------------------------

  const MAIN := Frame(0, X, [QUERY.source])
  const P := Frame(1, X, [QUERY.source, HopOf(1)])
  const Q_EARLY := Frame(2, X, [QUERY.source, HopOf(0)])
  const Q_LATE := Frame(2, X, [QUERY.source, HopOf(1), HopOf(2)])
  const S := Frame(3, X, [QUERY.source, HopOf(0), HopOf(3)])

  lemma MainCalls()
    requires ValidIndex(PROGRAM)
    ensures CallsYield(PROGRAM, OPTIONS, MAIN, 0, 10) == Yield([Q_EARLY, P], [], false)
  {
    hide ValidIndex, CallsYield;
    assert CallsOf(PROGRAM, MAIN.fn) == [0, 1];
    FirstCall(MAIN, 0, 10);
    FirstCall(MAIN, 1, 9);
    NoMoreCalls(MAIN, 8);
    assert MAIN.hops + [HopOf(0)] == Q_EARLY.hops && MAIN.hops + [HopOf(1)] == P.hops;
  }

  lemma PCalls()
    requires ValidIndex(PROGRAM)
    ensures CallsYield(PROGRAM, OPTIONS, P, 0, 8) == Yield([Q_LATE], [], false)
  {
    hide ValidIndex, CallsYield;
    assert CallsOf(PROGRAM, P.fn) == [2];
    FirstCall(P, 0, 8);
    NoMoreCalls(P, 7);
    assert P.hops + [HopOf(2)] == Q_LATE.hops;
  }

  const AFTER_MAIN := Worklist([Q_EARLY, P], {PointOf(MAIN)}, {}, 2, [])
  const AFTER_P := Worklist([Q_EARLY, Q_LATE], {PointOf(MAIN), PointOf(P)}, {}, 3, [])
  const AFTER_Q_LATE :=
    Worklist([Q_EARLY], {PointOf(MAIN), PointOf(P), PointOf(Q_LATE)}, {PointOf(Q_LATE)}, 3, [])

  lemma NotAtSink(p: Point)
    requires ValidIndex(PROGRAM) && p.fn != 3
    ensures !HitsSink(PROGRAM, QUERY, p)
  {
    hide ValidIndex, TaintOnLine;
  }

  lemma MainTurn()
    requires ValidIndex(PROGRAM)
    ensures Turn(PROGRAM, QUERY, OPTIONS, InitialWorklist(QUERY)) == Continue(AFTER_MAIN)
  {
    hide ValidIndex, CallsYield, HitsSink;
    MainCalls();
    NotAtSink(PointOf(MAIN));
    assert InitialWorklist(QUERY).queue[..0] == [];
  }

  lemma PTurn()
    requires ValidIndex(PROGRAM)
    ensures Turn(PROGRAM, QUERY, OPTIONS, AFTER_MAIN) == Continue(AFTER_P)
  {
    hide ValidIndex, CallsYield, HitsSink;
    PCalls();
    NotAtSink(PointOf(P));
    assert AFTER_MAIN.queue[..1] == [Q_EARLY];
  }

  lemma QTurns()
    requires ValidIndex(PROGRAM)
    ensures Turn(PROGRAM, QUERY, OPTIONS, AFTER_P) == Continue(AFTER_Q_LATE)
    ensures Turn(PROGRAM, QUERY, OPTIONS, AFTER_Q_LATE) == Continue(AFTER_Q_LATE.(queue := []))
  {
    hide ValidIndex, CallsYield, HitsSink;
    NotAtSink(PointOf(Q_LATE));
    assert AFTER_P.queue[..1] == [Q_EARLY] && AFTER_Q_LATE.queue[..0] == [];
  }

  // ------------------------------------------------------------------------
  // What it misses
  // ------------------------------------------------------------------------

  lemma StepOf(c: nat)
    requires ValidIndex(PROGRAM) && c < 4
    ensures StepExists(PROGRAM, Point(PROGRAM.callSites[c].inFn, X), Point(TARGETS[c], X), HopOf(c))
  {
    hide ValidIndex, TaintedArgs, BoundTo, Overflows, Candidates;
    var p, q := Point(PROGRAM.callSites[c].inFn, X), Point(TARGETS[c], X);
    EveryCallIsTainted(p, c);
    EveryBindingIsExact();
    CallOf(c);
    assert CallStep(PROGRAM, p, q, c, HopOf(c));
  }

  lemma ChainExtends(points: seq<Point>, hops: Path, q: Point, hop: Hop)
    requires ValidIndex(PROGRAM) && Chain(PROGRAM, QUERY, points, hops)
    requires StepExists(PROGRAM, points[|points| - 1], q, hop)
    ensures Chain(PROGRAM, QUERY, points + [q], hops + [hop])
  {
    hide ValidIndex, StepExists;
  }

  /** A step through call site `c` makes the chain of one frame the chain of the next. */
  lemma FrameFollows(points: seq<Point>, frame: Frame, c: nat, next: Frame)
    requires ValidIndex(PROGRAM) && c < 4 && Chain(PROGRAM, QUERY, points, frame.hops)
    requires points[|points| - 1] == PointOf(frame) == Point(PROGRAM.callSites[c].inFn, X)
    requires next == Frame(TARGETS[c], X, frame.hops + [HopOf(c)])
    ensures Chain(PROGRAM, QUERY, points + [PointOf(next)], next.hops)
  {
    StepOf(c);
    hide ValidIndex, StepExists, Chain;
    ChainExtends(points, frame.hops, PointOf(next), HopOf(c));
  }

  lemma ChainOfMain()
    requires ValidIndex(PROGRAM)
    ensures Chain(PROGRAM, QUERY, [PointOf(MAIN)], MAIN.hops)
  {
  }

  lemma ChainsThroughEarlyQ()
    requires ValidIndex(PROGRAM)
    ensures Chain(PROGRAM, QUERY, [PointOf(MAIN), PointOf(Q_EARLY)], Q_EARLY.hops)
    ensures Chain(PROGRAM, QUERY, [PointOf(MAIN), PointOf(Q_EARLY), PointOf(S)], S.hops)
  {
    hide ValidIndex, Chain;
    ChainOfMain();
    FrameFollows([PointOf(MAIN)], MAIN, 0, Q_EARLY);
    assert [PointOf(MAIN)] + [PointOf(Q_EARLY)] == [PointOf(MAIN), PointOf(Q_EARLY)];
    FrameFollows([PointOf(MAIN), PointOf(Q_EARLY)], Q_EARLY, 3, S);
    assert [PointOf(MAIN), PointOf(Q_EARLY)] + [PointOf(S)] == [PointOf(MAIN), PointOf(Q_EARLY), PointOf(S)];
  }

  lemma ChainThroughP()
    requires ValidIndex(PROGRAM)
    ensures Chain(PROGRAM, QUERY, [PointOf(MAIN), PointOf(P), PointOf(Q_LATE)], Q_LATE.hops)
  {
    hide ValidIndex, Chain;
    ChainOfMain();
    FrameFollows([PointOf(MAIN)], MAIN, 1, P);
    assert [PointOf(MAIN)] + [PointOf(P)] == [PointOf(MAIN), PointOf(P)];
    FrameFollows([PointOf(MAIN), PointOf(P)], P, 2, Q_LATE);
    assert [PointOf(MAIN), PointOf(P)] + [PointOf(Q_LATE)] == [PointOf(MAIN), PointOf(P), PointOf(Q_LATE)];
  }

  lemma QIsReachedTwice()
    requires ValidIndex(PROGRAM)
    ensures Race(PROGRAM, QUERY, OPTIONS)
  {
    hide ValidIndex, HitsSink, Chain;
    ChainsThroughEarlyQ();
    ChainThroughP();
    var q := PointOf(Q_LATE);
    NotAtSink(PointOf(MAIN));
    NotAtSink(PointOf(P));
    NotAtSink(q);
    assert Plain(PROGRAM, QUERY, [PointOf(MAIN), PointOf(P), q]);
    assert Plain(PROGRAM, QUERY, [PointOf(MAIN), q]);
    assert SimplyReached(PROGRAM, QUERY, q, 3);
    assert PlainWithin(PROGRAM, QUERY, q, 2);
  }

  lemma SinkIsReached()
    requires ValidIndex(PROGRAM)
    ensures SinkWithin(PROGRAM, QUERY, 3)
  {
    hide ValidIndex, Chain, HitsSink;
    ChainsThroughEarlyQ();
    SIsAtSink();
    var points := [PointOf(MAIN), PointOf(Q_EARLY), PointOf(S)];
    assert points[|points| - 1] == PointOf(S);
    assert Reaches(PROGRAM, QUERY, S.hops, PointOf(S));
  }

  lemma SIsAtSink()
    requires ValidIndex(PROGRAM)
    ensures HitsSink(PROGRAM, QUERY, PointOf(S))
  {
    hide ValidIndex;
    assert TaintOnLine(PROGRAM, 3, X, 5) == X;
    assert "x" in ["x"] && PathIsTainted("x", X);
  }

  /**
   The search ends without a limit, reports nothing, and three hops reach the sink: the point of `q` is given up
   at the depth limit, and then skipped where a shorter chain enters it.
   */
  lemma StackOrderLosesSink()
    ensures ValidIndex(PROGRAM) && LinesFollowBytes(PROGRAM) && ValidQuery(PROGRAM, QUERY)
    ensures var found := Run(PROGRAM, QUERY, OPTIONS, InitialWorklist(QUERY));
            !found.truncated && found.final.queue == [] && found.final.paths == []
    ensures SinkWithin(PROGRAM, QUERY, OPTIONS.maxDepth + 1) && Race(PROGRAM, QUERY, OPTIONS)
  {
    hide ValidIndex, Turn, SinkWithin, Race;
    ProgramIsValid();
    MainTurn();
    PTurn();
    QTurns();
    SinkIsReached();
    QIsReachedTwice();
    assert Run(PROGRAM, QUERY, OPTIONS, AFTER_P) == Run(PROGRAM, QUERY, OPTIONS, AFTER_Q_LATE);
  }
}
