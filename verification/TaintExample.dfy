/** A program whose sink is reached through an assignment and a call, and what the search reports for it. */
module TaintExample {
  import opened Wrappers
  import opened Taint
  import opened TaintSearch

  /** `main(x)` assigns `y = x` and calls `s(y)`; the sink in `s(p)` uses `p`. */
  const PROGRAM := SymbolIndex(
    [FnDef("main", ["x"]), FnDef("s", ["p"])],
    map["main" := [0], "s" := [1]],
    [CallSite(2, 2, 0, "s", [["y"]])],
    [Assignment(1, 1, 0, ["y"], ["x"])],
    map[0 := [0]],
    map[0 := [0]])

  const QUERY := Query(0, {"x"}, Hop(0, 0, Source, []), Some(1), ["p"], Hop(3, 3, Sink, []))

  const OPTIONS := Options(5, 10, 10)

  const CALL := Hop(2, 2, Resolved, [])

  const MAIN := Frame(0, {"x"}, [QUERY.source])

  const S := Frame(1, {"p"}, [QUERY.source, CALL])

  lemma ProgramIsValid()
    ensures ValidIndex(PROGRAM) && LinesFollowBytes(PROGRAM) && ValidQuery(PROGRAM, QUERY)
  {
    NamesAreValid();
    ListsAreValid();
  }

  lemma NamesAreValid()
    ensures ValidNames(PROGRAM.fnDefs, 2, PROGRAM.byName)
  {
    assert PROGRAM.fnDefs[0].name == "main" && PROGRAM.fnDefs[1].name == "s";
    forall name
      ensures NamedBy(PROGRAM.fnDefs, 2, name, NameList(PROGRAM.byName, name))
    {
      var ids := NameList(PROGRAM.byName, name);
      if name in PROGRAM.byName {
        assert ids == [ids[0]] && forall f: nat | f < 2 && HasName(PROGRAM.fnDefs, f, name) :: f == ids[0];
      }
    }
  }

  lemma ListsAreValid()
    ensures ValidGroups(CallOwners(PROGRAM.callSites), CallStarts(PROGRAM.callSites), 1, PROGRAM.callsByFn)
    ensures ValidGroups(AssignOwners(PROGRAM.assignments), AssignStarts(PROGRAM.assignments), 1, PROGRAM.assignsByFn)
  {
    assert CallOwners(PROGRAM.callSites) == [0] == AssignOwners(PROGRAM.assignments);
    OneEntry(CallStarts(PROGRAM.callSites));
    OneEntry(AssignStarts(PROGRAM.assignments));
  }

  lemma OneEntry(starts: seq<nat>)
    requires |starts| == 1
    ensures ValidGroups([0], starts, 1, map[0 := [0]])
  {
    forall fn
      ensures ValidGroup([0], starts, 1, fn, ListOf(map[0 := [0]], fn))
    {
      var ids := ListOf(map[0 := [0]], fn);
      assert fn == 0 ==> ids[0] == 0;
    }
  }

  lemma CallIsTainted()
    requires ValidIndex(PROGRAM)
    ensures TaintedArgs(PROGRAM, PointOf(MAIN), 0) == [0]
  {
    hide ValidIndex;
    assert TaintAt(PROGRAM, 0, {"x"}, 2) == {"x", "y"} by {
      assert [0 as nat][..0] == [];
      assert "x" in ["x"] && PathIsTainted("x", {"x"});
      assert Elements(["y"]) == {"y"};
    }
    assert "y" in ["y"] && PathIsTainted("y", {"x", "y"});
    assert [["y"]][..0] == [];
    assert TaintedArgPositions([["y"]], {"x", "y"}) == [0];
  }

  lemma MainCalls()
    requires ValidIndex(PROGRAM)
    ensures CallsYield(PROGRAM, OPTIONS, MAIN, 0, 10) == Yield([S], [], false)
  {
    CallIsTainted();
    hide ValidIndex, TaintedArgs;
    assert BoundTo(["p"], [0]) == {"p"} && !Overflows(["p"], [0]) by {
      assert BindsAt(["p"], [0][0], "p");
    }
    hide BoundTo, Overflows;
    assert CallsOf(PROGRAM, 0) == [0] && Candidates(PROGRAM, "s") == [1];
    assert Entry(PROGRAM, MAIN, 0, 1) == S by {
      assert MAIN.hops + [CALL] == S.hops;
    }
    hide Entry;
    assert CandidateYield(PROGRAM, OPTIONS, MAIN, 0, 1, 9) == Yield([], [], false);
    assert CallYield(PROGRAM, OPTIONS, MAIN, 0, 10) == Yield([S], [], false);
    hide CallYield;
    assert CallsYield(PROGRAM, OPTIONS, MAIN, 1, 9) == Yield([], [], false);
  }

  lemma SinkIsHit()
    requires ValidIndex(PROGRAM)
    ensures HitsSink(PROGRAM, QUERY, PointOf(S)) && !HitsSink(PROGRAM, QUERY, PointOf(MAIN))
  {
    hide ValidIndex;
    assert TaintOnLine(PROGRAM, 1, {"p"}, 3) == {"p"};
    assert "p" in ["p"] && PathIsTainted("p", {"p"});
  }

  /** The one path goes from the source through the call to the sink. */
  lemma FlowIsReported()
    ensures ValidIndex(PROGRAM) && LinesFollowBytes(PROGRAM) && ValidQuery(PROGRAM, QUERY)
    ensures Run(PROGRAM, QUERY, OPTIONS, InitialWorklist(QUERY)).final.paths == [[QUERY.source, CALL, QUERY.sinkHop]]
  {
    hide ValidIndex, CallsYield, HitsSink;
    ProgramIsValid();
    MainCalls();
    SinkIsHit();
    var expanded := Worklist([S], {PointOf(MAIN)}, {}, 1, []);
    var reported := Worklist([], {PointOf(MAIN), PointOf(S)}, {}, 1, [[QUERY.source, CALL, QUERY.sinkHop]]);
    assert Turn(PROGRAM, QUERY, OPTIONS, InitialWorklist(QUERY)) == Continue(expanded) by {
      assert InitialWorklist(QUERY).queue[..0] == [];
    }
    assert Turn(PROGRAM, QUERY, OPTIONS, expanded) == Continue(reported) by {
      assert expanded.queue[..0] == [] && PointOf(S) !in expanded.visited;
      assert S.hops + [QUERY.sinkHop] == [QUERY.source, CALL, QUERY.sinkHop];
      assert [] + [S.hops + [QUERY.sinkHop]] == reported.paths;
    }
    hide Turn;
    assert Run(PROGRAM, QUERY, OPTIONS, reported) == Outcome(reported, false);
    assert Run(PROGRAM, QUERY, OPTIONS, expanded) == Outcome(reported, false);
  }
}
