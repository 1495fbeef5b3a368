/**
 Taint tracing: a worklist search from a tainted source to a sink over a symbol index, with
 name-based call resolution and assignment propagation kept up to date call site by call site.
 */
module Taint {
  type TaintSet = set<string>

  datatype FnDef = FnDef(name: string, params: seq<string>)

  datatype CallSite = CallSite(line: nat, start: nat, inFn: nat, callee: string, args: seq<seq<string>>)

  datatype Assignment = Assignment(line: nat, start: nat, inFn: nat, lhs: seq<string>, rhs: seq<string>)

  datatype SymbolIndex = SymbolIndex(
    fnDefs: seq<FnDef>,
    byName: map<string, seq<nat>>,
    callSites: seq<CallSite>,
    assignments: seq<Assignment>,
    callsByFn: map<nat, seq<nat>>,
    assignsByFn: map<nat, seq<nat>>)

  // ------------------------------------------------------------------------
  // Dotted paths
  // ------------------------------------------------------------------------

  predicate IsDottedPrefix(prefix: string, path: string) {
    |prefix| < |path| && prefix <= path && path[|prefix|] == '.'
  }

  predicate PathIsTainted(path: string, tainted: TaintSet) {
    path != "" && (path in tainted || exists t | t in tainted :: IsDottedPrefix(path, t) || IsDottedPrefix(t, path))
  }

  function Split(path: string): (parts: seq<string>)
    ensures parts != []
  {
    if path == "" then [""]
    else
      var rest := Split(path[1..]);
      if path[0] == '.' then [""] + rest else [[path[0]] + rest[0]] + rest[1..]
  }

  ghost function Joined(parts: seq<string>): string
    requires parts != []
  {
    if |parts| == 1 then parts[0] else parts[0] + "." + Joined(parts[1..])
  }

  /** The components hold no dot, and dots between them give the path again. */
  lemma {:induction false} SplitMeaning(path: string)
    ensures Joined(Split(path)) == path
    ensures forall i | 0 <= i < |Split(path)| :: '.' !in Split(path)[i]
  {
    if path != "" {
      SplitMeaning(path[1..]);
      SplitStep(path);
      hide Split;
      JoinedAttach(path[0], Split(path[1..]));
      assert path == [path[0]] + path[1..];
    }
  }

  lemma JoinedAttach(c: char, parts: seq<string>)
    requires parts != []
    ensures Joined(Attach(c, parts)) == [c] + Joined(parts)
    ensures (forall i | 0 <= i < |parts| :: '.' !in parts[i]) ==>
              forall i | 0 <= i < |Attach(c, parts)| :: '.' !in Attach(c, parts)[i]
  {
    if c == '.' {
      assert Attach(c, parts)[1..] == parts;
      assert Joined(Attach(c, parts)) == "" + "." + Joined(parts);
    } else {
      assert Attach(c, parts)[1..] == parts[1..];
      if |parts| > 1 {
        assert [c] + parts[0] + "." + Joined(parts[1..]) == [c] + (parts[0] + "." + Joined(parts[1..]));
      }
    }
  }

  /** A dotted prefix is a proper prefix of the list of components. */
  lemma {:induction false} DottedPrefixMeaning(a: string, b: string)
    ensures IsDottedPrefix(a, b) <==> Split(a) < Split(b)
    ensures Split(a) == Split(b) <==> a == b
    decreases |a|
  {
    if a == "" {
      if b != "" {
        var rest := Split(b[1..]);
        if b[0] == '.' {
          assert Split(b)[0] == "";
        } else {
          assert Split(b)[0] != "";
        }
      }
    } else if b == "" {
      assert |Split(a)| > 1 || Split(a)[0] != "";
    } else {
      var ra, rb := Split(a[1..]), Split(b[1..]);
      DottedPrefixMeaning(a[1..], b[1..]);
      assert a == [a[0]] + a[1..] && b == [b[0]] + b[1..];
      SplitStep(a);
      SplitStep(b);
      PrefixStep(a[0], ra, b[0], rb);
      assert IsDottedPrefix(a, b) <==> a[0] == b[0] && IsDottedPrefix(a[1..], b[1..]);
    }
  }

  function Attach(c: char, parts: seq<string>): seq<string>
    requires parts != []
  {
    if c == '.' then [""] + parts else [[c] + parts[0]] + parts[1..]
  }

  lemma SplitStep(a: string)
    requires a != ""
    ensures Split(a) == Attach(a[0], Split(a[1..]))
  {
  }

  lemma PrefixStep(c: char, xs: seq<string>, d: char, ys: seq<string>)
    requires xs != [] && ys != []
    ensures Attach(c, xs) == Attach(d, ys) <==> c == d && xs == ys
    ensures Attach(c, xs) < Attach(d, ys) <==> c == d && xs < ys
  {
    var a, b := Attach(c, xs), Attach(d, ys);
    if c == '.' || d == '.' {
      assert a[1..] == if c == '.' then xs else xs[1..];
      assert b[1..] == if d == '.' then ys else ys[1..];
      assert c == '.' <==> a[0] == "";
      assert d == '.' <==> b[0] == "";
    } else {
      assert a[0][1..] == xs[0] && b[0][1..] == ys[0];
      assert a[0] == b[0] <==> c == d && xs[0] == ys[0];
      assert a[1..] == xs[1..] && b[1..] == ys[1..];
      assert xs == [xs[0]] + xs[1..] && ys == [ys[0]] + ys[1..];
    }
  }

  /** A path is tainted exactly when its components and those of some tainted path extend one another. */
  lemma TaintedMeansComparable(path: string, tainted: TaintSet)
    ensures PathIsTainted(path, tainted) <==>
            path != "" && exists t :: t in tainted && (Split(path) <= Split(t) || Split(t) <= Split(path))
  {
    forall t | t in tainted
      ensures (Split(path) <= Split(t) || Split(t) <= Split(path)) <==>
              path == t || IsDottedPrefix(path, t) || IsDottedPrefix(t, path)
    {
      DottedPrefixMeaning(path, t);
      DottedPrefixMeaning(t, path);
    }
  }

  // ------------------------------------------------------------------------
  // Propagation through assignments and calls
  // ------------------------------------------------------------------------

  function Elements(names: seq<string>): set<string> {
    set n | n in names
  }

  function AfterAssignment(running: TaintSet, a: Assignment): TaintSet {
    if exists r | r in a.rhs :: PathIsTainted(r, running) then running + Elements(a.lhs) else running
  }

  /** All assignments of a list in order. */
  ghost function AfterAll(assignments: seq<Assignment>, ids: seq<nat>, seed: TaintSet): TaintSet
    requires forall k | 0 <= k < |ids| :: ids[k] < |assignments|
  {
    if ids == [] then seed
    else AfterAssignment(AfterAll(assignments, ids[..|ids| - 1], seed), assignments[ids[|ids| - 1]])
  }

  /** From scratch: the assignments of a list that start before a byte. */
  ghost function AfterThoseBefore(assignments: seq<Assignment>, ids: seq<nat>, seed: TaintSet, byte: nat): TaintSet
    requires forall k | 0 <= k < |ids| :: ids[k] < |assignments|
  {
    if ids == [] then seed
    else
      var earlier := AfterThoseBefore(assignments, ids[..|ids| - 1], seed, byte);
      var a := assignments[ids[|ids| - 1]];
      if a.start < byte then AfterAssignment(earlier, a) else earlier
  }

  /** From scratch: the assignments of a list on lines above a line. */
  ghost function AfterThoseAbove(assignments: seq<Assignment>, ids: seq<nat>, seed: TaintSet, line: nat): TaintSet
    requires forall k | 0 <= k < |ids| :: ids[k] < |assignments|
  {
    if ids == [] then seed
    else
      var earlier := AfterThoseAbove(assignments, ids[..|ids| - 1], seed, line);
      var a := assignments[ids[|ids| - 1]];
      if a.line < line then AfterAssignment(earlier, a) else earlier
  }

  predicate AnyTainted(ids: seq<string>, running: TaintSet) {
    exists id | id in ids :: PathIsTainted(id, running)
  }

  function TaintedArgPositions(args: seq<seq<string>>, running: TaintSet): (positions: seq<nat>)
    ensures forall k | 0 <= k < |positions| :: positions[k] < |args| && AnyTainted(args[positions[k]], running)
    ensures forall p: nat | p < |args| && AnyTainted(args[p], running) :: p in positions
  {
    if args == [] then []
    else
      var last := |args| - 1;
      TaintedArgPositions(args[..last], running) + if AnyTainted(args[last], running) then [last] else []
  }

  /** The parameters that tainted positions reach; a position beyond the list reaches all of them. */
  ghost predicate Binds(params: seq<string>, positions: seq<nat>, x: string) {
    exists i :: 0 <= i < |positions| && BindsAt(params, positions[i], x)
  }

  ghost predicate BindsAt(params: seq<string>, p: nat, x: string) {
    if p < |params| then x == params[p] else x in params
  }

  ghost function BoundTo(params: seq<string>, positions: seq<nat>): TaintSet {
    set x | x in params && Binds(params, positions, x)
  }

  ghost predicate Overflows(params: seq<string>, positions: seq<nat>) {
    exists i :: 0 <= i < |positions| && positions[i] >= |params|
  }

  method BindArgs(params: seq<string>, positions: seq<nat>) returns (bound: TaintSet, imprecise: bool)
    ensures bound == BoundTo(params, positions) && (imprecise <==> Overflows(params, positions))
    ensures forall x :: x in bound <==> Binds(params, positions, x)
  {
    bound, imprecise := {}, false;
    for i := 0 to |positions|
      invariant forall x :: x in bound <==> exists j :: 0 <= j < i && BindsAt(params, positions[j], x)
      invariant imprecise <==> exists j :: 0 <= j < i && positions[j] >= |params|
    {
      var p := positions[i];
      if p < |params| {
        bound := bound + {params[p]};
      } else {
        bound := bound + Elements(params);
        imprecise := true;
      }
    }
  }

  // ------------------------------------------------------------------------
  // The index
  // ------------------------------------------------------------------------

  function CallsOf(index: SymbolIndex, fn: nat): seq<nat> {
    ListOf(index.callsByFn, fn)
  }

  function AssignsOf(index: SymbolIndex, fn: nat): seq<nat> {
    ListOf(index.assignsByFn, fn)
  }

  function Candidates(index: SymbolIndex, callee: string): seq<nat> {
    NameList(index.byName, callee)
  }

  /** By key, and entries with the same key in the order in which they were recorded; so nothing is listed twice. */
  ghost predicate SortedBy(keys: seq<nat>, ids: seq<nat>) {
    && (forall k | 0 <= k < |ids| :: ids[k] < |keys|)
    && forall i, j | 0 <= i < j < |ids| ::
         keys[ids[i]] < keys[ids[j]] || (keys[ids[i]] == keys[ids[j]] && ids[i] < ids[j])
  }

  /** All and only the entries below `n` that `fn` owns. */
  ghost predicate OwnedBy(owners: seq<nat>, n: nat, fn: nat, ids: seq<nat>)
    requires n <= |owners|
  {
    && (forall k | 0 <= k < |ids| :: ids[k] < n && owners[ids[k]] == fn)
    && forall c: nat | c < n && owners[c] == fn :: c in ids
  }

  function ListOf(groups: map<nat, seq<nat>>, fn: nat): seq<nat> {
    if fn in groups then groups[fn] else []
  }

  function CallOwners(callSites: seq<CallSite>): (r: seq<nat>)
    ensures |r| == |callSites|
  {
    seq(|callSites|, i requires 0 <= i < |callSites| => callSites[i].inFn)
  }

  function CallStarts(callSites: seq<CallSite>): (r: seq<nat>)
    ensures |r| == |callSites|
  {
    seq(|callSites|, i requires 0 <= i < |callSites| => callSites[i].start)
  }

  function AssignOwners(assignments: seq<Assignment>): (r: seq<nat>)
    ensures |r| == |assignments|
  {
    seq(|assignments|, i requires 0 <= i < |assignments| => assignments[i].inFn)
  }

  function AssignStarts(assignments: seq<Assignment>): (r: seq<nat>)
    ensures |r| == |assignments|
  {
    seq(|assignments|, i requires 0 <= i < |assignments| => assignments[i].start)
  }

  /** All and only the functions below `n` of that name, once each and in order; nothing has the empty name. */
  ghost predicate NamedBy(fnDefs: seq<FnDef>, n: nat, name: string, ids: seq<nat>)
    requires n <= |fnDefs|
  {
    && (forall k | 0 <= k < |ids| :: ids[k] < n && HasName(fnDefs, ids[k], name))
    && (forall i, j | 0 <= i < j < |ids| :: ids[i] < ids[j])
    && forall f: nat | f < n && HasName(fnDefs, f, name) :: f in ids
  }

  predicate HasName(fnDefs: seq<FnDef>, f: nat, name: string) {
    f < |fnDefs| && fnDefs[f].name == name && name != ""
  }

  /** Per function every call site and assignment in byte order; per name every function that has it. */
  ghost predicate ValidIndex(index: SymbolIndex) {
    && ValidGroups(CallOwners(index.callSites), CallStarts(index.callSites), |index.callSites|, index.callsByFn)
    && ValidGroups(AssignOwners(index.assignments), AssignStarts(index.assignments), |index.assignments|,
                   index.assignsByFn)
    && ValidNames(index.fnDefs, |index.fnDefs|, index.byName)
  }

  ghost predicate ValidNames(fnDefs: seq<FnDef>, n: nat, byName: map<string, seq<nat>>)
    requires n <= |fnDefs|
  {
    forall name :: NamedBy(fnDefs, n, name, NameList(byName, name))
  }

  /** Inside one function later bytes are not on earlier lines. */
  ghost predicate LinesFollowBytes(index: SymbolIndex) {
    forall a, b | 0 <= a < |index.assignments| && 0 <= b < |index.assignments|
                  && index.assignments[a].inFn == index.assignments[b].inFn
                  && index.assignments[a].start <= index.assignments[b].start ::
      index.assignments[a].line <= index.assignments[b].line
  }

  method FinishIndex(fnDefs: seq<FnDef>, callSites: seq<CallSite>, assignments: seq<Assignment>)
    returns (index: SymbolIndex)
    ensures index.fnDefs == fnDefs && index.callSites == callSites && index.assignments == assignments
    ensures ValidIndex(index)
  {
    var byName := GroupByName(fnDefs);
    var callsByFn := GroupByOwner(CallOwners(callSites), CallStarts(callSites));
    var assignsByFn := GroupByOwner(AssignOwners(assignments), AssignStarts(assignments));
    index := SymbolIndex(fnDefs, byName, callSites, assignments, callsByFn, assignsByFn);
  }

  function NameList(byName: map<string, seq<nat>>, name: string): seq<nat> {
    if name in byName then byName[name] else []
  }

  method GroupByName(fnDefs: seq<FnDef>) returns (byName: map<string, seq<nat>>)
    ensures ValidNames(fnDefs, |fnDefs|, byName)
  {
    byName := map[];
    for id := 0 to |fnDefs|
      invariant ValidNames(fnDefs, id, byName)
    {
      var own := fnDefs[id].name;
      ghost var before := byName;
      if own != "" {
        byName := byName[own := NameList(byName, own) + [id]];
      }
      NamedByNext(fnDefs, id, before, byName);
    }
  }

  lemma NamedByNext(fnDefs: seq<FnDef>, id: nat, before: map<string, seq<nat>>, byName: map<string, seq<nat>>)
    requires id < |fnDefs|
    requires ValidNames(fnDefs, id, before)
    requires byName == if fnDefs[id].name == "" then before
                       else before[fnDefs[id].name := NameList(before, fnDefs[id].name) + [id]]
    ensures ValidNames(fnDefs, id + 1, byName)
  {
    var n := id + 1;
    forall name
      ensures NamedBy(fnDefs, n, name, NameList(byName, name))
    {
      assert NamedBy(fnDefs, id, name, NameList(before, name));
      if HasName(fnDefs, id, name) {
        NamedByPush(fnDefs, id, n, name, NameList(before, name));
      } else {
        assert NameList(byName, name) == NameList(before, name);
        NotNamed(fnDefs, id, n, name, NameList(before, name));
      }
    }
  }

  lemma NamedByPush(fnDefs: seq<FnDef>, id: nat, n: nat, name: string, ids: seq<nat>)
    requires id < |fnDefs| && n == id + 1 && HasName(fnDefs, id, name) && NamedBy(fnDefs, id, name, ids)
    ensures NamedBy(fnDefs, n, name, ids + [id])
  {
    var list := ids + [id];
    assert list[|ids|] == id;
    forall f: nat | f < n && HasName(fnDefs, f, name)
      ensures f in list
    {
      if f < id {
        assert f in ids;
      }
    }
  }

  lemma NotNamed(fnDefs: seq<FnDef>, id: nat, n: nat, name: string, ids: seq<nat>)
    requires id < |fnDefs| && n == id + 1 && !HasName(fnDefs, id, name) && NamedBy(fnDefs, id, name, ids)
    ensures NamedBy(fnDefs, n, name, ids)
  {
  }

  /** Every list is sorted and holds exactly the entries below `n` of its owner. */
  ghost predicate ValidGroups(owners: seq<nat>, starts: seq<nat>, n: nat, groups: map<nat, seq<nat>>)
    requires n <= |owners|
  {
    forall fn :: ValidGroup(owners, starts, n, fn, ListOf(groups, fn))
  }

  ghost predicate ValidGroup(owners: seq<nat>, starts: seq<nat>, n: nat, fn: nat, ids: seq<nat>)
    requires n <= |owners|
  {
    SortedBy(starts, ids) && OwnedBy(owners, n, fn, ids)
  }

  /** Pushes every entry on the list of its owner; sorting by start byte is stable. */
  method GroupByOwner(owners: seq<nat>, starts: seq<nat>) returns (groups: map<nat, seq<nat>>)
    requires |owners| == |starts|
    ensures ValidGroups(owners, starts, |owners|, groups)
  {
    groups := map[];
    for i := 0 to |owners|
      invariant ValidGroups(owners, starts, i, groups)
    {
      hide SortedBy, OwnedBy;
      var before := ListOf(groups, owners[i]);
      assert ValidGroup(owners, starts, i, owners[i], before);
      OwnedAreEarlier(owners, i, owners[i], before);
      var list, k := InsertSorted(starts, before, i);
      OwnedByInsert(owners, i, before, list, k);
      GroupsNext(owners, starts, i, i + 1, groups, list);
      groups := groups[owners[i] := list];
    }
  }

  lemma OwnedAreEarlier(owners: seq<nat>, n: nat, fn: nat, ids: seq<nat>)
    requires n <= |owners| && OwnedBy(owners, n, fn, ids)
    ensures forall k | 0 <= k < |ids| :: ids[k] < n
  {
  }

  lemma OwnedByInsert(owners: seq<nat>, i: nat, before: seq<nat>, list: seq<nat>, k: nat)
    requires i < |owners| && k <= |before|
    requires OwnedBy(owners, i, owners[i], before)
    requires list == before[..k] + [i] + before[k..]
    ensures OwnedBy(owners, i + 1, owners[i], list)
  {
    assert before == before[..k] + before[k..];
    assert list[k] == i;
    forall c: nat | c < i + 1 && owners[c] == owners[i]
      ensures c in list
    {
      if c < i {
        assert c in before;
      }
    }
  }

  lemma GroupsNext(owners: seq<nat>, starts: seq<nat>, i: nat, n: nat, groups: map<nat, seq<nat>>, list: seq<nat>)
    requires i < |owners| && n == i + 1
    requires ValidGroups(owners, starts, i, groups)
    requires ValidGroup(owners, starts, n, owners[i], list)
    ensures ValidGroups(owners, starts, n, groups[owners[i] := list])
  {
    var next := groups[owners[i] := list];
    forall fn
      ensures ValidGroup(owners, starts, n, fn, ListOf(next, fn))
    {
      assert ValidGroup(owners, starts, i, fn, ListOf(groups, fn));
      if fn != owners[i] {
        assert ListOf(next, fn) == ListOf(groups, fn);
        NotOwned(owners, i, fn, ListOf(groups, fn));
      }
    }
  }

  lemma NotOwned(owners: seq<nat>, i: nat, fn: nat, ids: seq<nat>)
    requires i < |owners| && owners[i] != fn && OwnedBy(owners, i, fn, ids)
    ensures OwnedBy(owners, i + 1, fn, ids)
  {
  }

  method InsertSorted(starts: seq<nat>, list: seq<nat>, c: nat) returns (r: seq<nat>, k: nat)
    requires SortedBy(starts, list) && c < |starts|
    requires forall j | 0 <= j < |list| :: list[j] < c
    ensures k <= |list| && r == list[..k] + [c] + list[k..]
    ensures SortedBy(starts, r)
  {
    k := |list|;
    while k > 0 && starts[c] < starts[list[k - 1]]
      invariant 0 <= k <= |list|
      invariant forall j | k <= j < |list| :: starts[c] < starts[list[j]]
    {
      k := k - 1;
    }
    r := list[..k] + [c] + list[k..];
    InsertKeepsSorted(starts, list, c, k);
  }

  lemma InsertKeepsSorted(starts: seq<nat>, list: seq<nat>, c: nat, k: nat)
    requires SortedBy(starts, list) && c < |starts| && k <= |list|
    requires forall j | 0 <= j < |list| :: list[j] < c
    requires forall j | k <= j < |list| :: starts[c] < starts[list[j]]
    requires k > 0 ==> starts[list[k - 1]] <= starts[c]
    ensures SortedBy(starts, list[..k] + [c] + list[k..])
  {
    var r := list[..k] + [c] + list[k..];
    assert forall i | 0 <= i < |r| :: r[i] == if i < k then list[i] else if i == k then c else list[i - 1];
    forall i, j | 0 <= i < j < |r|
      ensures starts[r[i]] < starts[r[j]] || (starts[r[i]] == starts[r[j]] && r[i] < r[j])
    {
      if i < k {
        assert i == k - 1 || starts[list[i]] <= starts[list[k - 1]];
      }
    }
  }

  // ------------------------------------------------------------------------
  // Incremental propagation is propagation from scratch
  // ------------------------------------------------------------------------

  /** In a sorted list the assignments before a byte are a prefix. */
  lemma {:induction false} SplitAtByte(assignments: seq<Assignment>, ids: seq<nat>, seed: TaintSet, n: nat, byte: nat)
    requires forall k | 0 <= k < |ids| :: ids[k] < |assignments|
    requires forall i, j | 0 <= i < j < |ids| :: assignments[ids[i]].start <= assignments[ids[j]].start
    requires n <= |ids|
    requires forall k | 0 <= k < n :: assignments[ids[k]].start < byte
    requires n < |ids| ==> assignments[ids[n]].start >= byte
    ensures AfterThoseBefore(assignments, ids, seed, byte) == AfterAll(assignments, ids[..n], seed)
    decreases |ids|
  {
    if ids == [] {
      assert ids[..n] == [];
    } else if n < |ids| {
      var m := |ids| - 1;
      assert ids[..m][..n] == ids[..n];
      SplitAtByte(assignments, ids[..m], seed, n, byte);
    } else {
      var m := |ids| - 1;
      assert ids[..n] == ids;
      assert ids[..m][..m] == ids[..m];
      SplitAtByte(assignments, ids[..m], seed, m, byte);
    }
  }

  lemma {:induction false} SplitAtLine(assignments: seq<Assignment>, ids: seq<nat>, seed: TaintSet, n: nat, line: nat)
    requires forall k | 0 <= k < |ids| :: ids[k] < |assignments|
    requires forall i, j | 0 <= i < j < |ids| :: assignments[ids[i]].line <= assignments[ids[j]].line
    requires n <= |ids|
    requires forall k | 0 <= k < n :: assignments[ids[k]].line < line
    requires n < |ids| ==> assignments[ids[n]].line >= line
    ensures AfterThoseAbove(assignments, ids, seed, line) == AfterAll(assignments, ids[..n], seed)
    decreases |ids|
  {
    if ids == [] {
      assert ids[..n] == [];
    } else if n < |ids| {
      var m := |ids| - 1;
      assert ids[..m][..n] == ids[..n];
      SplitAtLine(assignments, ids[..m], seed, n, line);
    } else {
      var m := |ids| - 1;
      assert ids[..n] == ids;
      assert ids[..m][..m] == ids[..m];
      SplitAtLine(assignments, ids[..m], seed, m, line);
    }
  }

  lemma AssignsFacts(index: SymbolIndex, fn: nat)
    requires ValidIndex(index)
    ensures var ids := AssignsOf(index, fn);
            && (forall k | 0 <= k < |ids| :: ids[k] < |index.assignments| && index.assignments[ids[k]].inFn == fn)
            && (forall i, j | 0 <= i < j < |ids| :: index.assignments[ids[i]].start <= index.assignments[ids[j]].start)
            && (LinesFollowBytes(index) ==>
                  forall i, j | 0 <= i < j < |ids| :: index.assignments[ids[i]].line <= index.assignments[ids[j]].line)
  {
    var ids := AssignsOf(index, fn);
    var starts, owners := AssignStarts(index.assignments), AssignOwners(index.assignments);
    assert ValidGroup(owners, starts, |owners|, fn, ids);
    forall i, j | 0 <= i < j < |ids|
      ensures index.assignments[ids[i]].start <= index.assignments[ids[j]].start
    {
      assert starts[ids[i]] <= starts[ids[j]];
    }
    forall k | 0 <= k < |ids|
      ensures ids[k] < |index.assignments| && index.assignments[ids[k]].inFn == fn
    {
      assert owners[ids[k]] == fn;
    }
  }

  /** Stops at the first assignment on or below the line. */
  method PropagateUntil(index: SymbolIndex, fn: nat, seed: TaintSet, line: nat) returns (running: TaintSet)
    requires ValidIndex(index) && LinesFollowBytes(index)
    ensures running == TaintOnLine(index, fn, seed, line)
  {
    AssignsFacts(index, fn);
    running := PropagateList(index.assignments, AssignsOf(index, fn), seed, line);
  }

  method PropagateList(assignments: seq<Assignment>, ids: seq<nat>, seed: TaintSet, line: nat)
    returns (running: TaintSet)
    requires forall k | 0 <= k < |ids| :: ids[k] < |assignments|
    requires forall i, j | 0 <= i < j < |ids| :: assignments[ids[i]].line <= assignments[ids[j]].line
    ensures running == AfterThoseAbove(assignments, ids, seed, line)
  {
    running := seed;
    var n := 0;
    assert ids[..0] == [];
    while n < |ids| && assignments[ids[n]].line < line
      invariant 0 <= n <= |ids|
      invariant forall k | 0 <= k < n :: assignments[ids[k]].line < line
      invariant running == AfterAll(assignments, ids[..n], seed)
    {
      assert ids[..n + 1][..n] == ids[..n];
      running := AfterAssignment(running, assignments[ids[n]]);
      n := n + 1;
    }
    SplitAtLine(assignments, ids, seed, n, line);
  }

  /** What is tainted in a function when a byte is reached: every assignment before it, applied from scratch. */
  ghost function TaintAt(index: SymbolIndex, fn: nat, seed: TaintSet, byte: nat): TaintSet
    requires ValidIndex(index)
  {
    AssignsFacts(index, fn);
    AfterThoseBefore(index.assignments, AssignsOf(index, fn), seed, byte)
  }

  ghost function TaintOnLine(index: SymbolIndex, fn: nat, seed: TaintSet, line: nat): TaintSet
    requires ValidIndex(index)
  {
    AssignsFacts(index, fn);
    AfterThoseAbove(index.assignments, AssignsOf(index, fn), seed, line)
  }

  lemma AfterAssignmentMonotone(s: TaintSet, t: TaintSet, a: Assignment)
    requires s <= t
    ensures AfterAssignment(s, a) <= AfterAssignment(t, a)
  {
  }

  lemma {:induction false} PropagationMonotone(
    assignments: seq<Assignment>, ids: seq<nat>, s: TaintSet, t: TaintSet, byte: nat, line: nat)
    requires forall k | 0 <= k < |ids| :: ids[k] < |assignments|
    requires s <= t
    ensures AfterThoseBefore(assignments, ids, s, byte) <= AfterThoseBefore(assignments, ids, t, byte)
    ensures AfterThoseAbove(assignments, ids, s, line) <= AfterThoseAbove(assignments, ids, t, line)
    decreases |ids|
  {
    if ids != [] {
      var earlier, a := ids[..|ids| - 1], assignments[ids[|ids| - 1]];
      PropagationMonotone(assignments, earlier, s, t, byte, line);
      AfterAssignmentMonotone(
        AfterThoseBefore(assignments, earlier, s, byte), AfterThoseBefore(assignments, earlier, t, byte), a);
      AfterAssignmentMonotone(
        AfterThoseAbove(assignments, earlier, s, line), AfterThoseAbove(assignments, earlier, t, line), a);
    }
  }
}
