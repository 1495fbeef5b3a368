/**
 The tool scheduler: a batch of resource claims is turned into ordered phases.
 Calls of one Parallel phase run concurrently; phases run one after another.
 */
module Scheduler {

  datatype Resource = File(path: string) | Git | Shell

  datatype AccessKind = Read | Write

  datatype Access = Access(resource: Resource, kind: AccessKind)

  type Claims = seq<Access>

  /** A claim as a tool declares it, before it becomes an access to a resource. */
  datatype DeclaredClaim = DeclaredClaim(key: string, access: AccessKind)

  datatype ExecutionPhase =
    | Parallel(calls: seq<nat>)
    | Sequential(calls: seq<nat>)

  const GLOBAL_KEY := "global:tool-execution"

  // ------------------------------------------------------------------------
  // Dependency detection
  // ------------------------------------------------------------------------

  predicate IsGlobal(claims: Claims) {
    exists a | a in claims :: a.resource == File(GLOBAL_KEY)
  }

  predicate HasDependency(earlier: Claims, later: Claims) {
    if IsGlobal(earlier) || IsGlobal(later) then
      true
    else
      var earlierWrites := set a | a in earlier && a.kind == Write :: a.resource;
      var earlierReads := set a | a in earlier && a.kind == Read :: a.resource;
      exists l | l in later ::
        if l.kind == Write then l.resource in earlierWrites || l.resource in earlierReads
        else l.resource in earlierWrites
  }

  /** The relation the set lookups stand for: a shared resource that one side writes, or a barrier. */
  ghost predicate Conflict(a: Claims, b: Claims) {
    || IsGlobal(a)
    || IsGlobal(b)
    || exists x, y | x in a && y in b :: x.resource == y.resource && (x.kind == Write || y.kind == Write)
  }

  lemma DependencyIsConflict(a: Claims, b: Claims)
    ensures HasDependency(a, b) <==> Conflict(a, b)
    ensures HasDependency(a, b) <==> HasDependency(b, a)
  {
    if HasDependency(a, b) {
      DependencyImpliesConflict(a, b);
      ConflictImpliesDependency(b, a);
    } else if Conflict(a, b) {
      ConflictImpliesDependency(a, b);
    } else if HasDependency(b, a) {
      DependencyImpliesConflict(b, a);
      ConflictImpliesDependency(a, b);
    }
  }

  lemma DependencyImpliesConflict(a: Claims, b: Claims)
    requires HasDependency(a, b)
    ensures Conflict(a, b)
  {
    if !IsGlobal(a) && !IsGlobal(b) {
      var l :| l in b &&
               if l.kind == Write then exists x :: x in a && x.resource == l.resource
               else exists x :: x in a && x.kind == Write && x.resource == l.resource;
      var x :| x in a && x.resource == l.resource && (l.kind == Write || x.kind == Write);
    }
  }

  lemma ConflictImpliesDependency(a: Claims, b: Claims)
    requires Conflict(a, b)
    ensures HasDependency(a, b)
  {
    if !IsGlobal(a) && !IsGlobal(b) {
      var x, y :| x in a && y in b && x.resource == y.resource && (x.kind == Write || y.kind == Write);
      assert x.kind == Write || x.kind == Read;
    }
  }

  predicate HasIntraLayerConflicts(indices: seq<nat>, accesses: seq<Claims>)
    requires forall k | 0 <= k < |indices| :: indices[k] < |accesses|
  {
    exists x, y | 0 <= x < y < |indices| :: HasDependency(accesses[indices[x]], accesses[indices[y]])
  }

  // ------------------------------------------------------------------------
  // The layering, as a function of the claims
  // ------------------------------------------------------------------------

  function Max(a: nat, b: nat): nat {
    if a < b then b else a
  }

  ghost function Depth(accesses: seq<Claims>, i: nat): nat
    requires i < |accesses|
    decreases i, i + 1
  {
    DepthBelow(accesses, i, i)
  }

  /** One more than the deepest of the calls below `j` that call `i` depends on, 0 if there is none. */
  ghost function DepthBelow(accesses: seq<Claims>, i: nat, j: nat): nat
    requires j <= i < |accesses|
    decreases i, j
  {
    if j == 0 then 0
    else if HasDependency(accesses[j - 1], accesses[i]) then
      Max(DepthBelow(accesses, i, j - 1), Depth(accesses, j - 1) + 1)
    else DepthBelow(accesses, i, j - 1)
  }

  ghost function MaxDepth(accesses: seq<Claims>, n: nat): nat
    requires n <= |accesses|
  {
    if n == 0 then 0 else Max(MaxDepth(accesses, n - 1), Depth(accesses, n - 1))
  }

  /** The calls below `n` of depth `d`, in batch order. */
  ghost function LayerCalls(accesses: seq<Claims>, d: nat, n: nat): seq<nat>
    requires n <= |accesses|
  {
    if n == 0 then []
    else LayerCalls(accesses, d, n - 1) + if Depth(accesses, n - 1) == d then [n - 1] else []
  }

  ghost function PhaseAt(accesses: seq<Claims>, d: nat): ExecutionPhase {
    var calls := LayerCalls(accesses, d, |accesses|);
    if d > 0 && |calls| == 1 then Sequential(calls) else Parallel(calls)
  }

  ghost function Layering(accesses: seq<Claims>): seq<ExecutionPhase> {
    if accesses == [] then []
    else PhasesUpTo(accesses, MaxDepth(accesses, |accesses|) + 1)
  }

  ghost function PhasesUpTo(accesses: seq<Claims>, count: nat): (phases: seq<ExecutionPhase>)
    ensures |phases| == count
    ensures forall d | 0 <= d < count :: phases[d] == PhaseAt(accesses, d)
  {
    if count == 0 then [] else PhasesUpTo(accesses, count - 1) + [PhaseAt(accesses, count - 1)]
  }

  // ------------------------------------------------------------------------
  // The algorithm
  // ------------------------------------------------------------------------

  method PhasesForAccesses(accesses: seq<Claims>) returns (phases: seq<ExecutionPhase>)
    ensures phases == Layering(accesses)
  {
    hide HasDependency, LayerCalls, Depth;
    var n := |accesses|;
    var dependsOn := DependencyEdges(accesses);
    var depth := Depths(accesses, dependsOn);
    var maxDepth := 0;
    for i := 0 to n
      invariant maxDepth == MaxDepth(accesses, i)
    {
      maxDepth := Max(maxDepth, depth[i]);
    }
    phases := [];
    for d := 0 to maxDepth + 1
      invariant accesses == [] ==> phases == []
      invariant accesses != [] ==> phases == PhasesUpTo(accesses, d)
    {
      var indices := CallsAtDepth(accesses, depth, d);
      if indices == [] {
        EmptyLayerOnlyInEmptyBatch(accesses, d);
        continue;
      }
      NoConflictInLayer(accesses, d);
      var hasConflicts := HasIntraLayerConflicts(indices, accesses);
      if hasConflicts {
        phases := phases + [Sequential(indices)];
      } else {
        var allDependent := forall k | 0 <= k < |indices| :: dependsOn[indices[k]] != [];
        LayerMembers(accesses, d, n);
        assert indices[0] in indices;
        DependentIffDeep(accesses, dependsOn, indices[0]);
        if allDependent && |indices| == 1 {
          phases := phases + [Sequential(indices)];
        } else {
          phases := phases + [Parallel(indices)];
        }
      }
    }
  }

  method DependencyEdges(accesses: seq<Claims>) returns (dependsOn: seq<seq<nat>>)
    ensures IsEdgeList(accesses, dependsOn, |accesses|)
  {
    dependsOn := [];
    for i := 0 to |accesses|
      invariant IsEdgeList(accesses, dependsOn, i)
    {
      var edges: seq<nat> := [];
      for j := 0 to i
        invariant forall m | 0 <= m < |edges| :: edges[m] < j && HasDependency(accesses[edges[m]], accesses[i])
        invariant forall k: nat | k < j && HasDependency(accesses[k], accesses[i]) :: k in edges
      {
        if HasDependency(accesses[j], accesses[i]) {
          edges := edges + [j];
        }
      }
      dependsOn := dependsOn + [edges];
    }
  }

  ghost predicate IsEdgeList(accesses: seq<Claims>, dependsOn: seq<seq<nat>>, n: nat)
    requires n <= |accesses|
  {
    && |dependsOn| == n
    && (forall i, m | 0 <= i < n && 0 <= m < |dependsOn[i]| ::
          dependsOn[i][m] < i && HasDependency(accesses[dependsOn[i][m]], accesses[i]))
    && (forall i, j: nat | 0 <= i < n && j < i && HasDependency(accesses[j], accesses[i]) :: j in dependsOn[i])
  }

  method Depths(accesses: seq<Claims>, dependsOn: seq<seq<nat>>) returns (depth: seq<nat>)
    requires IsEdgeList(accesses, dependsOn, |accesses|)
    ensures |depth| == |accesses|
    ensures forall i | 0 <= i < |accesses| :: depth[i] == Depth(accesses, i)
  {
    depth := [];
    for i := 0 to |accesses|
      invariant |depth| == i
      invariant forall j | 0 <= j < i :: depth[j] == Depth(accesses, j)
    {
      hide DepthBelow, HasDependency;
      var deepest: nat := 0;
      var edges := dependsOn[i];
      for k := 0 to |edges|
        invariant deepest <= Depth(accesses, i)
        invariant forall m | 0 <= m < k :: depth[edges[m]] + 1 <= deepest
      {
        var j := edges[k];
        DepthBelowIsUpperBound(accesses, i, i, j);
        deepest := Max(deepest, depth[j] + 1);
      }
      forall j: nat | j < i && HasDependency(accesses[j], accesses[i])
        ensures Depth(accesses, j) + 1 <= deepest
      {
        assert j in edges;
      }
      DepthBelowIsLeast(accesses, i, i, deepest);
      depth := depth + [deepest];
    }
  }

  method CallsAtDepth(accesses: seq<Claims>, depth: seq<nat>, d: nat) returns (indices: seq<nat>)
    requires |depth| == |accesses|
    requires forall i | 0 <= i < |accesses| :: depth[i] == Depth(accesses, i)
    ensures indices == LayerCalls(accesses, d, |accesses|)
  {
    indices := [];
    for i := 0 to |depth|
      invariant indices == LayerCalls(accesses, d, i)
    {
      if depth[i] == d {
        indices := indices + [i];
      }
    }
  }

  /** Production entry point: every declared claim is a named resource. */
  method AnalyzePlans(plans: seq<seq<DeclaredClaim>>) returns (phases: seq<ExecutionPhase>)
    ensures phases == Layering(AccessesOf(plans))
    ensures Partitions(|plans|, phases)
    ensures KeepsDeclaredOrder(plans, phases)
    ensures IsShortest(plans, phases)
    ensures forall d | 0 <= d < |phases| :: phases[d].Sequential? <==> d > 0 && |phases[d].calls| == 1
  {
    phases := PhasesForAccesses(AccessesOf(plans));
    PlansArePartitioned(plans);
    DeclaredOrderIsKept(plans);
    forall phaseOf, count: nat | RespectsDeclaredOrder(plans, phaseOf, count)
      ensures |phases| <= count
      ensures forall d: nat, i: nat | Runs(phases, d, i) :: i < |plans| && d <= phaseOf[i]
    {
      NoShorterSchedule(plans, phaseOf, count);
    }
    PhasesAreConflictFree(AccessesOf(plans));
  }

  // ------------------------------------------------------------------------
  // What the phases mean for the claims that were declared
  // ------------------------------------------------------------------------

  /** One side claims everything, or both claim the same key and one of them declares a write. */
  ghost predicate DeclaredConflict(a: seq<DeclaredClaim>, b: seq<DeclaredClaim>) {
    || (exists x :: x in a && x.key == GLOBAL_KEY)
    || (exists y :: y in b && y.key == GLOBAL_KEY)
    || exists x, y :: x in a && y in b && x.key == y.key && (x.access == Write || y.access == Write)
  }

  ghost predicate Runs(phases: seq<ExecutionPhase>, d: nat, i: nat) {
    d < |phases| && i in phases[d].calls
  }

  ghost predicate RunsSomewhere(phases: seq<ExecutionPhase>, i: nat) {
    exists d: nat :: Runs(phases, d, i)
  }

  /** Every call below `n` is in exactly one phase, once; no phase is empty, and each is in batch order. */
  ghost predicate Partitions(n: nat, phases: seq<ExecutionPhase>) {
    && (forall i: nat :: i < n <==> RunsSomewhere(phases, i))
    && (forall d: nat, e: nat, i: nat | Runs(phases, d, i) && Runs(phases, e, i) :: d == e)
    && (forall d, x, y | 0 <= d < |phases| && 0 <= x < y < |phases[d].calls| ::
          phases[d].calls[x] < phases[d].calls[y])
    && (forall d | 0 <= d < |phases| :: phases[d].calls != [])
  }

  /** Of two calls whose declared claims conflict, the earlier one is in an earlier phase. */
  ghost predicate KeepsDeclaredOrder(plans: seq<seq<DeclaredClaim>>, phases: seq<ExecutionPhase>) {
    forall d: nat, e: nat, i: nat, j: nat | Runs(phases, d, i) && Runs(phases, e, j) ::
      i < j < |plans| && DeclaredConflict(plans[i], plans[j]) ==> d < e
  }

  /** A schedule in `count` phases that runs calls with conflicting declared claims in batch order. */
  ghost predicate RespectsDeclaredOrder(plans: seq<seq<DeclaredClaim>>, phaseOf: seq<nat>, count: nat) {
    && |phaseOf| == |plans|
    && (forall i | 0 <= i < |phaseOf| :: phaseOf[i] < count)
    && forall i, j | 0 <= i < j < |plans| && DeclaredConflict(plans[i], plans[j]) :: phaseOf[i] < phaseOf[j]
  }

  /** No such schedule has fewer phases, or runs a call earlier. */
  ghost predicate IsShortest(plans: seq<seq<DeclaredClaim>>, phases: seq<ExecutionPhase>) {
    forall phaseOf, count: nat | RespectsDeclaredOrder(plans, phaseOf, count) ::
      && |phases| <= count
      && forall d: nat, i: nat | Runs(phases, d, i) :: i < |plans| && d <= phaseOf[i]
  }

  lemma DeclaredConflictIsConflict(plans: seq<seq<DeclaredClaim>>, i: nat, j: nat)
    requires i < |plans| && j < |plans|
    ensures Conflict(AccessesOf(plans)[i], AccessesOf(plans)[j]) <==> DeclaredConflict(plans[i], plans[j])
  {
    ClaimsCorrespond(plans, i);
    ClaimsCorrespond(plans, j);
  }

  /** The accesses of a plan are its claims, each with its key as a file and its own kind. */
  lemma ClaimsCorrespond(plans: seq<seq<DeclaredClaim>>, i: nat)
    requires i < |plans|
    ensures forall c :: c in plans[i] ==> Access(File(c.key), c.access) in AccessesOf(plans)[i]
    ensures forall a | a in AccessesOf(plans)[i] ::
              a.resource.File? && DeclaredClaim(a.resource.path, a.kind) in plans[i]
  {
    var plan, accesses := plans[i], AccessesOf(plans)[i];
    assert forall k | 0 <= k < |plan| :: accesses[k] == Access(File(plan[k].key), plan[k].access);
    forall a | a in accesses
      ensures a.resource.File? && DeclaredClaim(a.resource.path, a.kind) in plan
    {
      var k :| 0 <= k < |accesses| && accesses[k] == a;
      assert plan[k] == DeclaredClaim(a.resource.path, a.kind);
    }
  }

  lemma RunsAtDepth(accesses: seq<Claims>, d: nat, i: nat)
    ensures Runs(Layering(accesses), d, i) <==> i < |accesses| && Depth(accesses, i) == d
  {
    LayeringPartitions(accesses);
    LayerMembers(accesses, d, |accesses|);
  }

  lemma PlansArePartitioned(plans: seq<seq<DeclaredClaim>>)
    ensures Partitions(|plans|, Layering(AccessesOf(plans)))
  {
    var accesses := AccessesOf(plans);
    var phases := Layering(accesses);
    LayeringPartitions(accesses);
    assert |accesses| == |plans|;
    hide Layering, AccessesOf;
    forall i: nat, d: nat {
      RunsAtDepth(accesses, d, i);
    }
    forall i: nat
      ensures i < |plans| <==> RunsSomewhere(phases, i)
    {
      assert i < |plans| ==> Runs(phases, Depth(accesses, i), i);
    }
  }

  lemma DeclaredOrderIsKept(plans: seq<seq<DeclaredClaim>>)
    ensures KeepsDeclaredOrder(plans, Layering(AccessesOf(plans)))
  {
    var accesses := AccessesOf(plans);
    assert |accesses| == |plans|;
    hide Layering, AccessesOf;
    forall d: nat, e: nat, i: nat, j: nat | Runs(Layering(accesses), d, i) && Runs(Layering(accesses), e, j)
      ensures i < j < |plans| && DeclaredConflict(plans[i], plans[j]) ==> d < e
    {
      RunsAtDepth(accesses, d, i);
      RunsAtDepth(accesses, e, j);
      if i < j && DeclaredConflict(plans[i], plans[j]) {
        DeclaredConflictIsConflict(plans, i, j);
        DependencyIsConflict(accesses[i], accesses[j]);
        DependencyDeepens(accesses, i, j);
      }
    }
  }

  lemma NoShorterSchedule(plans: seq<seq<DeclaredClaim>>, phaseOf: seq<nat>, count: nat)
    requires RespectsDeclaredOrder(plans, phaseOf, count)
    ensures var phases := Layering(AccessesOf(plans));
            && |phases| <= count
            && forall d: nat, i: nat | Runs(phases, d, i) :: i < |plans| && d <= phaseOf[i]
  {
    var accesses := AccessesOf(plans);
    forall i: nat, j: nat | i < j < |plans| && Conflict(accesses[i], accesses[j])
      ensures phaseOf[i] < phaseOf[j]
    {
      DeclaredConflictIsConflict(plans, i, j);
    }
    assert |accesses| == |plans|;
    hide Layering, AccessesOf;
    LayeringIsOptimal(accesses, phaseOf, count);
    forall d: nat, i: nat {
      RunsAtDepth(accesses, d, i);
    }
  }

  function AccessesOf(plans: seq<seq<DeclaredClaim>>): (r: seq<Claims>)
    ensures |r| == |plans|
  {
    seq(|plans|, i requires 0 <= i < |plans| =>
      seq(|plans[i]|, k requires 0 <= k < |plans[i]| =>
        Access(File(plans[i][k].key), plans[i][k].access)))
  }

  // ------------------------------------------------------------------------
  // Depth facts
  // ------------------------------------------------------------------------

  lemma {:induction false} DepthBelowIsUpperBound(accesses: seq<Claims>, i: nat, j: nat, k: nat)
    requires k < j <= i < |accesses|
    requires HasDependency(accesses[k], accesses[i])
    ensures Depth(accesses, k) + 1 <= DepthBelow(accesses, i, j)
  {
    if k != j - 1 {
      DepthBelowIsUpperBound(accesses, i, j - 1, k);
    }
  }

  lemma {:induction false} DepthBelowIsLeast(accesses: seq<Claims>, i: nat, j: nat, bound: nat)
    requires j <= i < |accesses|
    requires forall k: nat | k < j && HasDependency(accesses[k], accesses[i]) :: Depth(accesses, k) + 1 <= bound
    ensures DepthBelow(accesses, i, j) <= bound
  {
    if j > 0 {
      DepthBelowIsLeast(accesses, i, j - 1, bound);
    }
  }

  /** A positive depth is reached through a dependency exactly one layer above. */
  lemma {:induction false} DepthHasWitness(accesses: seq<Claims>, i: nat, j: nat) returns (k: nat)
    requires j <= i < |accesses|
    requires DepthBelow(accesses, i, j) > 0
    ensures k < j && HasDependency(accesses[k], accesses[i])
    ensures Depth(accesses, k) + 1 == DepthBelow(accesses, i, j)
  {
    if HasDependency(accesses[j - 1], accesses[i]) && DepthBelow(accesses, i, j) == Depth(accesses, j - 1) + 1 {
      k := j - 1;
    } else {
      k := DepthHasWitness(accesses, i, j - 1);
    }
  }

  lemma DependencyDeepens(accesses: seq<Claims>, i: nat, j: nat)
    requires i < j < |accesses|
    requires HasDependency(accesses[i], accesses[j])
    ensures Depth(accesses, i) < Depth(accesses, j)
  {
    DepthBelowIsUpperBound(accesses, j, j, i);
  }

  lemma DependentIffDeep(accesses: seq<Claims>, dependsOn: seq<seq<nat>>, i: nat)
    requires i < |accesses|
    requires IsEdgeList(accesses, dependsOn, |accesses|)
    ensures dependsOn[i] != [] <==> Depth(accesses, i) > 0
  {
    if dependsOn[i] != [] {
      DependencyDeepens(accesses, dependsOn[i][0], i);
    }
    if Depth(accesses, i) > 0 {
      var k := DepthHasWitness(accesses, i, i);
      assert k in dependsOn[i];
    }
  }

  lemma {:induction false} LayerMembers(accesses: seq<Claims>, d: nat, n: nat)
    requires n <= |accesses|
    ensures forall i: nat :: i in LayerCalls(accesses, d, n) <==> i < n && Depth(accesses, i) == d
    ensures forall x, y | 0 <= x < y < |LayerCalls(accesses, d, n)| ::
              LayerCalls(accesses, d, n)[x] < LayerCalls(accesses, d, n)[y]
  {
    if n > 0 {
      LayerMembers(accesses, d, n - 1);
      var rest := LayerCalls(accesses, d, n - 1);
      assert forall x | 0 <= x < |rest| :: rest[x] in rest;
    }
  }

  lemma {:induction false} MaxDepthBounds(accesses: seq<Claims>, n: nat)
    requires n <= |accesses|
    ensures forall i: nat | i < n :: Depth(accesses, i) <= MaxDepth(accesses, n)
    ensures n > 0 ==> exists i: nat :: i < n && Depth(accesses, i) == MaxDepth(accesses, n)
  {
    if n > 0 {
      MaxDepthBounds(accesses, n - 1);
      if n == 1 {
        assert Depth(accesses, 0) == MaxDepth(accesses, 1);
      } else if MaxDepth(accesses, n) != Depth(accesses, n - 1) {
        var i: nat :| i < n - 1 && Depth(accesses, i) == MaxDepth(accesses, n - 1);
        assert i < n && Depth(accesses, i) == MaxDepth(accesses, n);
      }
    }
  }

  /** Every depth up to the depth of some call is taken by some call. */
  lemma {:induction false} DepthsHaveNoGap(accesses: seq<Claims>, i: nat, d: nat) returns (k: nat)
    requires i < |accesses|
    requires d <= Depth(accesses, i)
    ensures k <= i && Depth(accesses, k) == d
    decreases i
  {
    if d == Depth(accesses, i) {
      k := i;
    } else {
      var j := DepthHasWitness(accesses, i, i);
      k := DepthsHaveNoGap(accesses, j, d);
    }
  }

  lemma EmptyLayerOnlyInEmptyBatch(accesses: seq<Claims>, d: nat)
    requires d <= MaxDepth(accesses, |accesses|)
    requires LayerCalls(accesses, d, |accesses|) == []
    ensures accesses == []
  {
    if accesses != [] {
      MaxDepthBounds(accesses, |accesses|);
      var i: nat :| i < |accesses| && Depth(accesses, i) == MaxDepth(accesses, |accesses|);
      var k := DepthsHaveNoGap(accesses, i, d);
      LayerMembers(accesses, d, |accesses|);
    }
  }

  lemma NoConflictInLayer(accesses: seq<Claims>, d: nat)
    ensures var calls := LayerCalls(accesses, d, |accesses|);
            && (forall k | 0 <= k < |calls| :: calls[k] < |accesses|)
            && !HasIntraLayerConflicts(calls, accesses)
  {
    var calls := LayerCalls(accesses, d, |accesses|);
    LayerMembers(accesses, d, |accesses|);
    forall k | 0 <= k < |calls|
      ensures calls[k] < |accesses| && Depth(accesses, calls[k]) == d
    {
      assert calls[k] in calls;
    }
    forall x, y | 0 <= x < y < |calls|
      ensures !HasDependency(accesses[calls[x]], accesses[calls[y]])
    {
      if HasDependency(accesses[calls[x]], accesses[calls[y]]) {
        DependencyDeepens(accesses, calls[x], calls[y]);
      }
    }
  }

  // ------------------------------------------------------------------------
  // What the layering guarantees
  // ------------------------------------------------------------------------

  /** Phase `d` holds exactly the calls of depth `d`, once each and in batch order; none is empty. */
  lemma LayeringPartitions(accesses: seq<Claims>)
    ensures var phases := Layering(accesses);
            && (forall d: nat, i: nat | d < |phases| ::
                  i in phases[d].calls <==> i < |accesses| && Depth(accesses, i) == d)
            && (forall i: nat | i < |accesses| :: Depth(accesses, i) < |phases|)
            && (forall d, x, y | 0 <= d < |phases| && 0 <= x < y < |phases[d].calls| ::
                  phases[d].calls[x] < phases[d].calls[y])
            && (forall d | 0 <= d < |phases| :: phases[d].calls != [])
  {
    var phases := Layering(accesses);
    MaxDepthBounds(accesses, |accesses|);
    forall d: nat | d < |phases|
      ensures phases[d].calls == LayerCalls(accesses, d, |accesses|) && phases[d].calls != []
    {
      if phases[d].calls == [] {
        EmptyLayerOnlyInEmptyBatch(accesses, d);
      }
    }
    forall d: nat {
      LayerMembers(accesses, d, |accesses|);
    }
  }

  /** No phase holds two conflicting calls, and a Sequential phase is a single dependent call. */
  lemma PhasesAreConflictFree(accesses: seq<Claims>)
    ensures var phases := Layering(accesses);
            forall d | 0 <= d < |phases| ::
              && (forall i: nat, j: nat | i in phases[d].calls && j in phases[d].calls && i != j ::
                    i < |accesses| && j < |accesses| && !Conflict(accesses[i], accesses[j]))
              && (phases[d].Sequential? <==> d > 0 && |phases[d].calls| == 1)
  {
    LayeringPartitions(accesses);
    var phases := Layering(accesses);
    forall d: nat, i: nat, j: nat | d < |phases| && i in phases[d].calls && j in phases[d].calls && i != j
      ensures i < |accesses| && j < |accesses| && !Conflict(accesses[i], accesses[j])
    {
      LayerMembers(accesses, d, |accesses|);
      SameDepthNoConflict(accesses, i, j);
    }
  }

  lemma SameDepthNoConflict(accesses: seq<Claims>, i: nat, j: nat)
    requires i < |accesses| && j < |accesses| && i != j
    requires Depth(accesses, i) == Depth(accesses, j)
    ensures !Conflict(accesses[i], accesses[j])
  {
    DependencyIsConflict(accesses[i], accesses[j]);
    if HasDependency(accesses[i], accesses[j]) {
      if i < j {
        DependencyDeepens(accesses, i, j);
      } else {
        DependencyDeepens(accesses, j, i);
      }
    }
  }

  /** A chain of calls in batch order, each depending on the one before it. */
  ghost predicate IsChain(accesses: seq<Claims>, chain: seq<nat>) {
    && chain != []
    && (forall k | 0 <= k < |chain| :: chain[k] < |accesses|)
    && (forall k | 0 <= k < |chain| - 1 ::
          chain[k] < chain[k + 1] && Conflict(accesses[chain[k]], accesses[chain[k + 1]]))
  }

  /** The phase of a call is the length of the longest conflict chain that ends in it. */
  lemma DepthIsLongestChain(accesses: seq<Claims>, i: nat)
    requires i < |accesses|
    ensures exists chain :: IsChain(accesses, chain) && chain[|chain| - 1] == i && |chain| == Depth(accesses, i) + 1
    ensures forall chain | IsChain(accesses, chain) && chain[|chain| - 1] == i :: |chain| <= Depth(accesses, i) + 1
  {
    var c := DeepChain(accesses, i);
    forall chain | IsChain(accesses, chain) && chain[|chain| - 1] == i
      ensures |chain| <= Depth(accesses, i) + 1
    {
      ChainBoundedByDepth(accesses, chain);
    }
  }

  lemma {:induction false} DeepChain(accesses: seq<Claims>, i: nat) returns (chain: seq<nat>)
    requires i < |accesses|
    ensures IsChain(accesses, chain) && chain[|chain| - 1] == i && |chain| == Depth(accesses, i) + 1
    decreases i
  {
    if Depth(accesses, i) == 0 {
      chain := [i];
    } else {
      var k := DepthHasWitness(accesses, i, i);
      var prefix := DeepChain(accesses, k);
      DependencyIsConflict(accesses[k], accesses[i]);
      chain := prefix + [i];
    }
  }

  lemma {:induction false} ChainBoundedByDepth(accesses: seq<Claims>, chain: seq<nat>)
    requires IsChain(accesses, chain)
    ensures |chain| <= Depth(accesses, chain[|chain| - 1]) + 1
    decreases |chain|
  {
    if |chain| > 1 {
      var prefix := chain[..|chain| - 1];
      ChainBoundedByDepth(accesses, prefix);
      var a, b := prefix[|prefix| - 1], chain[|chain| - 1];
      assert a == chain[|chain| - 2];
      DependencyIsConflict(accesses[a], accesses[b]);
      DependencyDeepens(accesses, a, b);
    }
  }

  /** An assignment of calls to phases that runs every conflicting pair in batch order. */
  ghost predicate OrderRespecting(accesses: seq<Claims>, phaseOf: seq<nat>) {
    && |phaseOf| == |accesses|
    && forall i, j | 0 <= i < j < |accesses| && Conflict(accesses[i], accesses[j]) :: phaseOf[i] < phaseOf[j]
  }

  /** The layering is order-respecting, and no order-respecting schedule has fewer phases or runs a call earlier. */
  lemma LayeringIsOptimal(accesses: seq<Claims>, phaseOf: seq<nat>, count: nat)
    requires OrderRespecting(accesses, phaseOf)
    requires forall i | 0 <= i < |phaseOf| :: phaseOf[i] < count
    ensures OrderRespecting(accesses, seq(|accesses|, i requires 0 <= i < |accesses| => Depth(accesses, i)))
    ensures forall i: nat | i < |accesses| :: Depth(accesses, i) <= phaseOf[i]
    ensures |Layering(accesses)| <= count
  {
    forall i, j | 0 <= i < j < |accesses| && Conflict(accesses[i], accesses[j])
      ensures Depth(accesses, i) < Depth(accesses, j)
    {
      DependencyIsConflict(accesses[i], accesses[j]);
      DependencyDeepens(accesses, i, j);
    }
    forall i: nat | i < |accesses|
      ensures Depth(accesses, i) <= phaseOf[i]
    {
      DepthIsEarliest(accesses, phaseOf, i);
    }
    MaxDepthBounds(accesses, |accesses|);
  }

  lemma {:induction false} DepthIsEarliest(accesses: seq<Claims>, phaseOf: seq<nat>, i: nat)
    requires OrderRespecting(accesses, phaseOf)
    requires i < |accesses|
    ensures Depth(accesses, i) <= phaseOf[i]
    decreases i
  {
    if Depth(accesses, i) > 0 {
      var k := DepthHasWitness(accesses, i, i);
      DependencyIsConflict(accesses[k], accesses[i]);
      DepthIsEarliest(accesses, phaseOf, k);
    }
  }
}
