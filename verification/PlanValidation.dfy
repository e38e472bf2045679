/**
 Plan validation: unknown dependencies, and a depth-first search for a cycle
 that is proved to agree with the levelling.
 */
module PlanValidation {
  import opened Sequences
  import opened Wrappers
  import opened Graph
  import opened Sorting
  import opened Planner
  import opened PlanOrder

  /** The mutable state of the search, with the finishing order and the stack as ghosts. */
  class CycleSearch {
    const adj: map<string, seq<string>>
    const stepIds: set<string>
    var visited: set<string>
    var inStack: set<string>
    /** Nodes whose search has returned, in the order it did. */
    ghost var finished: seq<string>
    /** Nodes whose search is under way, outermost first. */
    ghost var path: seq<string>

    ghost const g: Digraph

    constructor (steps: seq<PlanStep>)
      ensures Valid() && path == [] && finished == [] && visited == {}
      ensures g == LastStepGraph(steps) && stepIds == Ids(steps)
    {
      var m := StepMap(steps);
      adj := map id | id in m :: m[id].dependsOn;
      stepIds := Ids(steps);
      g := LastStepGraph(steps);
      visited, inStack := {}, {};
      finished, path := [], [];
    }

    ghost predicate GraphMatches() {
      && g.Valid() && g.nodes == stepIds == adj.Keys
      && forall id :: id in stepIds ==> g.succ[id] == set d | d in adj[id] && d in stepIds
    }

    ghost predicate Valid()
      reads this
    {
      && GraphMatches()
      && visited <= stepIds
      && inStack == Elements(path)
      && visited == Elements(finished) + inStack
      && Elements(finished) !! inStack
      && (path != [] ==> IsChain(g, path))
      && SuccessorsFirst(g, finished)
    }

    lemma StackHitIsCycle(node: string, neighbour: string)
      requires g.Valid() && path != [] && IsChain(g, path) && path[|path| - 1] == node
      requires neighbour in path && neighbour in g.succ[node]
      ensures HasCycle(g)
    {
      var i :| 0 <= i < |path| && path[i] == neighbour;
      SubchainIsChain(g, path, i, |path|);
      var cycle := path[i..] + [neighbour];
      assert path[i..|path|] == path[i..];
      forall a, b | 0 <= a && b == a + 1 && b < |cycle|
        ensures cycle[b] in g.succ[cycle[a]]
      {
        if b < |cycle| - 1 { assert path[i..][b] in g.succ[path[i..][a]]; }
      }
      assert IsChain(g, cycle) && cycle[0] == neighbour && cycle[|cycle| - 1] == neighbour;
      assert OnCycle(g, neighbour);
    }

    /** The nested search function. */
    method Dfs(node: string) returns (found: bool)
      requires Valid() && node in stepIds && node !in visited
      requires path != [] ==> node in g.succ[path[|path| - 1]]
      modifies this
      ensures found ==> HasCycle(g)
      ensures !found ==> Valid() && path == old(path) && node in finished
      ensures !found ==> old(visited) <= visited && Elements(old(finished)) <= Elements(finished)
      decreases stepIds - visited
    {
      visited := visited + {node};
      inStack := inStack + {node};
      path := path + [node];
      StackGrows(old(path), node);
      var neighbours := adj[node];
      for i := 0 to |neighbours|
        invariant Valid() && path == old(path) + [node]
        invariant old(visited) + {node} <= visited && Elements(old(finished)) <= Elements(finished)
        invariant forall d :: d in neighbours[..i] && d in stepIds ==> d in Elements(finished)
      {
        var neighbour := neighbours[i];
        assert neighbours[..i + 1] == neighbours[..i] + [neighbour];
        if neighbour !in stepIds {
          continue;
        }
        assert neighbour in g.succ[node] by { assert neighbour in neighbours; }
        if neighbour !in visited {
          var inner := Dfs(neighbour);
          if inner {
            return true;
          }
        } else if neighbour in inStack {
          StackHitIsCycle(node, neighbour);
          return true;
        }
      }
      assert neighbours[..|neighbours|] == neighbours;
      inStack := inStack - {node};
      StackShrinks(old(path), node, finished);
      path := old(path);
      finished := finished + [node];
      found := false;
    }

    lemma AllFinished()
      requires Valid() && path == [] && stepIds <= visited
      ensures !HasCycle(g)
    {
      assert visited == Elements(finished);
      OrderedIsAcyclic(g, finished);
    }

    lemma StackGrows(before: seq<string>, node: string)
      requires g.Valid() && node in g.nodes
      requires before != [] ==> IsChain(g, before) && node in g.succ[before[|before| - 1]]
      ensures IsChain(g, before + [node])
      ensures Elements(before + [node]) == Elements(before) + {node}
    {
      var p := before + [node];
      forall a, b | 0 <= a && b == a + 1 && b < |p|
        ensures p[b] in g.succ[p[a]]
      {
        if b < |before| { assert before[b] in g.succ[before[a]]; }
      }
    }

    lemma StackShrinks(before: seq<string>, node: string, done: seq<string>)
      requires g.Valid() && node in g.nodes && node !in before && SuccessorsFirst(g, done)
      requires forall d :: d in g.succ[node] ==> d in Elements(done)
      ensures Elements(before + [node]) - {node} == Elements(before)
      ensures Elements(done + [node]) == Elements(done) + {node}
      ensures SuccessorsFirst(g, done + [node])
    {
      var more := done + [node];
      forall i | 0 <= i < |more|
        ensures more[i] in g.nodes && forall d :: d in g.succ[more[i]] ==> d in more[..i]
      {
        if i < |done| { assert more[..i] == done[..i]; } else { assert more[..i] == done; }
      }
    }
  }

  /** The errors for the first `n` steps, in plan order. */
  function UnknownDependencies(steps: seq<PlanStep>, ids: set<string>, n: nat): seq<PlanError>
    requires n <= |steps|
  {
    if n == 0 then []
    else UnknownDependencies(steps, ids, n - 1) + UnknownInStep(steps[n - 1], ids, |steps[n - 1].dependsOn|)
  }

  function UnknownInStep(step: PlanStep, ids: set<string>, m: nat): seq<PlanError>
    requires m <= |step.dependsOn|
  {
    if m == 0 then []
    else
      UnknownInStep(step, ids, m - 1)
      + if step.dependsOn[m - 1] in ids then [] else [UnknownDependency(step.stepId, step.dependsOn[m - 1])]
  }

  lemma {:induction false} UnknownInStepMembers(step: PlanStep, ids: set<string>, m: nat, e: PlanError)
    requires m <= |step.dependsOn|
    ensures e in UnknownInStep(step, ids, m) <==>
      e.UnknownDependency? && e.stepId == step.stepId && e.dep in step.dependsOn[..m] && e.dep !in ids
    decreases m
  {
    if m == 0 {
    } else {
      UnknownInStepMembers(step, ids, m - 1, e);
      assert step.dependsOn[..m] == step.dependsOn[..m - 1] + [step.dependsOn[m - 1]];
    }
  }

  /** One of the first `n` steps has this id and names this dependency. */
  ghost predicate Names(steps: seq<PlanStep>, n: nat, id: string, dep: string)
    requires n <= |steps|
  {
    exists i :: 0 <= i < n && steps[i].stepId == id && dep in steps[i].dependsOn
  }

  lemma NamesSnoc(steps: seq<PlanStep>, n: nat, id: string, dep: string)
    requires 0 < n <= |steps|
    ensures Names(steps, n, id, dep) <==>
      Names(steps, n - 1, id, dep) || (steps[n - 1].stepId == id && dep in steps[n - 1].dependsOn)
  {
  }

  lemma UnknownFromStep(step: PlanStep, ids: set<string>, e: PlanError)
    ensures e in UnknownInStep(step, ids, |step.dependsOn|) <==>
      e.UnknownDependency? && e.stepId == step.stepId && e.dep in step.dependsOn && e.dep !in ids
  {
    UnknownInStepMembers(step, ids, |step.dependsOn|, e);
    assert step.dependsOn[..|step.dependsOn|] == step.dependsOn;
  }

  lemma UnknownSnoc(steps: seq<PlanStep>, ids: set<string>, n: nat, e: PlanError)
    requires 0 < n <= |steps|
    ensures e in UnknownDependencies(steps, ids, n) <==>
      e in UnknownDependencies(steps, ids, n - 1) || e in UnknownInStep(steps[n - 1], ids, |steps[n - 1].dependsOn|)
  {
  }

  lemma {:induction false} UnknownPair(steps: seq<PlanStep>, ids: set<string>, n: nat, id: string, dep: string)
    requires n <= |steps|
    ensures UnknownDependency(id, dep) in UnknownDependencies(steps, ids, n) <==> dep !in ids && Names(steps, n, id, dep)
    decreases n
  {
    if n == 0 {
    } else {
      var e := UnknownDependency(id, dep);
      UnknownPair(steps, ids, n - 1, id, dep);
      UnknownSnoc(steps, ids, n, e);
      UnknownFromStep(steps[n - 1], ids, e);
      NamesSnoc(steps, n, id, dep);
    }
  }

  lemma {:induction false} NoCycleAmongUnknown(steps: seq<PlanStep>, ids: set<string>, n: nat)
    requires n <= |steps|
    ensures CycleDetected !in UnknownDependencies(steps, ids, n)
    decreases n
  {
    if n == 0 {
    } else {
      NoCycleAmongUnknown(steps, ids, n - 1);
      UnknownSnoc(steps, ids, n, CycleDetected);
      UnknownFromStep(steps[n - 1], ids, CycleDetected);
    }
  }

  /** An unknown-dependency error appears exactly for a (step, dependency) pair of the plan. */
  lemma UnknownMembers(steps: seq<PlanStep>, ids: set<string>, n: nat, e: PlanError)
    requires n <= |steps|
    ensures e in UnknownDependencies(steps, ids, n) <==>
      e.UnknownDependency? && e.dep !in ids && Names(steps, n, e.stepId, e.dep)
  {
    match e
    case UnknownDependency(id, dep) => UnknownPair(steps, ids, n, id, dep);
    case CycleDetected => NoCycleAmongUnknown(steps, ids, n);
  }

  // ---------------------------------------------------------------- the errors in order

  /** At this spot a step names an id outside `ids`. */
  predicate NamesUnknown(steps: seq<PlanStep>, ids: set<string>, s: Spot) {
    s.step < |steps| && s.dep < |steps[s.step].dependsOn| && steps[s.step].dependsOn[s.dep] !in ids
  }

  predicate ErrorAt(steps: seq<PlanStep>, s: Spot, e: PlanError) {
    && s.step < |steps| && s.dep < |steps[s.step].dependsOn|
    && e == UnknownDependency(steps[s.step].stepId, steps[s.step].dependsOn[s.dep])
  }

  /** The errors are those at the spots, one for each spot before `end` that names an unknown id, in plan order. */
  ghost predicate ErrorsBefore(steps: seq<PlanStep>, ids: set<string>, end: Spot, errors: seq<PlanError>, spots: seq<Spot>) {
    && |spots| == |errors| && Increasing(SpotLess, spots)
    && (forall k :: 0 <= k < |spots| ==> ErrorAt(steps, spots[k], errors[k]))
    && (forall s :: s in spots <==> SpotLess(s, end) && NamesUnknown(steps, ids, s))
  }

  lemma NextSpot(steps: seq<PlanStep>, ids: set<string>, s: Spot, errors: seq<PlanError>, spots: seq<Spot>)
    requires ErrorsBefore(steps, ids, s, errors, spots) && s.step < |steps| && s.dep < |steps[s.step].dependsOn|
    ensures var e := UnknownDependency(steps[s.step].stepId, steps[s.step].dependsOn[s.dep]);
      if NamesUnknown(steps, ids, s) then ErrorsBefore(steps, ids, Spot(s.step, s.dep + 1), errors + [e], spots + [s])
      else ErrorsBefore(steps, ids, Spot(s.step, s.dep + 1), errors, spots)
  {
    forall t ensures SpotLess(t, Spot(s.step, s.dep + 1)) <==> SpotLess(t, s) || t == s {}
    if NamesUnknown(steps, ids, s) { IncreasingConcat(SpotLess, spots, [s]); }
  }

  lemma NextStep(steps: seq<PlanStep>, ids: set<string>, i: nat, errors: seq<PlanError>, spots: seq<Spot>)
    requires i < |steps| && ErrorsBefore(steps, ids, Spot(i, |steps[i].dependsOn|), errors, spots)
    ensures ErrorsBefore(steps, ids, Spot(i + 1, 0), errors, spots)
  {
    forall s ensures s in spots <==> SpotLess(s, Spot(i + 1, 0)) && NamesUnknown(steps, ids, s) {
      if s.step == i && s.dep >= |steps[i].dependsOn| { assert !NamesUnknown(steps, ids, s); }
    }
  }

  lemma {:induction false} StepErrors(steps: seq<PlanStep>, ids: set<string>, i: nat, m: nat, before: seq<PlanError>, at: seq<Spot>)
    returns (spots: seq<Spot>)
    requires i < |steps| && m <= |steps[i].dependsOn| && ErrorsBefore(steps, ids, Spot(i, 0), before, at)
    ensures ErrorsBefore(steps, ids, Spot(i, m), before + UnknownInStep(steps[i], ids, m), spots)
    decreases m
  {
    if m == 0 {
      spots := at;
      assert before + [] == before;
    } else {
      spots := StepErrors(steps, ids, i, m - 1, before, at);
      var errors, s := before + UnknownInStep(steps[i], ids, m - 1), Spot(i, m - 1);
      NextSpot(steps, ids, s, errors, spots);
      if NamesUnknown(steps, ids, s) {
        spots := spots + [s];
        assert before + UnknownInStep(steps[i], ids, m) == errors + [UnknownDependency(steps[i].stepId, steps[i].dependsOn[m - 1])];
      } else {
        assert UnknownInStep(steps[i], ids, m) == UnknownInStep(steps[i], ids, m - 1);
      }
    }
  }

  /** The unknown-dependency errors: one for each place of the plan that names an id outside it, in plan order. */
  lemma {:induction false} ErrorsInOrder(steps: seq<PlanStep>, ids: set<string>, n: nat) returns (spots: seq<Spot>)
    requires n <= |steps|
    ensures ErrorsBefore(steps, ids, Spot(n, 0), UnknownDependencies(steps, ids, n), spots)
    decreases n
  {
    if n == 0 {
      spots := [];
    } else {
      var before := ErrorsInOrder(steps, ids, n - 1);
      var m := |steps[n - 1].dependsOn|;
      spots := StepErrors(steps, ids, n - 1, m, UnknownDependencies(steps, ids, n - 1), before);
      NextStep(steps, ids, n - 1, UnknownDependencies(steps, ids, n), spots);
    }
  }

  /** The complete validation verdict. */
  method Validate(steps: seq<PlanStep>) returns (errors: seq<PlanError>)
    ensures errors == UnknownDependencies(steps, Ids(steps), |steps|)
                      + if HasCycle(LastStepGraph(steps)) then [CycleDetected] else []
  {
    errors := UnknownDependencyErrors(steps);
    var cyclic := AnyCycle(steps);
    if cyclic {
      errors := errors + [CycleDetected];
    }
  }

  lemma IdsStep(steps: seq<PlanStep>, i: nat)
    requires i < |steps|
    ensures Ids(steps[..i + 1]) == Ids(steps[..i]) + {steps[i].stepId} && steps[i].stepId in Ids(steps)
  {
    assert steps[..i + 1] == steps[..i] + [steps[i]];
  }

  /** The outer search loop: start from every step not yet visited. */
  method AnyCycle(steps: seq<PlanStep>) returns (cyclic: bool)
    ensures cyclic <==> HasCycle(LastStepGraph(steps))
  {
    var search := new CycleSearch(steps);
    for i := 0 to |steps|
      invariant search.Valid() && search.path == [] && fresh(search)
      invariant Ids(steps[..i]) <= search.visited
    {
      IdsStep(steps, i);
      if steps[i].stepId !in search.visited {
        assert steps[i].stepId in Ids(steps);
        var found := search.Dfs(steps[i].stepId);
        if found {
          return true;
        }
      }
    }
    assert steps[..|steps|] == steps;
    search.AllFinished();
    return false;
  }

  method UnknownDependencyErrors(steps: seq<PlanStep>) returns (errors: seq<PlanError>)
    ensures errors == UnknownDependencies(steps, Ids(steps), |steps|)
  {
    var ids := Ids(steps);
    errors := [];
    for i := 0 to |steps|
      invariant errors == UnknownDependencies(steps, ids, i)
    {
      var step := steps[i];
      ghost var before := errors;
      for j := 0 to |step.dependsOn|
        invariant errors == before + UnknownInStep(step, ids, j)
      {
        if step.dependsOn[j] !in ids {
          errors := errors + [UnknownDependency(step.stepId, step.dependsOn[j])];
        }
      }
    }
  }

  // ---------------------------------------------------------------- agreement

  /** Every edge of the search graph is an edge of the levelling graph. */
  lemma SearchGraphIsSubgraph(steps: seq<PlanStep>, id: string)
    requires id in Ids(steps)
    ensures LastStepGraph(steps).succ[id] <= DependencyGraph(steps).succ[id]
  {
    var step := StepMap(steps)[id];
    var i :| 0 <= i < |steps| && steps[i] == step;
  }

  /** A cycle the search reports always costs the levelling a step, whatever the ids. */
  lemma ReportedCycleDropsStep(steps: seq<PlanStep>, groups: seq<seq<PlanStep>>)
    requires IsLevelling(steps, groups) && HasCycle(LastStepGraph(steps))
    ensures exists id :: id in Ids(steps) && forall k :: !InGroup(groups, k, id)
  {
    var s, p :| IsChain(LastStepGraph(steps), p) && |p| >= 2 && p[0] == s && p[|p| - 1] == s;
    var g := DependencyGraph(steps);
    forall i, j | 0 <= i && j == i + 1 && j < |p|
      ensures p[j] in g.succ[p[i]]
    {
      SearchGraphIsSubgraph(steps, p[i]);
    }
    assert IsChain(g, p);
    assert OnCycle(g, s);
    LevellingDropsIffCyclic(steps, groups);
  }

  /** With distinct ids the two algorithms agree on every graph. */
  lemma CycleReportedIffStepDropped(steps: seq<PlanStep>, groups: seq<seq<PlanStep>>)
    requires DistinctIds(steps) && IsLevelling(steps, groups)
    ensures HasCycle(LastStepGraph(steps)) <==> exists id :: id in Ids(steps) && forall k :: !InGroup(groups, k, id)
  {
    GraphsAgreeWhenDistinct(steps);
    LevellingDropsIffCyclic(steps, groups);
  }

  /**
   A plan whose merged graph has no cycle is levelled completely: the step kept for
   each id stands in some group. With distinct ids that is the step as written.
   */
  lemma AcyclicPlanIsLevelled(steps: seq<PlanStep>, groups: seq<seq<PlanStep>>, i: nat) returns (k: nat, j: nat)
    requires IsLevelling(steps, groups) && i < |steps| && !HasCycle(DependencyGraph(steps))
    ensures k < |groups| && j < |groups[k]| && groups[k][j] == StepMap(steps)[steps[i].stepId]
    ensures DistinctIds(steps) ==> groups[k][j] == steps[i]
  {
    var id := steps[i].stepId;
    LevellingDropsIffCyclic(steps, groups);
    assert id in Ids(steps);
    k :| InGroup(groups, k, id);
    assert GroupAt(steps, k, groups[k]);
    j :| 0 <= j < |groups[k]| && GroupIds(groups[k])[j] == id;
    assert groups[k][j] in groups[k];
    if DistinctIds(steps) { StepMapOfDistinct(steps, i); }
  }

  // ---------------------------------------------------------------- exactly when they agree

  /** Validation reports nothing. */
  ghost predicate Accepted(steps: seq<PlanStep>) {
    UnknownDependencies(steps, Ids(steps), |steps|) == [] && !HasCycle(LastStepGraph(steps))
  }

  ghost predicate Agree(steps: seq<PlanStep>) {
    HasCycle(LastStepGraph(steps)) <==> HasCycle(DependencyGraph(steps))
  }

  function Step(id: string, deps: seq<string>): PlanStep {
    PlanStep(id, [], "", deps, [], map[], Low, false, "retry")
  }

  /** Step `i` depends on itself and no other step depends on anything. */
  function SelfDependent(ids: seq<string>, i: nat): (steps: seq<PlanStep>)
    requires i < |ids|
    ensures GroupIds(steps) == ids
  {
    seq(|ids|, k requires 0 <= k < |ids| => Step(ids[k], if k == i then [ids[i]] else []))
  }

  /** Step `k` is the last one with this id. */
  ghost predicate IsLast(steps: seq<PlanStep>, id: string, k: nat) {
    k < |steps| && steps[k].stepId == id && forall l :: k < l < |steps| ==> steps[l].stepId != id
  }

  lemma LastOfFront(steps: seq<PlanStep>, id: string, k: nat)
    requires steps != [] && steps[|steps| - 1].stepId != id && IsLast(steps[..|steps| - 1], id, k)
    ensures IsLast(steps, id, k) && steps[k] == steps[..|steps| - 1][k]
  {
    forall l | k < l < |steps| ensures steps[l].stepId != id {
      assert l < |steps| - 1 ==> steps[l] == steps[..|steps| - 1][l];
    }
  }

  lemma StepMapSnoc(steps: seq<PlanStep>)
    requires steps != []
    ensures var last := steps[|steps| - 1];
      StepMap(steps) == StepMap(steps[..|steps| - 1])[last.stepId := last]
  {
  }

  /** The dictionary keeps the last step of an id. */
  lemma {:induction false} StepMapIsLast(steps: seq<PlanStep>, id: string) returns (k: nat)
    requires id in StepMap(steps)
    ensures IsLast(steps, id, k) && StepMap(steps)[id] == steps[k]
    decreases |steps|
  {
    var n := |steps| - 1;
    StepMapSnoc(steps);
    if steps[n].stepId == id {
      k := n;
    } else {
      k := StepMapIsLast(steps[..n], id);
      LastOfFront(steps, id, k);
    }
  }

  lemma CycleHasEdge(g: Digraph)
    requires g.Valid()
    ensures HasCycle(g) ==> exists s :: s in g.nodes && g.succ[s] != {}
  {
    if HasCycle(g) {
      var s :| OnCycle(g, s);
      var p :| IsChain(g, p) && |p| >= 2 && p[0] == s && p[|p| - 1] == s;
      assert p[1] in g.succ[p[0]];
    }
  }

  /** When a later step repeats the id, the search sees no edge at all. */
  lemma RepeatHidesCycle(ids: seq<string>, i: nat, j: nat)
    requires i < j < |ids| && ids[i] == ids[j]
    ensures !HasCycle(LastStepGraph(SelfDependent(ids, i)))
  {
    var steps := SelfDependent(ids, i);
    forall id | id in Ids(steps) ensures LastStepGraph(steps).succ[id] == {} {
      var k := StepMapIsLast(steps, id);
      assert steps[j].stepId == ids[i];
      assert k != i;
    }
    CycleHasEdge(LastStepGraph(steps));
  }

  /** The levelling sees the step's dependency on its own id. */
  lemma SelfDependencyIsCycle(ids: seq<string>, i: nat)
    requires i < |ids|
    ensures HasCycle(DependencyGraph(SelfDependent(ids, i)))
  {
    var steps := SelfDependent(ids, i);
    var g := DependencyGraph(steps);
    assert steps[i].stepId == ids[i] && steps[i].dependsOn == [ids[i]] && ids[i] in steps[i].dependsOn;
    assert ids[i] in g.succ[ids[i]];
    assert IsChain(g, [ids[i], ids[i]]);
    assert OnCycle(g, ids[i]);
  }

  lemma SelfDependentIsKnown(ids: seq<string>, i: nat)
    requires i < |ids|
    ensures var steps := SelfDependent(ids, i); UnknownDependencies(steps, Ids(steps), |steps|) == []
  {
    var steps := SelfDependent(ids, i);
    var errors := UnknownDependencies(steps, Ids(steps), |steps|);
    assert steps[i].stepId in Ids(steps);
    if errors != [] {
      UnknownMembers(steps, Ids(steps), |steps|, errors[0]);
    }
  }

  /** Validation accepts a plan that the levelling cannot complete, for every list of ids with a repetition. */
  lemma RepeatedIdsDisagree(ids: seq<string>, i: nat, j: nat)
    requires i < j < |ids| && ids[i] == ids[j]
    ensures var steps := SelfDependent(ids, i);
      GroupIds(steps) == ids && Accepted(steps) && HasCycle(DependencyGraph(steps)) && !Agree(steps)
  {
    RepeatHidesCycle(ids, i, j);
    SelfDependencyIsCycle(ids, i);
    SelfDependentIsKnown(ids, i);
  }

  lemma DistinctAgree(steps: seq<PlanStep>)
    requires Distinct(GroupIds(steps))
    ensures Agree(steps)
  {
    forall a, b | 0 <= a < b < |steps| ensures steps[a].stepId != steps[b].stepId {
      assert GroupIds(steps)[a] != GroupIds(steps)[b];
    }
    GraphsAgreeWhenDistinct(steps);
  }

  /** The two algorithms agree on every plan with these ids exactly when no id is repeated. */
  lemma AgreeIffNoRepeats(ids: seq<string>)
    ensures (forall steps {:trigger Agree(steps)} :: GroupIds(steps) == ids ==> Agree(steps)) <==> Distinct(ids)
  {
    if Distinct(ids) {
      forall steps | GroupIds(steps) == ids ensures Agree(steps) { DistinctAgree(steps); }
    } else {
      var i, j :| 0 <= i < j < |ids| && ids[i] == ids[j];
      RepeatedIdsDisagree(ids, i, j);
    }
  }

  /** Every accepted plan with these ids is levelled completely exactly when no id is repeated. */
  lemma AcceptedIsAcyclicIffNoRepeats(ids: seq<string>)
    ensures (forall steps {:trigger Accepted(steps)} ::
               GroupIds(steps) == ids && Accepted(steps) ==> !HasCycle(DependencyGraph(steps))) <==> Distinct(ids)
  {
    if Distinct(ids) {
      forall steps | GroupIds(steps) == ids && Accepted(steps) ensures !HasCycle(DependencyGraph(steps)) {
        DistinctAgree(steps);
      }
    } else {
      var i, j :| 0 <= i < j < |ids| && ids[i] == ids[j];
      RepeatedIdsDisagree(ids, i, j);
    }
  }

  lemma TwoStepPlan()
    ensures SelfDependent(["a", "a"], 0) == [Step("a", ["a"]), Step("a", [])]
  {
  }

  /** The smallest case: two steps "a", the first depending on itself, are accepted and neither is levelled. */
  lemma RepeatedIdsCanDisagree(groups: seq<seq<PlanStep>>)
    requires IsLevelling([Step("a", ["a"]), Step("a", [])], groups)
    ensures Accepted([Step("a", ["a"]), Step("a", [])]) && HasCycle(DependencyGraph([Step("a", ["a"]), Step("a", [])]))
    ensures forall k :: !InGroup(groups, k, "a")
  {
    var steps := SelfDependent(["a", "a"], 0);
    TwoStepPlan();
    RepeatedIdsDisagree(["a", "a"], 0, 1);
    OnlyIdDropped(steps, groups, "a");
  }

  lemma OnlyIdDropped(steps: seq<PlanStep>, groups: seq<seq<PlanStep>>, id: string)
    requires IsLevelling(steps, groups) && HasCycle(DependencyGraph(steps))
    requires forall x :: x in Ids(steps) ==> x == id
    ensures forall k :: !InGroup(groups, k, id)
  {
    LevellingDropsIffCyclic(steps, groups);
    var x :| x in Ids(steps) && forall k :: !InGroup(groups, k, x);
  }
}
