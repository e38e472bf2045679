/**
 The execution planner: levelling by Kahn's algorithm and cycle detection by
 depth-first search, proved against chain depth in the dependency graph.
 */
module Planner {
  import opened Sequences
  import opened Wrappers
  import opened Graph

  datatype PlanStep = PlanStep(
    stepId: string,
    requiredCapabilities: seq<string>,
    primaryCapability: string,
    dependsOn: seq<string>,
    successCriteria: seq<string>,
    retryPolicy: map<string, int>,
    riskLevel: Risk,
    requiresApproval: bool,
    fallbackStrategy: string)

  datatype PlanError =
    | UnknownDependency(stepId: string, dep: string)
    | CycleDetected

  /** What construction does to the fields a caller passes. */
  function PostInit(s: PlanStep): (r: PlanStep)
    ensures r.requiresApproval <==> s.requiresApproval || s.riskLevel == High
    ensures s.primaryCapability != "" ==> r.primaryCapability == s.primaryCapability
    ensures s.primaryCapability == "" && s.requiredCapabilities != [] ==> r.primaryCapability == s.requiredCapabilities[0]
    ensures s.primaryCapability == "" && s.requiredCapabilities == [] ==> r.primaryCapability == ""
    ensures r.(primaryCapability := s.primaryCapability, requiresApproval := s.requiresApproval) == s
  {
    var p := if s.primaryCapability == "" && s.requiredCapabilities != [] then s.requiredCapabilities[0]
             else s.primaryCapability;
    s.(primaryCapability := p, requiresApproval := s.requiresApproval || s.riskLevel == High)
  }

  // ---------------------------------------------------------------- dependency graphs

  function Ids(steps: seq<PlanStep>): set<string> {
    set i | 0 <= i < |steps| :: steps[i].stepId
  }

  ghost predicate DistinctIds(steps: seq<PlanStep>) {
    forall i, j :: 0 <= i < j < |steps| ==> steps[i].stepId != steps[j].stepId
  }

  /** A dictionary built from the steps: a later step replaces an earlier one of the same id. */
  function StepMap(steps: seq<PlanStep>): (m: map<string, PlanStep>)
    ensures m.Keys == Ids(steps)
    ensures forall id :: id in m ==> m[id] in steps && m[id].stepId == id
  {
    if steps == [] then map[]
    else
      var front := steps[..|steps| - 1];
      var last := steps[|steps| - 1];
      assert steps == front + [last];
      assert Ids(steps) == Ids(front) + {last.stepId};
      StepMap(front)[last.stepId := last]
  }

  /** The step ids in order of first appearance, which is the dictionary's iteration order. */
  function IdOrder(steps: seq<PlanStep>): (r: seq<string>)
    ensures forall id :: id in r <==> id in Ids(steps)
    ensures forall i, j :: 0 <= i < j < |r| ==> r[i] != r[j]
  {
    if steps == [] then []
    else
      var front := steps[..|steps| - 1];
      var last := steps[|steps| - 1];
      assert steps == front + [last];
      assert Ids(steps) == Ids(front) + {last.stepId};
      var r := IdOrder(front);
      if last.stepId in r then r else r + [last.stepId]
  }

  /** Dependencies of `id` merged over every step that carries this id, unknown ids dropped. */
  ghost function KnownDeps(steps: seq<PlanStep>, id: string): set<string> {
    set i, d | 0 <= i < |steps| && steps[i].stepId == id && d in steps[i].dependsOn && d in Ids(steps) :: d
  }

  /** The graph the levelling works on. */
  ghost function DependencyGraph(steps: seq<PlanStep>): (g: Digraph)
    ensures g.Valid()
  {
    Digraph(Ids(steps), map id | id in Ids(steps) :: KnownDeps(steps, id))
  }

  /** The graph the cycle search works on: only the last step of each id contributes. */
  ghost function LastStepGraph(steps: seq<PlanStep>): (g: Digraph)
    ensures g.Valid()
  {
    var m := StepMap(steps);
    Digraph(Ids(steps), map id | id in Ids(steps) :: set d | d in m[id].dependsOn && d in Ids(steps))
  }

  lemma StepMapOfDistinct(steps: seq<PlanStep>, i: nat)
    requires i < |steps| && DistinctIds(steps)
    ensures StepMap(steps)[steps[i].stepId] == steps[i]
  {
    var m := StepMap(steps);
    assert m[steps[i].stepId] in steps;
  }

  lemma DepsAgreeWhenDistinct(steps: seq<PlanStep>, i: nat)
    requires i < |steps| && DistinctIds(steps)
    ensures KnownDeps(steps, steps[i].stepId) == set d | d in steps[i].dependsOn && d in Ids(steps)
  {
    forall j | 0 <= j < |steps| && steps[j].stepId == steps[i].stepId
      ensures j == i
    {
    }
  }

  lemma GraphsAgreeWhenDistinct(steps: seq<PlanStep>)
    requires DistinctIds(steps)
    ensures DependencyGraph(steps) == LastStepGraph(steps)
  {
    var g, h := DependencyGraph(steps), LastStepGraph(steps);
    forall id | id in g.nodes
      ensures g.succ[id] == h.succ[id]
    {
      var i :| 0 <= i < |steps| && steps[i].stepId == id;
      StepMapOfDistinct(steps, i);
      DepsAgreeWhenDistinct(steps, i);
    }
  }

  // ---------------------------------------------------------------- edge lists

  /** A (step, dependency) pair. */
  type Edge = (string, string)

  function EdgesOfStep(id: string, deps: seq<string>, ids: set<string>): seq<Edge> {
    if deps == [] then []
    else
      var n := |deps| - 1;
      EdgesOfStep(id, deps[..n], ids) + if deps[n] in ids then [(id, deps[n])] else []
  }

  function EdgesOf(steps: seq<PlanStep>, ids: set<string>): seq<Edge> {
    if steps == [] then []
    else
      var n := |steps| - 1;
      EdgesOf(steps[..n], ids) + EdgesOfStep(steps[n].stepId, steps[n].dependsOn, ids)
  }

  /** Number of edges of `id` whose dependency is not in `done`. */
  function Pending(edges: seq<Edge>, id: string, done: set<string>): nat {
    if edges == [] then 0
    else
      var n := |edges| - 1;
      Pending(edges[..n], id, done) + if edges[n].0 == id && edges[n].1 !in done then 1 else 0
  }

  /** The steps waiting for `dep`, one entry per edge, in edge order. */
  function DependentsOf(edges: seq<Edge>, dep: string): seq<string> {
    if edges == [] then []
    else
      var n := |edges| - 1;
      var front := DependentsOf(edges[..n], dep);
      if edges[n].1 == dep then front + [edges[n].0] else front
  }

  lemma {:induction false} EdgesOfStepMembers(id: string, deps: seq<string>, ids: set<string>, e: Edge)
    ensures e in EdgesOfStep(id, deps, ids) <==> e.0 == id && e.1 in deps && e.1 in ids
    decreases |deps|
  {
    if deps == [] {
    } else {
      var n := |deps| - 1;
      EdgesOfStepMembers(id, deps[..n], ids, e);
      assert deps == deps[..n] + [deps[n]];
    }
  }

  lemma {:induction false} EdgesOfMembers(steps: seq<PlanStep>, ids: set<string>, e: Edge)
    ensures e in EdgesOf(steps, ids) <==>
      exists i :: 0 <= i < |steps| && steps[i].stepId == e.0 && e.1 in steps[i].dependsOn && e.1 in ids
    decreases |steps|
  {
    if steps == [] {
    } else {
      var n := |steps| - 1;
      EdgesOfMembers(steps[..n], ids, e);
      EdgesOfStepMembers(steps[n].stepId, steps[n].dependsOn, ids, e);
    }
  }

  lemma {:induction false} PendingZero(edges: seq<Edge>, id: string, done: set<string>)
    ensures Pending(edges, id, done) == 0 <==> forall e :: e in edges && e.0 == id ==> e.1 in done
    decreases |edges|
  {
    if edges == [] {
    } else {
      var n := |edges| - 1;
      PendingZero(edges[..n], id, done);
      assert edges == edges[..n] + [edges[n]];
    }
  }

  function Occurrences(s: seq<string>, x: string): nat {
    if s == [] then 0 else (if s[0] == x then 1 else 0) + Occurrences(s[1..], x)
  }

  lemma {:induction false} OccurrencesPositive(s: seq<string>, x: string)
    ensures Occurrences(s, x) > 0 <==> x in s
    decreases |s|
  {
    if s == [] {
    } else {
      OccurrencesPositive(s[1..], x);
      assert s == [s[0]] + s[1..];
    }
  }

  lemma {:induction false} OccurrencesAppend(s: seq<string>, y: string, x: string)
    ensures Occurrences(s + [y], x) == Occurrences(s, x) + if y == x then 1 else 0
    decreases |s|
  {
    if s != [] {
      OccurrencesAppend(s[1..], y, x);
      assert (s + [y])[1..] == s[1..] + [y];
    } else {
      assert (s + [y])[1..] == [];
    }
  }

  /** Finishing `dep` releases exactly the occurrences of `id` among its dependents. */
  lemma {:induction false} PendingSplit(edges: seq<Edge>, id: string, done: set<string>, dep: string)
    requires dep !in done
    ensures Pending(edges, id, done) == Pending(edges, id, done + {dep}) + Occurrences(DependentsOf(edges, dep), id)
    decreases |edges|
  {
    if edges == [] {
    } else {
      var n := |edges| - 1;
      PendingSplit(edges[..n], id, done, dep);
      OccurrencesAppend(DependentsOf(edges[..n], dep), edges[n].0, id);
    }
  }

  /** The ids of a group, in group order. */
  function GroupIds(group: seq<PlanStep>): (r: seq<string>)
    ensures |r| == |group| && forall i :: 0 <= i < |group| ==> r[i] == group[i].stepId
  {
    seq(|group|, i requires 0 <= i < |group| => group[i].stepId)
  }

  function Flatten(groups: seq<seq<PlanStep>>): seq<PlanStep> {
    if groups == [] then [] else Flatten(groups[..|groups| - 1]) + groups[|groups| - 1]
  }

  /** The edge list carries the dependency graph. */
  lemma EdgesMatchGraph(steps: seq<PlanStep>, id: string)
    requires id in Ids(steps)
    ensures forall d :: d in DependencyGraph(steps).succ[id] <==> (id, d) in EdgesOf(steps, Ids(steps))
  {
    forall d
      ensures d in DependencyGraph(steps).succ[id] <==> (id, d) in EdgesOf(steps, Ids(steps))
    {
      EdgesOfMembers(steps, Ids(steps), (id, d));
    }
  }

  /** A step has nothing pending exactly when its whole dependency set is done. */
  lemma PendingZeroMeansDepsDone(steps: seq<PlanStep>, id: string, done: set<string>)
    requires id in Ids(steps)
    ensures Pending(EdgesOf(steps, Ids(steps)), id, done) == 0 <==> DependencyGraph(steps).succ[id] <= done
  {
    var edges := EdgesOf(steps, Ids(steps));
    PendingZero(edges, id, done);
    EdgesMatchGraph(steps, id);
    if DependencyGraph(steps).succ[id] <= done {
      forall e | e in edges && e.0 == id ensures e.1 in done { assert e == (id, e.1); }
    }
  }

  /** Depth advances by one edge when the done set is the complement of depth `k`. */
  lemma DepthStep(g: Digraph, k: nat, done: set<string>, s: string)
    requires g.Valid() && s in g.nodes && done == g.nodes - DeepNodes(g, k)
    ensures g.succ[s] <= done <==> !Deep(g, s, k + 1)
  {
    if !(g.succ[s] <= done) {
      var d :| d in g.succ[s] && d !in done;
      assert Deep(g, d, k);
    }
  }

  /** The two dictionaries describe the given edge list, with nothing done yet. */
  ghost predicate Counts(inDegree: map<string, int>, dependents: map<string, seq<string>>,
                         ids: set<string>, edges: seq<Edge>) {
    && inDegree.Keys == ids && dependents.Keys == ids
    && (forall id :: id in ids ==> inDegree[id] == Pending(edges, id, {}))
    && (forall id :: id in ids ==> dependents[id] == DependentsOf(edges, id))
  }

  lemma CountsAfterEdge(inDegree: map<string, int>, dependents: map<string, seq<string>>,
                        ids: set<string>, edges: seq<Edge>, id: string, dep: string)
    requires Counts(inDegree, dependents, ids, edges) && id in ids && dep in ids
    ensures Counts(inDegree[id := inDegree[id] + 1], dependents[dep := dependents[dep] + [id]],
                   ids, edges + [(id, dep)])
  {
    var more := edges + [(id, dep)];
    assert more[..|more| - 1] == edges;
  }

  lemma EdgesOfPrefix(steps: seq<PlanStep>, ids: set<string>, i: nat)
    requires i < |steps|
    ensures EdgesOf(steps[..i + 1], ids)
         == EdgesOf(steps[..i], ids) + EdgesOfStep(steps[i].stepId, steps[i].dependsOn, ids)
  {
    assert steps[..i + 1][..i] == steps[..i];
  }

  lemma EdgesOfStepPrefix(id: string, deps: seq<string>, ids: set<string>, j: nat)
    requires j < |deps|
    ensures EdgesOfStep(id, deps[..j + 1], ids)
         == EdgesOfStep(id, deps[..j], ids) + if deps[j] in ids then [(id, deps[j])] else []
  {
    assert deps[..j + 1][..j] == deps[..j];
  }

  method AddStepEdges(step: PlanStep, ids: set<string>, ghost before: seq<Edge>,
                      inDegree0: map<string, int>, dependents0: map<string, seq<string>>)
    returns (inDegree: map<string, int>, dependents: map<string, seq<string>>)
    requires step.stepId in ids && Counts(inDegree0, dependents0, ids, before)
    ensures Counts(inDegree, dependents, ids, before + EdgesOfStep(step.stepId, step.dependsOn, ids))
  {
    inDegree, dependents := inDegree0, dependents0;
    ghost var edges := before;
    for j := 0 to |step.dependsOn|
      invariant edges == before + EdgesOfStep(step.stepId, step.dependsOn[..j], ids)
      invariant Counts(inDegree, dependents, ids, edges)
    {
      var dep := step.dependsOn[j];
      EdgesOfStepPrefix(step.stepId, step.dependsOn, ids, j);
      if dep in inDegree {
        CountsAfterEdge(inDegree, dependents, ids, edges, step.stepId, dep);
        inDegree := inDegree[step.stepId := inDegree[step.stepId] + 1];
        dependents := dependents[dep := dependents[dep] + [step.stepId]];
        edges := edges + [(step.stepId, dep)];
      }
    }
    assert step.dependsOn[..|step.dependsOn|] == step.dependsOn;
  }

  method InitialDegrees(steps: seq<PlanStep>)
    returns (inDegree: map<string, int>, dependents: map<string, seq<string>>)
    ensures Counts(inDegree, dependents, Ids(steps), EdgesOf(steps, Ids(steps)))
  {
    var ids := Ids(steps);
    inDegree := map id | id in ids :: 0;
    dependents := map id | id in ids :: [];
    ghost var edges := [];
    for i := 0 to |steps|
      invariant edges == EdgesOf(steps[..i], ids)
      invariant Counts(inDegree, dependents, ids, edges)
    {
      inDegree, dependents := AddStepEdges(steps[i], ids, edges, inDegree, dependents);
      EdgesOfPrefix(steps, ids, i);
      edges := edges + EdgesOfStep(steps[i].stepId, steps[i].dependsOn, ids);
    }
    assert steps[..|steps|] == steps;
  }

  // ---------------------------------------------------------------- levels

  /** Of the first `j` dependents, those whose last pending edge is consumed here, in order. */
  function Released(edges: seq<Edge>, done: set<string>, dependents: seq<string>, j: nat): (r: seq<string>)
    requires j <= |dependents|
  {
    if j == 0 then []
    else
      var id := dependents[j - 1];
      Released(edges, done, dependents, j - 1)
      + if id !in dependents[j..] && Pending(edges, id, done) == 0 then [id] else []
  }

  /** The steps released by the first `i` members of a group, in the order they are released. */
  function NextIds(edges: seq<Edge>, done: set<string>, group: seq<string>, i: nat): seq<string>
    requires i <= |group|
  {
    if i == 0 then []
    else
      var dependents := DependentsOf(edges, group[i - 1]);
      NextIds(edges, done, group, i - 1)
      + Released(edges, done + Elements(group[..i]), dependents, |dependents|)
  }

  lemma {:induction false} ReleasedMembers(edges: seq<Edge>, done: set<string>, dependents: seq<string>, j: nat)
    requires j <= |dependents|
    ensures forall x :: x in Released(edges, done, dependents, j) <==>
      x in dependents[..j] && x !in dependents[j..] && Pending(edges, x, done) == 0
    ensures Distinct(Released(edges, done, dependents, j))
    decreases j
  {
    if j > 0 {
      ReleasedMembers(edges, done, dependents, j - 1);
      assert dependents[..j] == dependents[..j - 1] + [dependents[j - 1]];
      assert dependents[j - 1..] == [dependents[j - 1]] + dependents[j..];
    } else {
      assert dependents[..0] == [];
    }
  }

  lemma ReleasedExactly(edges: seq<Edge>, done: set<string>, dep: string, x: string)
    requires dep !in done
    ensures var ds := DependentsOf(edges, dep);
      x in Released(edges, done + {dep}, ds, |ds|) <==>
      Pending(edges, x, done) > 0 && Pending(edges, x, done + {dep}) == 0
  {
    var ds := DependentsOf(edges, dep);
    ReleasedMembers(edges, done + {dep}, ds, |ds|);
    assert ds[..|ds|] == ds;
    PendingSplit(edges, x, done, dep);
    OccurrencesPositive(ds, x);
  }

  lemma {:induction false} NextMembers(edges: seq<Edge>, done: set<string>, group: seq<string>, i: nat)
    requires i <= |group| && Distinct(group) && Elements(group) !! done
    ensures forall x :: x in NextIds(edges, done, group, i) <==>
      Pending(edges, x, done) > 0 && Pending(edges, x, done + Elements(group[..i])) == 0
    ensures Distinct(NextIds(edges, done, group, i))
    decreases i
  {
    if i == 0 {
      assert done + Elements(group[..0]) == done;
    } else {
      NextMembers(edges, done, group, i - 1);
      var dep, before := group[i - 1], done + Elements(group[..i - 1]);
      assert group[..i] == group[..i - 1] + [dep];
      assert done + Elements(group[..i]) == before + {dep};
      var ds := DependentsOf(edges, dep);
      ReleasedMembers(edges, before + {dep}, ds, |ds|);
      forall x ensures x in Released(edges, before + {dep}, ds, |ds|) <==>
        Pending(edges, x, before) > 0 && Pending(edges, x, before + {dep}) == 0
      {
        ReleasedExactly(edges, before, dep, x);
      }
      forall x ensures Pending(edges, x, before) >= Pending(edges, x, before + {dep}) {
        PendingSplit(edges, x, before, dep);
      }
      forall x ensures Pending(edges, x, done) >= Pending(edges, x, before) {
        PendingAntitone(edges, x, done, before);
      }
      DistinctConcat(NextIds(edges, done, group, i - 1), Released(edges, before + {dep}, ds, |ds|));
    }
  }

  lemma {:induction false} PendingAntitone(edges: seq<Edge>, id: string, done: set<string>, more: set<string>)
    requires done <= more
    ensures Pending(edges, id, done) >= Pending(edges, id, more)
    decreases |edges|
  {
    if edges == [] {
    } else {
      PendingAntitone(edges[..|edges| - 1], id, done, more);
    }
  }

  /** The ids at chain depth exactly `k`. */
  ghost function LevelSet(g: Digraph, k: nat): set<string>
    requires g.Valid()
  {
    DeepNodes(g, k) - DeepNodes(g, k + 1)
  }

  ghost predicate IsLevel(g: Digraph, k: nat, group: seq<string>)
    requires g.Valid()
  {
    Distinct(group) && Elements(group) == LevelSet(g, k)
  }

  lemma DeepNodesShrink(g: Digraph, k: nat)
    requires g.Valid()
    ensures DeepNodes(g, k + 1) <= DeepNodes(g, k)
  {
    forall s | s in DeepNodes(g, k + 1) ensures s in DeepNodes(g, k) { DeepMonotone(g, s, k, k + 1); }
  }

  lemma PendingByDepth(steps: seq<PlanStep>, k: nat, done: set<string>, s: string)
    requires s in Ids(steps)
    requires done == Ids(steps) - DeepNodes(DependencyGraph(steps), k)
    ensures Pending(EdgesOf(steps, Ids(steps)), s, done) == 0 <==> s !in DeepNodes(DependencyGraph(steps), k + 1)
  {
    PendingZeroMeansDepsDone(steps, s, done);
    DepthStep(DependencyGraph(steps), k, done, s);
  }

  /** What a level releases is the next level. */
  lemma NextIsLevel(steps: seq<PlanStep>, k: nat, done: set<string>, group: seq<string>)
    requires IsLevel(DependencyGraph(steps), k, group)
    requires done == Ids(steps) - DeepNodes(DependencyGraph(steps), k)
    ensures IsLevel(DependencyGraph(steps), k + 1, NextIds(EdgesOf(steps, Ids(steps)), done, group, |group|))
    ensures done + Elements(group) == Ids(steps) - DeepNodes(DependencyGraph(steps), k + 1)
  {
    var g, edges := DependencyGraph(steps), EdgesOf(steps, Ids(steps));
    var next := NextIds(edges, done, group, |group|);
    DeepNodesShrink(g, k);
    NextMembers(edges, done, group, |group|);
    assert group[..|group|] == group;
    forall s ensures s in next <==> s in LevelSet(g, k + 1) {
      if s in Ids(steps) {
        PendingByDepth(steps, k, done, s);
        PendingByDepth(steps, k + 1, done + Elements(group), s);
      } else {
        NoPendingOutside(steps, Ids(steps), s, done);
      }
    }
  }

  lemma NoPendingOutside(steps: seq<PlanStep>, ids: set<string>, s: string, done: set<string>)
    requires s !in Ids(steps)
    ensures Pending(EdgesOf(steps, ids), s, done) == 0
  {
    PendingZero(EdgesOf(steps, ids), s, done);
    if e :| e in EdgesOf(steps, ids) && e.0 == s && e.1 !in done {
      EdgesOfMembers(steps, ids, e);
      assert false;
    }
  }

  // ---------------------------------------------------------------- Kahn's algorithm

  ghost predicate DegreesAre(inDegree: map<string, int>, ids: set<string>, edges: seq<Edge>, done: set<string>) {
    inDegree.Keys == ids && forall id :: id in ids ==> inDegree[id] == Pending(edges, id, done)
  }

  /** Midway through the dependents of the step just finished: the rest still count. */
  ghost predicate DegreesMidway(inDegree: map<string, int>, ids: set<string>, edges: seq<Edge>,
                                done: set<string>, rest: seq<string>) {
    inDegree.Keys == ids && forall id :: id in ids ==> inDegree[id] == Pending(edges, id, done) + Occurrences(rest, id)
  }

  /** The inner loop of one finished step. */
  method ReleaseDependents(dependents: seq<string>, stepMap: map<string, PlanStep>,
                           inDegree0: map<string, int>, next0: seq<PlanStep>,
                           ghost edges: seq<Edge>, ghost done: set<string>)
    returns (inDegree: map<string, int>, next: seq<PlanStep>)
    requires forall id :: id in stepMap ==> stepMap[id].stepId == id
    requires forall x :: x in dependents ==> x in stepMap
    requires DegreesMidway(inDegree0, stepMap.Keys, edges, done, dependents)
    requires FromMap(next0, stepMap)
    ensures DegreesAre(inDegree, stepMap.Keys, edges, done)
    ensures GroupIds(next) == GroupIds(next0) + Released(edges, done, dependents, |dependents|)
    ensures FromMap(next, stepMap)
  {
    inDegree, next := inDegree0, next0;
    ghost var ids, before := stepMap.Keys, GroupIds(next0);
    ghost var released := [];
    ghost var rest := dependents;
    for j := 0 to |dependents|
      invariant rest == dependents[j..]
      invariant DegreesMidway(inDegree, ids, edges, done, rest)
      invariant released == Released(edges, done, dependents, j)
      invariant GroupIds(next) == before + released && FromMap(next, stepMap)
    {
      var id := dependents[j];
      rest := rest[1..];
      assert dependents[j..] == [id] + rest;
      MidwayStep(inDegree, ids, edges, done, id, rest);
      inDegree := inDegree[id := inDegree[id] - 1];
      if inDegree[id] == 0 {
        GroupIdsAppend(next, stepMap[id]);
        next := next + [stepMap[id]];
        released := released + [id];
      }
    }
  }

  lemma OccurrencesCons(y: string, s: seq<string>, x: string)
    ensures Occurrences([y] + s, x) == (if y == x then 1 else 0) + Occurrences(s, x)
  {
    assert ([y] + s)[1..] == s;
  }

  lemma MidwayStep(inDegree: map<string, int>, ids: set<string>, edges: seq<Edge>, done: set<string>,
                   id: string, rest: seq<string>)
    requires id in ids && DegreesMidway(inDegree, ids, edges, done, [id] + rest)
    ensures DegreesMidway(inDegree[id := inDegree[id] - 1], ids, edges, done, rest)
    ensures inDegree[id] - 1 == 0 <==> id !in rest && Pending(edges, id, done) == 0
  {
    forall x | x in ids ensures inDegree[x] == Pending(edges, x, done) + Occurrences(rest, x) + if x == id then 1 else 0 {
      OccurrencesCons(id, rest, x);
    }
    OccurrencesPositive(rest, id);
  }

  lemma GroupIdsAppend(group: seq<PlanStep>, s: PlanStep)
    ensures GroupIds(group + [s]) == GroupIds(group) + [s.stepId]
  {
  }

  /** The work on one group: every member releases its dependents in turn. */
  method ProcessGroup(current: seq<PlanStep>, stepMap: map<string, PlanStep>,
                      dependents: map<string, seq<string>>, inDegree0: map<string, int>,
                      ghost edges: seq<Edge>, ghost done: set<string>)
    returns (inDegree: map<string, int>, next: seq<PlanStep>)
    requires forall id :: id in stepMap ==> stepMap[id].stepId == id
    requires Follows(dependents, stepMap.Keys, edges)
    requires FromMap(current, stepMap)
    requires Distinct(GroupIds(current)) && Elements(GroupIds(current)) !! done
    requires DegreesAre(inDegree0, stepMap.Keys, edges, done)
    ensures DegreesAre(inDegree, stepMap.Keys, edges, done + Elements(GroupIds(current)))
    ensures GroupIds(next) == NextIds(edges, done, GroupIds(current), |current|)
    ensures FromMap(next, stepMap)
  {
    inDegree, next := inDegree0, [];
    ghost var ids := GroupIds(current);
    ghost var doneNow := done;
    assert doneNow == done + Elements(ids[..0]);
    for i := 0 to |current|
      invariant doneNow == done + Elements(ids[..i])
      invariant DegreesAre(inDegree, stepMap.Keys, edges, doneNow)
      invariant GroupIds(next) == NextIds(edges, done, ids, i)
      invariant FromMap(next, stepMap)
    {
      var dep := current[i].stepId;
      ElementsPrefix(ids, i, done);
      MidwayAtStart(inDegree, stepMap.Keys, edges, doneNow, dep);
      assert current[i] in current;
      doneNow := doneNow + {dep};
      inDegree, next := ReleaseDependents(dependents[dep], stepMap, inDegree, next, edges, doneNow);
    }
    assert ids[..|current|] == ids;
  }

  /** A group lists the mapped step of each of its ids. */
  ghost predicate FromMap(group: seq<PlanStep>, stepMap: map<string, PlanStep>) {
    forall s :: s in group ==> s.stepId in stepMap && s == stepMap[s.stepId]
  }

  /** The dependents dictionary is complete for the edge list over `ids`. */
  ghost predicate Follows(dependents: map<string, seq<string>>, ids: set<string>, edges: seq<Edge>) {
    && dependents.Keys == ids
    && (forall d :: d in ids ==> dependents[d] == DependentsOf(edges, d))
    && (forall e :: e in edges ==> e.0 in ids)
  }

  lemma ElementsPrefix(ids: seq<string>, i: nat, done: set<string>)
    requires i < |ids| && Distinct(ids) && Elements(ids) !! done
    ensures done + Elements(ids[..i + 1]) == done + Elements(ids[..i]) + {ids[i]}
    ensures ids[i] !in done + Elements(ids[..i])
  {
    assert ids[..i + 1] == ids[..i] + [ids[i]];
    assert ids[i] in Elements(ids);
  }

  lemma MidwayAtStart(inDegree: map<string, int>, ids: set<string>, edges: seq<Edge>, done: set<string>, dep: string)
    requires DegreesAre(inDegree, ids, edges, done) && dep !in done
    requires forall e :: e in edges ==> e.0 in ids
    ensures DegreesMidway(inDegree, ids, edges, done + {dep}, DependentsOf(edges, dep))
    ensures forall x :: x in DependentsOf(edges, dep) ==> x in ids
  {
    forall id | id in ids { PendingSplit(edges, id, done, dep); }
    DependentsAreSources(edges, dep);
  }

  lemma {:induction false} DependentsAreSources(edges: seq<Edge>, dep: string)
    ensures forall x :: x in DependentsOf(edges, dep) ==> (x, dep) in edges
    decreases |edges|
  {
    if edges == [] {
    } else {
      DependentsAreSources(edges[..|edges| - 1], dep);
      assert edges == edges[..|edges| - 1] + [edges[|edges| - 1]];
    }
  }

  /** The first `n` groups of the levelling, by id: each is what the one before releases. */
  function LevelIds(steps: seq<PlanStep>, k: nat): (r: (seq<string>, set<string>))
  {
    var edges := EdgesOf(steps, Ids(steps));
    if k == 0 then (Filter(IdOrder(steps), edges), {})
    else
      var (group, done) := LevelIds(steps, k - 1);
      (NextIds(edges, done, group, |group|), done + Elements(group))
  }

  /** The ids of `order` that wait for nothing. */
  function Filter(order: seq<string>, edges: seq<Edge>): (r: seq<string>)
    ensures forall x :: x in r <==> x in order && Pending(edges, x, {}) == 0
    ensures Distinct(order) ==> Distinct(r)
  {
    if order == [] then []
    else
      var n := |order| - 1;
      assert order == order[..n] + [order[n]];
      Filter(order[..n], edges) + if Pending(edges, order[n], {}) == 0 then [order[n]] else []
  }

  /** The levelling computes the chain-depth levels, for every plan. */
  lemma FirstIsLevel(steps: seq<PlanStep>)
    ensures IsLevel(DependencyGraph(steps), 0, LevelIds(steps, 0).0)
    ensures LevelIds(steps, 0).1 == Ids(steps) - DeepNodes(DependencyGraph(steps), 0)
  {
    var g := DependencyGraph(steps);
    var group := LevelIds(steps, 0).0;
    forall s ensures s in group <==> s in LevelSet(g, 0) {
      if s in Ids(steps) { PendingByDepth(steps, 0, {}, s); }
    }
  }

  lemma {:induction false} LevelIdsAreLevels(steps: seq<PlanStep>, k: nat)
    ensures IsLevel(DependencyGraph(steps), k, LevelIds(steps, k).0)
    ensures LevelIds(steps, k).1 == Ids(steps) - DeepNodes(DependencyGraph(steps), k)
    decreases k
  {
    if k == 0 {
      FirstIsLevel(steps);
    } else {
      LevelIdsAreLevels(steps, k - 1);
      var (group, done) := LevelIds(steps, k - 1);
      NextIsLevel(steps, k - 1, done, group);
    }
  }

  /** One turn of the levelling loop: the group is new, and something is left to count down. */
  lemma LevelStep(steps: seq<PlanStep>, k: nat)
    ensures var (group, done) := LevelIds(steps, k);
      && Distinct(group) && Elements(group) !! done
      && (group != [] ==> Ids(steps) - (done + Elements(group)) < Ids(steps) - done)
  {
    var (group, done) := LevelIds(steps, k);
    LevelIdsAreLevels(steps, k);
    if group != [] {
      assert group[0] in Elements(group) && group[0] in Ids(steps) - done;
    }
  }

  lemma EdgesStartInside(steps: seq<PlanStep>)
    ensures forall e :: e in EdgesOf(steps, Ids(steps)) ==> e.0 in Ids(steps)
  {
    forall e | e in EdgesOf(steps, Ids(steps)) ensures e.0 in Ids(steps) { EdgesOfMembers(steps, Ids(steps), e); }
  }

  lemma FilterPrefix(order: seq<string>, edges: seq<Edge>, i: nat)
    requires i < |order|
    ensures Filter(order[..i + 1], edges)
         == Filter(order[..i], edges) + if Pending(edges, order[i], {}) == 0 then [order[i]] else []
  {
    assert order[..i + 1][..i] == order[..i];
  }

  /** The initial group: ids of in-degree zero, in dictionary order. */
  method Roots(order: seq<string>, stepMap: map<string, PlanStep>, inDegree: map<string, int>, ghost edges: seq<Edge>)
    returns (current: seq<PlanStep>)
    requires forall x :: x in order ==> x in stepMap
    requires forall id :: id in stepMap ==> stepMap[id].stepId == id
    requires DegreesAre(inDegree, stepMap.Keys, edges, {})
    ensures GroupIds(current) == Filter(order, edges) && FromMap(current, stepMap)
  {
    current := [];
    ghost var ids := [];
    for i := 0 to |order|
      invariant GroupIds(current) == ids == Filter(order[..i], edges) && FromMap(current, stepMap)
    {
      var id := order[i];
      FilterPrefix(order, edges, i);
      if inDegree[id] == 0 {
        GroupIdsAppend(current, stepMap[id]);
        current := current + [stepMap[id]];
        ids := ids + [id];
      }
    }
    assert order[..|order|] == order;
  }

  /** `group` is the non-empty level `k` of the plan, as mapped steps. */
  ghost predicate GroupAt(steps: seq<PlanStep>, k: nat, group: seq<PlanStep>) {
    group != [] && GroupIds(group) == LevelIds(steps, k).0 && FromMap(group, StepMap(steps))
  }

  ghost predicate GroupsAt(steps: seq<PlanStep>, groups: seq<seq<PlanStep>>) {
    forall k {:trigger GroupAt(steps, k, groups[k])} :: 0 <= k < |groups| ==> GroupAt(steps, k, groups[k])
  }

  lemma GroupsAtAppend(steps: seq<PlanStep>, groups: seq<seq<PlanStep>>, group: seq<PlanStep>)
    requires GroupsAt(steps, groups) && GroupAt(steps, |groups|, group)
    ensures GroupsAt(steps, groups + [group])
  {
    forall k | 0 <= k < |groups + [group]|
      ensures GroupAt(steps, k, (groups + [group])[k])
    {
      if k < |groups| { assert GroupAt(steps, k, groups[k]); }
    }
  }

  /** The loop's state at level `k`: the group, the in-degrees and what is done. */
  ghost predicate AtLevel(steps: seq<PlanStep>, k: nat, current: seq<PlanStep>, inDegree: map<string, int>,
                          done: set<string>) {
    && (GroupIds(current), done) == LevelIds(steps, k)
    && FromMap(current, StepMap(steps))
    && DegreesAre(inDegree, Ids(steps), EdgesOf(steps, Ids(steps)), done)
  }

  /** One turn of the levelling loop. */
  method NextGroup(steps: seq<PlanStep>, stepMap: map<string, PlanStep>, dependents: map<string, seq<string>>,
                   current: seq<PlanStep>, inDegree0: map<string, int>, ghost k: nat, ghost done: set<string>)
    returns (inDegree: map<string, int>, next: seq<PlanStep>)
    requires stepMap == StepMap(steps) && Follows(dependents, Ids(steps), EdgesOf(steps, Ids(steps)))
    requires AtLevel(steps, k, current, inDegree0, done)
    ensures AtLevel(steps, k + 1, next, inDegree, done + Elements(GroupIds(current)))
  {
    LevelStep(steps, k);
    inDegree, next := ProcessGroup(current, stepMap, dependents, inDegree0, EdgesOf(steps, Ids(steps)), done);
  }

  /** The groups are all the non-empty levels, in order. */
  ghost predicate IsLevelling(steps: seq<PlanStep>, groups: seq<seq<PlanStep>>) {
    GroupsAt(steps, groups) && LevelIds(steps, |groups|).0 == []
  }

  /** Kahn's algorithm. */
  method TopologicalGroups(steps: seq<PlanStep>) returns (groups: seq<seq<PlanStep>>)
    ensures IsLevelling(steps, groups)
  {
    var stepMap := StepMap(steps);
    var current, inDegree, dependents := StartLevels(steps, stepMap);
    groups := [];
    ghost var done: set<string> := {};
    while current != []
      invariant AtLevel(steps, |groups|, current, inDegree, done)
      invariant GroupsAt(steps, groups)
      decreases Ids(steps) - done
    {
      LevelStep(steps, |groups|);
      GroupsAtAppend(steps, groups, current);
      groups := groups + [current];
      ghost var before := done;
      done := done + Elements(GroupIds(current));
      inDegree, current := NextGroup(steps, stepMap, dependents, current, inDegree, |groups| - 1, before);
    }
  }

  method StartLevels(steps: seq<PlanStep>, stepMap: map<string, PlanStep>)
    returns (current: seq<PlanStep>, inDegree: map<string, int>, dependents: map<string, seq<string>>)
    requires stepMap == StepMap(steps)
    ensures Follows(dependents, Ids(steps), EdgesOf(steps, Ids(steps)))
    ensures AtLevel(steps, 0, current, inDegree, {})
  {
    inDegree, dependents := InitialDegrees(steps);
    EdgesStartInside(steps);
    current := Roots(IdOrder(steps), stepMap, inDegree, EdgesOf(steps, Ids(steps)));
  }

  ghost predicate InGroup(groups: seq<seq<PlanStep>>, k: nat, id: string) {
    k < |groups| && id in GroupIds(groups[k])
  }

  lemma LastDepthIsStable(steps: seq<PlanStep>, groups: seq<seq<PlanStep>>)
    requires IsLevelling(steps, groups)
    ensures DeepNodes(DependencyGraph(steps), |groups|) == DeepNodes(DependencyGraph(steps), |groups| + 1)
  {
    LevelIdsAreLevels(steps, |groups|);
    EmptyLevelIsStable(DependencyGraph(steps), |groups|, LevelIds(steps, |groups|).0);
  }

  lemma EmptyLevelIsStable(g: Digraph, k: nat, group: seq<string>)
    requires g.Valid() && IsLevel(g, k, group) && group == []
    ensures DeepNodes(g, k) == DeepNodes(g, k + 1)
  {
    DeepNodesShrink(g, k);
    assert Elements(group) == {};
    forall s | s in DeepNodes(g, k) ensures s in DeepNodes(g, k + 1) {
      assert s !in LevelSet(g, k);
    }
  }

  /** Group `k` holds exactly the ids at depth `k`, also past the last group. */
  lemma InGroupByDepth(steps: seq<PlanStep>, groups: seq<seq<PlanStep>>, k: nat, id: string)
    requires IsLevelling(steps, groups)
    ensures InGroup(groups, k, id) <==> id in LevelSet(DependencyGraph(steps), k)
  {
    var g := DependencyGraph(steps);
    if k < |groups| {
      LevelIdsAreLevels(steps, k);
      assert GroupAt(steps, k, groups[k]);
      assert id in GroupIds(groups[k]) <==> id in Elements(GroupIds(groups[k]));
    } else {
      LastDepthIsStable(steps, groups);
      StableHasNoLaterLevel(g, |groups|, k, id);
    }
  }

  /**
   A step is in group `k` exactly when it reaches no cycle and its longest
   dependency chain has `k` edges. Holds of cyclic plans, unknown and repeated
   dependencies, and repeated ids (whose dependencies merge).
   */
  lemma GroupIsLongestChain(steps: seq<PlanStep>, groups: seq<seq<PlanStep>>, k: nat, id: string)
    requires IsLevelling(steps, groups)
    ensures InGroup(groups, k, id) <==> id in Ids(steps) && HasLevel(DependencyGraph(steps), id, k)
  {
    InGroupByDepth(steps, groups, k, id);
    LevelByDepth(DependencyGraph(steps), id, k);
  }

  lemma LevelsDisjoint(g: Digraph, k: nat, m: nat, id: string)
    requires g.Valid() && id in LevelSet(g, k) && id in LevelSet(g, m)
    ensures k == m
  {
    if k < m { DeepMonotone(g, id, k + 1, m); }
    if m < k { DeepMonotone(g, id, m + 1, k); }
  }

  /** Every id is emitted at most once. */
  lemma EmittedOnce(steps: seq<PlanStep>, groups: seq<seq<PlanStep>>, k: nat, i: nat, m: nat, j: nat)
    requires IsLevelling(steps, groups) && k < |groups| && m < |groups|
    requires i < |groups[k]| && j < |groups[m]| && groups[k][i].stepId == groups[m][j].stepId
    ensures k == m && i == j
  {
    var id := groups[k][i].stepId;
    assert GroupIds(groups[k])[i] == id && GroupIds(groups[m])[j] == id;
    InGroupByDepth(steps, groups, k, id);
    InGroupByDepth(steps, groups, m, id);
    LevelsDisjoint(DependencyGraph(steps), k, m, id);
    assert GroupAt(steps, k, groups[k]);
    LevelIdsAreLevels(steps, k);
  }

  lemma DroppedByDepth(steps: seq<PlanStep>, groups: seq<seq<PlanStep>>, id: string)
    requires IsLevelling(steps, groups) && id in Ids(steps)
    ensures (forall k :: !InGroup(groups, k, id)) <==> id in DeepNodes(DependencyGraph(steps), |groups|)
  {
    var g, n := DependencyGraph(steps), |groups|;
    if id in DeepNodes(g, n) {
      forall k: nat ensures !InGroup(groups, k, id) {
        if k < n { DeepMonotone(g, id, k + 1, n); }
        InGroupByDepth(steps, groups, k, id);
      }
    } else {
      var k := LevelBelow(g, id, n);
      InGroupByDepth(steps, groups, k, id);
    }
  }

  /** The steps left out are exactly those with a cycle among their transitive dependencies. */
  lemma DroppedReachesCycle(steps: seq<PlanStep>, groups: seq<seq<PlanStep>>, id: string)
    requires IsLevelling(steps, groups) && id in Ids(steps)
    ensures (forall k :: !InGroup(groups, k, id)) <==>
      exists c :: Reaches(DependencyGraph(steps), id, c) && OnCycle(DependencyGraph(steps), c)
  {
    DroppedByDepth(steps, groups, id);
    LastDepthIsStable(steps, groups);
    StableDepthMeansCycle(DependencyGraph(steps), |groups|, id);
  }

  /** The levelling is complete exactly when the dependency graph has no cycle. */
  lemma LevellingDropsIffCyclic(steps: seq<PlanStep>, groups: seq<seq<PlanStep>>)
    requires IsLevelling(steps, groups)
    ensures (exists id :: id in Ids(steps) && forall k :: !InGroup(groups, k, id)) <==> HasCycle(DependencyGraph(steps))
  {
    var g := DependencyGraph(steps);
    if id :| id in Ids(steps) && forall k :: !InGroup(groups, k, id) {
      DroppedReachesCycle(steps, groups, id);
    }
    if HasCycle(g) {
      var c :| OnCycle(g, c);
      CycleIsDeep(g, c, 0);
      assert IsChain(g, [c]);
      assert Reaches(g, c, c);
      DroppedReachesCycle(steps, groups, c);
    }
  }

  /** Dependencies are emitted in a strictly earlier group. */
  lemma DependenciesComeEarlier(steps: seq<PlanStep>, groups: seq<seq<PlanStep>>, k: nat, id: string, dep: string)
    returns (j: nat)
    requires IsLevelling(steps, groups) && InGroup(groups, k, id)
    requires id in Ids(steps) && dep in DependencyGraph(steps).succ[id]
    ensures j < k && InGroup(groups, j, dep)
  {
    var g := DependencyGraph(steps);
    InGroupByDepth(steps, groups, k, id);
    assert !Deep(g, dep, k);
    j := LevelBelow(g, dep, k);
    InGroupByDepth(steps, groups, j, dep);
  }
}
