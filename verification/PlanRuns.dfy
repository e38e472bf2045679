/**
 What every plan run guarantees: one result per step, dependencies first, abort
 propagation, and approval before a gated step's tool.
 */
module PlanRuns {
  import opened Sequences
  import opened Wrappers
  import opened Graph
  import opened Planner
  import opened PlanValidation
  import opened Tools
  import opened Executor

  // ---------------------------------------------------------------- group order

  /** The place of the `i`-th step of group `k` in group order. */
  function FlatIndex(groups: seq<seq<PlanStep>>, k: nat, i: nat): nat
    requires k < |groups|
  {
    |Flatten(groups[..k])| + i
  }

  lemma FlatIndexIsPlace(groups: seq<seq<PlanStep>>, k: nat, i: nat)
    requires k < |groups| && i < |groups[k]|
    ensures FlatIndex(groups, k, i) < |Flatten(groups)|
    ensures Flatten(groups)[FlatIndex(groups, k, i)] == groups[k][i]
  {
    FlattenSplit(groups, k);
    assert (Flatten(groups[..k]) + groups[k])[FlatIndex(groups, k, i)] == groups[k][i];
  }

  lemma {:induction false} FlatIndexOnto(groups: seq<seq<PlanStep>>, a: nat) returns (k: nat, i: nat)
    requires a < |Flatten(groups)|
    ensures k < |groups| && i < |groups[k]| && a == FlatIndex(groups, k, i)
    decreases |groups|
  {
    var n := |groups| - 1;
    if a < |Flatten(groups[..n])| {
      k, i := FlatIndexOnto(groups[..n], a);
      assert groups[..n][..k] == groups[..k];
    } else {
      k, i := n, a - |Flatten(groups[..n])|;
    }
  }

  lemma {:induction false} FlatIndexMonotone(groups: seq<seq<PlanStep>>, j: nat, m: nat, k: nat, i: nat)
    requires j < k < |groups| && m < |groups[j]|
    ensures FlatIndex(groups, j, m) < FlatIndex(groups, k, i)
    decreases k
  {
    assert groups[..j + 1][..j] == groups[..j];
    if j + 1 < k {
      assert groups[..k][..k - 1] == groups[..k - 1];
      FlatIndexMonotone(groups, j, m, k - 1, 0);
    }
  }

  ghost predicate DistinctFlat(flat: seq<PlanStep>) {
    forall a, b :: 0 <= a < b < |flat| ==> flat[a].stepId != flat[b].stepId
  }

  lemma GroupOrderIsDistinct(steps: seq<PlanStep>, groups: seq<seq<PlanStep>>)
    requires IsLevelling(steps, groups)
    ensures DistinctFlat(Flatten(groups))
  {
    var flat := Flatten(groups);
    forall a, b | 0 <= a < b < |flat|
      ensures flat[a].stepId != flat[b].stepId
    {
      if flat[a].stepId == flat[b].stepId {
        var k, i := FlatIndexOnto(groups, a);
        var m, j := FlatIndexOnto(groups, b);
        FlatIndexIsPlace(groups, k, i);
        FlatIndexIsPlace(groups, m, j);
        EmittedOnce(steps, groups, k, i, m, j);
        assert false;
      }
    }
  }

  /** In group order every known dependency of a step comes before it. */
  lemma DependencyBefore(steps: seq<PlanStep>, groups: seq<seq<PlanStep>>, a: nat, dep: string) returns (b: nat)
    requires IsLevelling(steps, groups) && a < |Flatten(groups)|
    requires Flatten(groups)[a].stepId in Ids(steps)
    requires dep in DependencyGraph(steps).succ[Flatten(groups)[a].stepId]
    ensures b < a && Flatten(groups)[b].stepId == dep
  {
    var k, i := FlatIndexOnto(groups, a);
    FlatIndexIsPlace(groups, k, i);
    var id := Flatten(groups)[a].stepId;
    assert GroupIds(groups[k])[i] == id;
    var j := DependenciesComeEarlier(steps, groups, k, id, dep);
    var m :| 0 <= m < |groups[j]| && GroupIds(groups[j])[m] == dep;
    b := FlatIndex(groups, j, m);
    FlatIndexIsPlace(groups, j, m);
    FlatIndexMonotone(groups, j, m, k, i);
  }

  // ---------------------------------------------------------------- the trace

  function Trace(m: Machine, flat: seq<PlanStep>, n: nat, history: seq<Invocation>): seq<ExecEvent>
    requires n <= |flat|
  {
    Execute(m, flat, n, history).trace
  }

  /** A tool-run event belongs to one step, whose place bounds it in the trace. */
  lemma {:induction false} RunEventPlace(m: Machine, flat: seq<PlanStep>, n: nat, history: seq<Invocation>, i: nat)
    returns (a: nat)
    requires n <= |flat| && i < |Trace(m, flat, n, history)| && Trace(m, flat, n, history)[i].Ran?
    ensures a < n && |Trace(m, flat, a, history)| <= i < |Trace(m, flat, a + 1, history)|
    ensures Trace(m, flat, a + 1, history)[i] == Trace(m, flat, n, history)[i]
    ensures Execute(m, flat, a, history).abortedBy.None?
    ensures Trace(m, flat, n, history)[i].stepId == flat[a].stepId
    ensures Trace(m, flat, n, history)[i].run
         in m.runs(flat[a], |Execute(m, flat, a, history).invocations|)
    decreases n
  {
    if i < |Trace(m, flat, n - 1, history)| {
      a := RunEventPlace(m, flat, n - 1, history, i);
    } else {
      a := n - 1;
    }
  }

  /** The record of step `b` stays in the trace, below everything a later step adds. */
  lemma {:induction false} RecordStays(m: Machine, flat: seq<PlanStep>, b: nat, n: nat, history: seq<Invocation>)
    requires b < n <= |flat|
    ensures 0 < |Trace(m, flat, b + 1, history)| <= |Trace(m, flat, n, history)|
    ensures var e := Trace(m, flat, n, history)[|Trace(m, flat, b + 1, history)| - 1];
      e.Recorded? && e.stepId == flat[b].stepId
    decreases n
  {
    if b + 1 < n {
      RecordStays(m, flat, b, n - 1, history);
    }
  }

  /**
   No tool runs for a step before every known dependency of the step has its result.
   Holds of every plan, also one whose cyclic part is left out.
   */
  lemma DependenciesHaveResults(m: Machine, steps: seq<PlanStep>, groups: seq<seq<PlanStep>>,
                                history: seq<Invocation>, i: nat, dep: string) returns (j: nat)
    requires IsLevelling(steps, groups)
    requires i < |Trace(m, Flatten(groups), |Flatten(groups)|, history)|
    requires var e := Trace(m, Flatten(groups), |Flatten(groups)|, history)[i];
      e.Ran? && e.stepId in Ids(steps) && dep in DependencyGraph(steps).succ[e.stepId]
    ensures j < i
    ensures var e := Trace(m, Flatten(groups), |Flatten(groups)|, history)[j];
      e.Recorded? && e.stepId == dep
  {
    var flat := Flatten(groups);
    var a := RunEventPlace(m, flat, |flat|, history, i);
    var b := DependencyBefore(steps, groups, a, dep);
    j := RecordedBefore(m, flat, b, a, i, history);
  }

  lemma RecordedBefore(m: Machine, flat: seq<PlanStep>, b: nat, a: nat, i: nat, history: seq<Invocation>) returns (j: nat)
    requires b < a < |flat| && |Trace(m, flat, a, history)| <= i < |Trace(m, flat, |flat|, history)|
    ensures j < i
    ensures Trace(m, flat, |flat|, history)[j].Recorded? && Trace(m, flat, |flat|, history)[j].stepId == flat[b].stepId
  {
    RecordStays(m, flat, b, a, history);
    RecordStays(m, flat, b, |flat|, history);
    j := |Trace(m, flat, b + 1, history)| - 1;
  }

  // ---------------------------------------------------------------- abort

  /** What the steps from `a` on leave in the trace once `aborter` has aborted the run. */
  function AbortedTail(flat: seq<PlanStep>, a: nat, n: nat, aborter: string): seq<ExecEvent>
    requires a <= n <= |flat|
  {
    if a == n then []
    else
      AbortedTail(flat, a, n - 1, aborter)
      + [Recorded(flat[n - 1].stepId, Unrun(flat[n - 1], AbortedByStep(aborter)))]
  }

  /**
   Once a step's first verdict says abort, the rest of the run is fixed: no tool
   runs again and every later step in group order is recorded as aborted by it.
   */
  lemma AbortEndsRun(m: Machine, flat: seq<PlanStep>, a: nat, n: nat, history: seq<Invocation>)
    requires a < n <= |flat|
    requires Execute(m, flat, a, history).abortedBy.None?
    requires Aborts(m.runs(flat[a], |Execute(m, flat, a, history).invocations|))
    ensures var st, end := Execute(m, flat, a + 1, history), Execute(m, flat, n, history);
      && end.abortedBy == Some(flat[a].stepId)
      && end.invocations == st.invocations
      && end.trace == st.trace + AbortedTail(flat, a + 1, n, flat[a].stepId)
  {
    AbortIsNoted(m, flat, a, history);
    AbortedRunTail(m, flat, a + 1, n, history, flat[a].stepId);
  }

  lemma AbortIsNoted(m: Machine, flat: seq<PlanStep>, a: nat, history: seq<Invocation>)
    requires a < |flat| && Execute(m, flat, a, history).abortedBy.None?
    requires Aborts(m.runs(flat[a], |Execute(m, flat, a, history).invocations|))
    ensures Execute(m, flat, a + 1, history).abortedBy == Some(flat[a].stepId)
  {
  }

  lemma {:induction false} AbortedRunTail(m: Machine, flat: seq<PlanStep>, a: nat, n: nat,
                                          history: seq<Invocation>, aborter: string)
    requires a <= n <= |flat| && Execute(m, flat, a, history).abortedBy == Some(aborter)
    ensures var st, end := Execute(m, flat, a, history), Execute(m, flat, n, history);
      && end.abortedBy == Some(aborter)
      && end.invocations == st.invocations
      && end.trace == st.trace + AbortedTail(flat, a, n, aborter)
    decreases n
  {
    if a == n {
    } else {
      AbortedRunTail(m, flat, a, n - 1, history, aborter);
      AbortedStep(m, Execute(m, flat, n - 1, history), flat[n - 1], aborter);
    }
  }

  lemma AbortedStep(m: Machine, st: ExecState, step: PlanStep, aborter: string)
    requires st.abortedBy == Some(aborter)
    ensures var r := Unrun(step, AbortedByStep(aborter));
      ExecStep(m, st, step)
      == ExecState(st.results[step.stepId := r], st.abortedBy, st.invocations, st.trace + [Recorded(step.stepId, r)])
  {
  }

  /** A run is aborted only by a step whose first verdict said so. */
  lemma {:induction false} AbortHasCause(m: Machine, flat: seq<PlanStep>, n: nat, history: seq<Invocation>)
    returns (a: nat)
    requires n <= |flat| && Execute(m, flat, n, history).abortedBy.Some?
    ensures a < n && Execute(m, flat, n, history).abortedBy == Some(flat[a].stepId)
    ensures Execute(m, flat, a, history).abortedBy.None?
    ensures Aborts(m.runs(flat[a], |Execute(m, flat, a, history).invocations|))
    decreases n
  {
    if Execute(m, flat, n - 1, history).abortedBy.Some? {
      a := AbortHasCause(m, flat, n - 1, history);
    } else {
      a := n - 1;
    }
  }

  // ---------------------------------------------------------------- results

  /** The result a step gets is the one recorded at its own place in group order. */
  lemma {:induction false} ResultIsOwn(m: Machine, flat: seq<PlanStep>, b: nat, n: nat, history: seq<Invocation>)
    requires DistinctFlat(flat) && b < n <= |flat|
    ensures flat[b].stepId in Execute(m, flat, n, history).results
    ensures Execute(m, flat, n, history).results[flat[b].stepId]
         == Execute(m, flat, b + 1, history).results[flat[b].stepId]
    decreases n
  {
    if b + 1 < n {
      ResultIsOwn(m, flat, b, n - 1, history);
    }
  }

  /** In a run of a plan's groups, every later step in group order carries the aborting step's name. */
  lemma LaterStepsAborted(m: Machine, steps: seq<PlanStep>, groups: seq<seq<PlanStep>>, a: nat, b: nat, history: seq<Invocation>)
    requires IsLevelling(steps, groups) && a < b < |Flatten(groups)|
    requires Execute(m, Flatten(groups), a, history).abortedBy.None?
    requires Aborts(m.runs(Flatten(groups)[a], |Execute(m, Flatten(groups), a, history).invocations|))
    ensures var flat := Flatten(groups);
      var results := Execute(m, flat, |flat|, history).results;
      && flat[b].stepId in results
      && results[flat[b].stepId] == Unrun(flat[b], AbortedByStep(flat[a].stepId))
  {
    var flat := Flatten(groups);
    GroupOrderIsDistinct(steps, groups);
    AbortEndsRun(m, flat, a, b, history);
    ResultIsOwn(m, flat, b, |flat|, history);
  }

  lemma {:induction false} ResultNamesStep(m: Machine, flat: seq<PlanStep>, n: nat, history: seq<Invocation>, id: string)
    requires n <= |flat| && id in Execute(m, flat, n, history).results
    ensures Execute(m, flat, n, history).results[id].stepId == id
    decreases n
  {
    if flat[n - 1].stepId != id {
      ResultNamesStep(m, flat, n - 1, history, id);
    }
  }

  ghost predicate Emitted(flat: seq<PlanStep>, n: nat, id: string)
    requires n <= |flat|
  {
    exists b :: 0 <= b < n && flat[b].stepId == id
  }

  /** The results are those of the steps that had their turn. */
  lemma {:induction false} ResultKeys(m: Machine, flat: seq<PlanStep>, n: nat, history: seq<Invocation>, id: string)
    requires n <= |flat|
    ensures id in Execute(m, flat, n, history).results <==> Emitted(flat, n, id)
    decreases n
  {
    if n == 0 {
    } else {
      ResultKeys(m, flat, n - 1, history, id);
      assert id in Execute(m, flat, n, history).results <==>
        id in Execute(m, flat, n - 1, history).results || id == flat[n - 1].stepId;
    }
  }

  lemma EmittedInGroup(groups: seq<seq<PlanStep>>, id: string)
    ensures Emitted(Flatten(groups), |Flatten(groups)|, id) <==> exists k :: InGroup(groups, k, id)
  {
    var flat := Flatten(groups);
    if b :| 0 <= b < |flat| && flat[b].stepId == id {
      var k, i := FlatIndexOnto(groups, b);
      FlatIndexIsPlace(groups, k, i);
      assert GroupIds(groups[k])[i] == id;
      assert InGroup(groups, k, id);
    }
    if k: nat :| InGroup(groups, k, id) {
      var i :| 0 <= i < |groups[k]| && GroupIds(groups[k])[i] == id;
      FlatIndexIsPlace(groups, k, i);
    }
  }

  ghost predicate AllHaveResults(steps: seq<PlanStep>, results: map<string, StepResult>) {
    forall i :: 0 <= i < |steps| ==> steps[i].stepId in results
  }

  lemma AllHaveResultsInit(steps: seq<PlanStep>, results: map<string, StepResult>)
    requires steps != []
    ensures AllHaveResults(steps, results) <==>
      AllHaveResults(steps[..|steps| - 1], results) && steps[|steps| - 1].stepId in results
  {
    var front := steps[..|steps| - 1];
    assert steps == front + [steps[|steps| - 1]];
  }

  /** Collecting is complete exactly when every step has a result. */
  lemma {:induction false} CollectCount(steps: seq<PlanStep>, results: map<string, StepResult>)
    ensures |Collect(steps, results)| <= |steps|
    ensures |Collect(steps, results)| == |steps| <==> AllHaveResults(steps, results)
    ensures AllHaveResults(steps, results) ==>
      forall i :: 0 <= i < |steps| ==> Collect(steps, results)[i] == results[steps[i].stepId]
    decreases |steps|
  {
    if steps == [] {
    } else {
      CollectCount(steps[..|steps| - 1], results);
      AllHaveResultsInit(steps, results);
    }
  }

  lemma ResultsIffAcyclic(m: Machine, steps: seq<PlanStep>, groups: seq<seq<PlanStep>>, history: seq<Invocation>)
    requires IsLevelling(steps, groups)
    ensures AllHaveResults(steps, Execute(m, Flatten(groups), |Flatten(groups)|, history).results) <==>
      !HasCycle(DependencyGraph(steps))
  {
    var flat := Flatten(groups);
    var results := Execute(m, flat, |flat|, history).results;
    forall id ensures id in results <==> exists k :: InGroup(groups, k, id) {
      ResultKeys(m, flat, |flat|, history, id);
      EmittedInGroup(groups, id);
    }
    AllIdsIffAllSteps(steps, results);
    LevellingDropsIffCyclic(steps, groups);
  }

  lemma AllIdsIffAllSteps(steps: seq<PlanStep>, results: map<string, StepResult>)
    ensures AllHaveResults(steps, results) <==> forall id :: id in Ids(steps) ==> id in results
  {
    forall i | 0 <= i < |steps| ensures steps[i].stepId in Ids(steps) {}
  }

  /**
   A plan, with whatever ids, gets one result per step exactly when its merged
   dependency graph has no cycle; the results are then in plan order, each about its step.
   */
  lemma OneResultPerStepIff(m: Machine, steps: seq<PlanStep>, groups: seq<seq<PlanStep>>, history: seq<Invocation>)
    requires IsLevelling(steps, groups)
    ensures var r := Collect(steps, Execute(m, Flatten(groups), |Flatten(groups)|, history).results);
      && (|r| == |steps| <==> !HasCycle(DependencyGraph(steps)))
      && (|r| == |steps| ==> forall i :: 0 <= i < |steps| ==> r[i].stepId == steps[i].stepId)
  {
    var flat := Flatten(groups);
    var results := Execute(m, flat, |flat|, history).results;
    ResultsIffAcyclic(m, steps, groups, history);
    CollectCount(steps, results);
    forall i | 0 <= i < |steps| && steps[i].stepId in results
      ensures results[steps[i].stepId].stepId == steps[i].stepId
    {
      ResultNamesStep(m, flat, |flat|, history, steps[i].stepId);
    }
  }

  /** Accepted with distinct ids, a plan has every result. */
  lemma AcceptedPlanHasAllResults(m: Machine, steps: seq<PlanStep>, groups: seq<seq<PlanStep>>, history: seq<Invocation>)
    requires Accepted(steps) && Distinct(GroupIds(steps)) && IsLevelling(steps, groups)
    ensures |Collect(steps, Execute(m, Flatten(groups), |Flatten(groups)|, history).results)| == |steps|
  {
    AcceptedIsAcyclicIffNoRepeats(GroupIds(steps));
    OneResultPerStepIff(m, steps, groups, history);
  }

  /** The accepted two-step plan with a repeated id gets no result at all. */
  lemma RepeatedIdsLoseResults(m: Machine, groups: seq<seq<PlanStep>>, history: seq<Invocation>)
    requires IsLevelling([Step("a", ["a"]), Step("a", [])], groups)
    ensures Accepted([Step("a", ["a"]), Step("a", [])])
    ensures Collect([Step("a", ["a"]), Step("a", [])], Execute(m, Flatten(groups), |Flatten(groups)|, history).results) == []
  {
    var steps, flat := [Step("a", ["a"]), Step("a", [])], Flatten(groups);
    var results := Execute(m, flat, |flat|, history).results;
    RepeatedIdsCanDisagree(groups);
    ResultKeys(m, flat, |flat|, history, "a");
    EmittedInGroup(groups, "a");
    assert steps[..1] == [Step("a", ["a"])] && steps[..1][..0] == [];
    assert Collect(steps[..1], results) == [];
  }

  // ---------------------------------------------------------------- approval

  /**
   A tool runs for a step that needs approval only when a callback is present and
   approved that very step; construction makes every high-risk step such a step.
   */
  lemma GatedStepWasApproved(env: Environment, flat: seq<PlanStep>, history: seq<Invocation>, i: nat) returns (a: nat)
    requires i < |Trace(MachineOf(env), flat, |flat|, history)| && Trace(MachineOf(env), flat, |flat|, history)[i].Ran?
    requires forall s :: s in flat ==> s == PostInit(s)
    ensures a < |flat| && flat[a].stepId == Trace(MachineOf(env), flat, |flat|, history)[i].stepId
    ensures flat[a].riskLevel == High || flat[a].requiresApproval ==>
      env.approval.Some? && env.approval.value(flat[a])
  {
    a := RunEventPlace(MachineOf(env), flat, |flat|, history, i);
    assert flat[a] in flat;
  }
}
