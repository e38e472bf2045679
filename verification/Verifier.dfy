/**
 The built-in result verifier, and what it adds to a plan run: an unapproved tool
 stops the plan, and no alternative tool is ever tried.
 */
module Verifier {
  import opened Sequences
  import opened Wrappers
  import opened Planner
  import opened Tools
  import opened Executor
  import opened PlanRuns

  /** Evaluating a criterion: passed, failed, or not understood. */
  type CriterionEval = (string, ToolResult) -> Option<bool>

  function ResolveFallback(fallback: string): Action {
    match fallback
    case "use_alternative" => UseAlternative
    case "clarify" => Clarify
    case "proceed" => Proceed
    case "abort" => Abort
    case "skip" => Skip
    case _ => Retry
  }

  /** The criteria among the first `n` that definitely failed, in order. */
  function FailedCriteria(eval: CriterionEval, result: ToolResult, criteria: seq<string>, n: nat): seq<Issue>
    requires n <= |criteria|
  {
    if n == 0 then []
    else
      FailedCriteria(eval, result, criteria, n - 1)
      + if eval(criteria[n - 1], result) == Some(false) then [CriterionFailed(criteria[n - 1])] else []
  }

  function Verdict(eval: CriterionEval, result: ToolResult, criteria: seq<string>, fallback: string): Verification {
    match result.state
    case Blocked => Verification(false, [BlockedIssue(result.error)], Abort, None)
    case Invalid => Verification(false, [InvalidIssue(result.error)], Abort, None)
    case TimedOut => Verification(false, [TimedOutIssue], Retry, None)
    case Failed => Verification(false, [FailedIssue(result.error)], Retry, None)
    case Completed =>
      var issues := FailedCriteria(eval, result, criteria, |criteria|);
      if issues != [] then Verification(false, issues, ResolveFallback(fallback), None)
      else Verification(true, [], Proceed, None)
  }

  method Verify(eval: CriterionEval, result: ToolResult, criteria: seq<string>, fallback: string)
    returns (v: Verification)
    ensures v == Verdict(eval, result, criteria, fallback)
  {
    var resolved := ResolveFallback(fallback);
    if result.state == Blocked {
      return Verification(false, [BlockedIssue(result.error)], Abort, None);
    }
    if result.state == Invalid {
      return Verification(false, [InvalidIssue(result.error)], Abort, None);
    }
    if result.state == TimedOut {
      return Verification(false, [TimedOutIssue], Retry, None);
    }
    if result.state == Failed {
      return Verification(false, [FailedIssue(result.error)], Retry, None);
    }
    var issues := [];
    for i := 0 to |criteria|
      invariant issues == FailedCriteria(eval, result, criteria, i)
    {
      if eval(criteria[i], result) == Some(false) {
        issues := issues + [CriterionFailed(criteria[i])];
      }
    }
    if issues != [] {
      return Verification(false, issues, resolved, None);
    }
    return Verification(true, [], Proceed, None);
  }

  lemma {:induction false} NoFailedCriteria(eval: CriterionEval, result: ToolResult, criteria: seq<string>, n: nat)
    requires n <= |criteria|
    ensures FailedCriteria(eval, result, criteria, n) == [] <==>
      forall i :: 0 <= i < n ==> eval(criteria[i], result) != Some(false)
    decreases n
  {
    if n == 0 {
    } else {
      NoFailedCriteria(eval, result, criteria, n - 1);
    }
  }

  /** Success means exactly: completed, and no criterion that could be read failed. */
  lemma SuccessMeans(eval: CriterionEval, result: ToolResult, criteria: seq<string>, fallback: string)
    ensures Verdict(eval, result, criteria, fallback).success <==>
      result.state == Completed && forall i :: 0 <= i < |criteria| ==> eval(criteria[i], result) != Some(false)
  {
    NoFailedCriteria(eval, result, criteria, |criteria|);
  }

  /** A verdict asks to abort exactly for a blocked or invalid call, or for a failed criterion of a step that says so. */
  lemma AbortIff(eval: CriterionEval, result: ToolResult, criteria: seq<string>, fallback: string)
    ensures Verdict(eval, result, criteria, fallback).suggestedAction == Abort <==>
      || result.state == Blocked || result.state == Invalid
      || (result.state == Completed && fallback == "abort"
          && exists i :: 0 <= i < |criteria| && eval(criteria[i], result) == Some(false))
  {
    NoFailedCriteria(eval, result, criteria, |criteria|);
  }

  // ---------------------------------------------------------------- the verdict in full

  /** How the source names an action. */
  function NameOf(action: Action): string {
    match action
    case Retry => "retry"
    case UseAlternative => "use_alternative"
    case Clarify => "clarify"
    case Proceed => "proceed"
    case Abort => "abort"
    case Skip => "skip"
    case OtherAction(name) => name
  }

  /** The fallback names its action, and any text that names none means "retry". */
  lemma FallbackIsNamed(fallback: string)
    ensures var named := ["retry", "use_alternative", "clarify", "proceed", "abort", "skip"];
      NameOf(ResolveFallback(fallback)) == if fallback in named then fallback else "retry"
  {
  }

  /** The criteria at these places failed, and no other among the first `n`. */
  ghost predicate FailedAt(eval: CriterionEval, result: ToolResult, criteria: seq<string>, n: nat, issues: seq<Issue>, places: seq<nat>) {
    && n <= |criteria| && |places| == |issues| && Ascending(places)
    && (forall i: nat :: i in places <==> i < n && i < |criteria| && eval(criteria[i], result) == Some(false))
    && forall k :: 0 <= k < |places| ==> places[k] < |criteria| && issues[k] == CriterionFailed(criteria[places[k]])
  }

  lemma FailedSnoc(eval: CriterionEval, result: ToolResult, criteria: seq<string>, n: nat, issues: seq<Issue>, places: seq<nat>)
    requires n < |criteria| && FailedAt(eval, result, criteria, n, issues, places)
    ensures if eval(criteria[n], result) == Some(false) then
        FailedAt(eval, result, criteria, n + 1, issues + [CriterionFailed(criteria[n])], places + [n])
      else FailedAt(eval, result, criteria, n + 1, issues, places)
  {
    AscendingSnoc(places, n);
  }

  lemma {:induction false} FailedPlaces(eval: CriterionEval, result: ToolResult, criteria: seq<string>, n: nat) returns (places: seq<nat>)
    requires n <= |criteria|
    ensures FailedAt(eval, result, criteria, n, FailedCriteria(eval, result, criteria, n), places)
    decreases n
  {
    if n == 0 {
      places := [];
    } else {
      places := FailedPlaces(eval, result, criteria, n - 1);
      FailedSnoc(eval, result, criteria, n - 1, FailedCriteria(eval, result, criteria, n - 1), places);
      if eval(criteria[n - 1], result) == Some(false) { places := places + [n - 1]; }
    }
  }

  /**
   The verdict on a result: for a completed one, each failed criterion in order, and the step's
   fallback if there is one; for any other, its one issue, and retrying where that may help.
   */
  lemma VerdictMeaning(eval: CriterionEval, result: ToolResult, criteria: seq<string>, fallback: string) returns (places: seq<nat>)
    ensures var v := Verdict(eval, result, criteria, fallback);
      && v.alternativeTool == None
      && (result.state != Completed ==> !v.success && |v.issues| == 1)
      && (result.state == Blocked ==> v.issues[0] == BlockedIssue(result.error) && NameOf(v.suggestedAction) == "abort")
      && (result.state == Invalid ==> v.issues[0] == InvalidIssue(result.error) && NameOf(v.suggestedAction) == "abort")
      && (result.state == TimedOut ==> v.issues[0] == TimedOutIssue && NameOf(v.suggestedAction) == "retry")
      && (result.state == Failed ==> v.issues[0] == FailedIssue(result.error) && NameOf(v.suggestedAction) == "retry")
      && (result.state == Completed ==>
           && FailedAt(eval, result, criteria, |criteria|, v.issues, places)
           && (v.success <==> places == [])
           && v.suggestedAction == if places == [] then Proceed else ResolveFallback(fallback))
  {
    places := FailedPlaces(eval, result, criteria, |criteria|);
  }

  /** The verification part of the environment is the built-in verifier. */
  ghost predicate BuiltIn(env: Environment, eval: CriterionEval) {
    forall r, criteria, fallback :: env.verify(r, criteria, fallback) == Verdict(eval, r, criteria, fallback)
  }

  /** With the built-in verifier a step runs at most one tool, whatever its fallback strategy. */
  lemma NoAlternativeIsTried(env: Environment, eval: CriterionEval, step: PlanStep, count: nat)
    requires BuiltIn(env, eval)
    ensures |StepRuns(env, step, count)| <= 1
  {
  }

  /**
   With the built-in verifier, a step whose tool the context does not approve runs
   no handler and aborts the plan.
   */
  lemma UnapprovedToolAborts(env: Environment, eval: CriterionEval, lookup: Registered, tools: Registered,
                             context: Context, handlers: Handlers, step: PlanStep, count: nat)
    requires env == EnvironmentOf(lookup, tools, context, handlers, env.approval, env.verify) && BuiltIn(env, eval)
    requires Refusal(env, step) == NoStepError
    requires !Authorized(tools, context, FindToolForCapability(step.primaryCapability, lookup).value.name)
    ensures Aborts(StepRuns(env, step, count)) && RunInvocations(StepRuns(env, step, count)) == []
  {
    var spec := FindToolForCapability(step.primaryCapability, lookup).value;
    var call := CallFor(step, spec.name);
    RunResultMeaning(tools, context, handlers, count, call, MaxAttempts(step));
    var run := RunTool(env, step, spec.name, count);
    assert run.result == RunResult(tools, context, handlers, count, call, MaxAttempts(step));
    NoAlternativeIsTried(env, eval, step, count);
    RunInvocationsOfOne(run);
  }

  /**
   With the built-in verifier, the first unapproved tool a run comes to ends it: no handler
   is called from there on, and every later step is recorded as aborted by that step.
   */
  lemma UnapprovedToolEndsRun(env: Environment, eval: CriterionEval, lookup: Registered, tools: Registered, context: Context,
                              handlers: Handlers, steps: seq<PlanStep>, groups: seq<seq<PlanStep>>, a: nat,
                              history: seq<Invocation>)
    requires env == EnvironmentOf(lookup, tools, context, handlers, env.approval, env.verify) && BuiltIn(env, eval)
    requires IsLevelling(steps, groups) && a < |Flatten(groups)|
    requires Execute(MachineOf(env), Flatten(groups), a, history).abortedBy.None?
    requires Refusal(env, Flatten(groups)[a]) == NoStepError
    requires !Authorized(tools, context, FindToolForCapability(Flatten(groups)[a].primaryCapability, lookup).value.name)
    ensures var flat := Flatten(groups);
      var before, final := Execute(MachineOf(env), flat, a, history), Execute(MachineOf(env), flat, |flat|, history);
      && final.invocations == before.invocations
      && final.abortedBy == Some(flat[a].stepId)
      && forall b :: a < b < |flat| ==>
           flat[b].stepId in final.results && final.results[flat[b].stepId] == Unrun(flat[b], AbortedByStep(flat[a].stepId))
  {
    var m, flat := MachineOf(env), Flatten(groups);
    var before := Execute(m, flat, a, history);
    UnapprovedToolAborts(env, eval, lookup, tools, context, handlers, flat[a], |before.invocations|);
    AbortEndsRun(m, flat, a, |flat|, history);
    forall b | a < b < |flat|
      ensures var results := Execute(m, flat, |flat|, history).results;
        flat[b].stepId in results && results[flat[b].stepId] == Unrun(flat[b], AbortedByStep(flat[a].stepId))
    {
      LaterStepsAborted(m, steps, groups, a, b, history);
    }
  }
}
