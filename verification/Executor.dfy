/**
 The step executor: it walks the levels of a plan in order, runs one tool per step
 through the tool runner, verifies the result and reacts to the verdict.
 */
module Executor {
  import opened Sequences
  import opened Wrappers
  import opened Planner
  import opened Tools

  datatype Action = Retry | UseAlternative | Clarify | Proceed | Abort | Skip | OtherAction(name: string)

  datatype Issue =
    | BlockedIssue(error: ToolError)
    | InvalidIssue(error: ToolError)
    | TimedOutIssue
    | FailedIssue(error: ToolError)
    | CriterionFailed(criterion: string)

  datatype Verification = Verification(
    success: bool,
    issues: seq<Issue>,
    suggestedAction: Action,
    alternativeTool: Option<string>)

  datatype StepError =
    | NoStepError
    | AbortedByStep(stepId: string)
    | ApprovalRequiredNoCallback(stepId: string)
    | ApprovalDenied(stepId: string)
    | NoToolForCapability(capability: string)
    | ClarificationNeeded(issues: seq<Issue>)

  datatype StepResult = StepResult(
    stepId: string,
    toolName: Option<string>,
    toolResult: Option<ToolResult>,
    verification: Option<Verification>,
    skipped: bool,
    error: StepError)

  /**
   Everything a plan run depends on besides the plan and the runner's history. `run`
   is the runner, as a function of the call, its attempt limit and the number of
   handler calls already made.
   */
  datatype Environment = Environment(
    lookup: Registered,
    run: (ToolCall, int, nat) -> ToolResult,
    approval: Option<PlanStep -> bool>,
    verify: (ToolResult, seq<string>, string) -> Verification)

  /** One run of a tool and its verdict. */
  datatype ToolRun = ToolRun(call: ToolCall, result: ToolResult, verification: Verification)

  datatype ExecEvent =
    | Ran(stepId: string, run: ToolRun, first: bool)
    | Recorded(stepId: string, stepResult: StepResult)

  function Unrun(step: PlanStep, error: StepError): StepResult {
    StepResult(step.stepId, None, None, None, true, error)
  }

  /** Index of the first tool offering the capability, or the number of tools. */
  function FirstWithCapability(cap: string, tools: Registered): (i: nat)
    ensures i <= |tools| && (i < |tools| ==> cap in tools[i].capabilities)
    ensures forall j :: 0 <= j < i ==> cap !in tools[j].capabilities
  {
    if tools == [] || cap in tools[0].capabilities then 0 else 1 + FirstWithCapability(cap, tools[1..])
  }

  /** The tool at `i` offers the capability and no tool registered before it does. */
  predicate IsFirstWith(cap: string, tools: Registered, i: nat)
    requires i < |tools|
  {
    cap in tools[i].capabilities && forall j :: 0 <= j < i ==> cap !in tools[j].capabilities
  }

  /** The first registered tool offering the capability. */
  function FindToolForCapability(cap: string, tools: Registered): (r: Option<ToolSpec>)
    ensures r.None? <==> forall t :: t in tools ==> cap !in t.capabilities
    ensures r.Some? ==> exists i :: 0 <= i < |tools| && tools[i] == r.value && IsFirstWith(cap, tools, i)
  {
    var i := FirstWithCapability(cap, tools);
    if i < |tools| then Some(tools[i]) else None
  }

  function CallFor(step: PlanStep, tool: string): ToolCall {
    ToolCall(tool, [("step_id", StringArg(step.stepId)), ("capability", StringArg(step.primaryCapability))])
  }

  function MaxAttempts(step: PlanStep): int {
    if "max_attempts" in step.retryPolicy then step.retryPolicy["max_attempts"] else 1
  }

  // ---------------------------------------------------------------- one step

  function RunTool(env: Environment, step: PlanStep, tool: string, count: nat): ToolRun {
    var call := CallFor(step, tool);
    var result := env.run(call, MaxAttempts(step), count);
    ToolRun(call, result, env.verify(result, step.successCriteria, step.fallbackStrategy))
  }

  /** Why a step does not get to run a tool at all, if it does not. */
  function Refusal(env: Environment, step: PlanStep): StepError {
    if step.requiresApproval && env.approval.None? then ApprovalRequiredNoCallback(step.stepId)
    else if step.requiresApproval && !env.approval.value(step) then ApprovalDenied(step.stepId)
    else if FindToolForCapability(step.primaryCapability, env.lookup).None? then
      NoToolForCapability(step.primaryCapability)
    else NoStepError
  }

  /** The second tool a verdict asks for, when the registry knows it. */
  function Alternative(env: Environment, v: Verification): Option<ToolSpec> {
    if v.suggestedAction != UseAlternative || v.alternativeTool.None? || v.alternativeTool.value == "" then None
    else Lookup(env.lookup, v.alternativeTool.value)
  }

  /** The tool runs of a step that is not aborted, after `count` handler calls. */
  function StepRuns(env: Environment, step: PlanStep, count: nat): seq<ToolRun> {
    var spec := FindToolForCapability(step.primaryCapability, env.lookup);
    if Refusal(env, step) != NoStepError || spec.None? then [] else RunsWith(env, step, spec.value, count)
  }

  function RunsWith(env: Environment, step: PlanStep, spec: ToolSpec, count: nat): seq<ToolRun> {
    var first := RunTool(env, step, spec.name, count);
    AlternativeRuns(env, step, first, count + first.result.attempts)
  }

  /** The result recorded from the runs: always about the last tool run. */
  function StepOutcome(step: PlanStep, refusal: StepError, runs: seq<ToolRun>): StepResult {
    if runs == [] then Unrun(step, refusal)
    else
      var run := runs[|runs| - 1];
      var action := runs[0].verification.suggestedAction;
      StepResult(step.stepId, Some(run.call.name), Some(run.result), Some(run.verification),
        |runs| == 1 && (action == Skip || action == Clarify || action == UseAlternative),
        if action == Clarify then ClarificationNeeded(run.verification.issues) else NoStepError)
  }

  function Aborts(runs: seq<ToolRun>): bool {
    |runs| > 0 && runs[0].verification.suggestedAction == Abort
  }

  /** The handler calls behind one tool run. */
  function Calls(run: ToolRun): seq<Invocation> {
    Repeat(Invocation(run.call.name, run.call.arguments), run.result.attempts)
  }

  function RunInvocations(runs: seq<ToolRun>): seq<Invocation> {
    if runs == [] then [] else RunInvocations(runs[..|runs| - 1]) + Calls(runs[|runs| - 1])
  }

  function RunEventsOf(stepId: string, runs: seq<ToolRun>): (r: seq<ExecEvent>)
    ensures |r| == |runs| && forall i :: 0 <= i < |runs| ==> r[i] == Ran(stepId, runs[i], i == 0)
  {
    seq(|runs|, i requires 0 <= i < |runs| => Ran(stepId, runs[i], i == 0))
  }

  // ---------------------------------------------------------------- a whole run

  datatype ExecState = ExecState(
    results: map<string, StepResult>,
    abortedBy: Option<string>,
    invocations: seq<Invocation>,
    trace: seq<ExecEvent>)

  /** How the steps behave: the tool runs of a step after so many handler calls, and why it may not run one. */
  datatype Machine = Machine(runs: (PlanStep, nat) -> seq<ToolRun>, refusal: PlanStep -> StepError)

  function MachineOf(env: Environment): Machine {
    Machine((step: PlanStep, count: nat) => StepRuns(env, step, count), (step: PlanStep) => Refusal(env, step))
  }

  function ExecStep(m: Machine, st: ExecState, step: PlanStep): ExecState {
    if st.abortedBy.Some? then
      var r := Unrun(step, AbortedByStep(st.abortedBy.value));
      st.(results := st.results[step.stepId := r], trace := st.trace + [Recorded(step.stepId, r)])
    else
      var runs := m.runs(step, |st.invocations|);
      var r := StepOutcome(step, m.refusal(step), runs);
      ExecState(
        st.results[step.stepId := r],
        if Aborts(runs) then Some(step.stepId) else None,
        st.invocations + RunInvocations(runs),
        st.trace + RunEventsOf(step.stepId, runs) + [Recorded(step.stepId, r)])
  }

  /** The state after the first `n` steps in group order, starting from a runner's history. */
  function Execute(m: Machine, flat: seq<PlanStep>, n: nat, history: seq<Invocation>): ExecState
    requires n <= |flat|
  {
    if n == 0 then ExecState(map[], None, history, [])
    else ExecStep(m, Execute(m, flat, n - 1, history), flat[n - 1])
  }

  /** The results in plan order, of the steps that have one. */
  function Collect(steps: seq<PlanStep>, results: map<string, StepResult>): seq<StepResult> {
    if steps == [] then []
    else
      var n := |steps| - 1;
      Collect(steps[..n], results) + if steps[n].stepId in results then [results[steps[n].stepId]] else []
  }

  ghost predicate Runs(env: Environment, runner: ToolRunner)
    reads runner, runner.registry
  {
    forall call, max, count: nat
      {:trigger RunResult(runner.registry.tools, runner.context, runner.handlers, count, call, max)} ::
      env.run(call, max, count) == RunResult(runner.registry.tools, runner.context, runner.handlers, count, call, max)
  }

  /** One tool run and its verification, noted in the trace. */
  method Perform(env: Environment, step: PlanStep, tool: string, runner: ToolRunner, ghost trace0: seq<ExecEvent>, ghost first: bool)
    returns (run: ToolRun, ghost trace: seq<ExecEvent>)
    requires runner.Valid() && Runs(env, runner)
    modifies runner
    ensures runner.Valid() && Runs(env, runner)
    ensures run == RunTool(env, step, tool, |old(runner.invocations)|)
    ensures runner.invocations == old(runner.invocations) + Calls(run)
    ensures trace == trace0 + [Ran(step.stepId, run, first)]
  {
    var call := CallFor(step, tool);
    var result := runner.Run(call, MaxAttempts(step));
    run := ToolRun(call, result, env.verify(result, step.successCriteria, step.fallbackStrategy));
    trace := trace0 + [Ran(step.stepId, run, first)];
  }

  lemma RunInvocationsOfOne(run: ToolRun)
    ensures RunInvocations([run]) == Calls(run)
  {
    assert [run][..0] == [];
  }

  lemma RunInvocationsOfTwo(first: ToolRun, second: ToolRun)
    ensures RunInvocations([first, second]) == Calls(first) + Calls(second)
  {
    RunInvocationsOfOne(first);
    assert [first, second][..1] == [first];
  }

  /** The body of the step loop for a step that is not aborted. */
  method RunStep(env: Environment, step: PlanStep, runner: ToolRunner, ghost trace0: seq<ExecEvent>)
    returns (result: StepResult, aborts: bool, ghost trace: seq<ExecEvent>)
    requires runner.Valid() && Runs(env, runner)
    modifies runner
    ensures runner.Valid() && Runs(env, runner)
    ensures var runs := StepRuns(env, step, |old(runner.invocations)|);
      && result == StepOutcome(step, Refusal(env, step), runs)
      && aborts == Aborts(runs)
      && runner.invocations == old(runner.invocations) + RunInvocations(runs)
      && trace == trace0 + RunEventsOf(step.stepId, runs)
  {
    if step.requiresApproval {
      if env.approval.None? {
        return Unrun(step, ApprovalRequiredNoCallback(step.stepId)), false, trace0;
      }
      if !env.approval.value(step) {
        return Unrun(step, ApprovalDenied(step.stepId)), false, trace0;
      }
    }
    var found := FindToolForCapability(step.primaryCapability, env.lookup);
    if found.None? {
      return Unrun(step, NoToolForCapability(step.primaryCapability)), false, trace0;
    }
    result, aborts, trace := RunWithTool(env, step, found.value, runner, trace0);
  }

  lemma SingleRun(env: Environment, step: PlanStep, run: ToolRun, count: nat)
    requires run.verification.suggestedAction != UseAlternative
    ensures AlternativeRuns(env, step, run, count) == [run]
    ensures var action := run.verification.suggestedAction;
      StepOutcome(step, NoStepError, [run])
      == StepResult(step.stepId, Some(run.call.name), Some(run.result), Some(run.verification),
           action == Skip || action == Clarify,
           if action == Clarify then ClarificationNeeded(run.verification.issues) else NoStepError)
  {
  }

  /** Running the step's tool and reacting to the first verdict. */
  method RunWithTool(env: Environment, step: PlanStep, spec: ToolSpec, runner: ToolRunner, ghost trace0: seq<ExecEvent>)
    returns (result: StepResult, aborts: bool, ghost trace: seq<ExecEvent>)
    requires runner.Valid() && Runs(env, runner)
    modifies runner
    ensures runner.Valid() && Runs(env, runner)
    ensures var runs := RunsWith(env, step, spec, |old(runner.invocations)|);
      && result == StepOutcome(step, NoStepError, runs)
      && aborts == Aborts(runs)
      && runner.invocations == old(runner.invocations) + RunInvocations(runs)
      && trace == trace0 + RunEventsOf(step.stepId, runs)
  {
    var run;
    run, trace := Perform(env, step, spec.name, runner, trace0, true);
    var action := run.verification.suggestedAction;
    RunInvocationsOfOne(run);
    if action == UseAlternative {
      result, trace := RunAlternative(env, step, run, runner, old(runner.invocations), trace0, trace);
    } else {
      SingleRun(env, step, run, |old(runner.invocations)| + run.result.attempts);
      result := StepResult(step.stepId, Some(spec.name), Some(run.result), Some(run.verification),
        action == Skip || action == Clarify,
        if action == Clarify then ClarificationNeeded(run.verification.issues) else NoStepError);
    }
    aborts := action == Abort;
  }

  /** The runs of a step whose first verdict asks for an alternative. */
  function AlternativeRuns(env: Environment, step: PlanStep, run: ToolRun, count: nat): seq<ToolRun> {
    var alt := Alternative(env, run.verification);
    if alt.None? then [run] else [run, RunTool(env, step, alt.value.name, count)]
  }

  /** The reaction to "use alternative"; the second verdict is recorded but not acted on. */
  method RunAlternative(env: Environment, step: PlanStep, run: ToolRun, runner: ToolRunner,
                        ghost start: seq<Invocation>, ghost before: seq<ExecEvent>, ghost trace0: seq<ExecEvent>)
    returns (result: StepResult, ghost trace: seq<ExecEvent>)
    requires runner.Valid() && Runs(env, runner) && run.verification.suggestedAction == UseAlternative
    requires runner.invocations == start + Calls(run) && trace0 == before + [Ran(step.stepId, run, true)]
    modifies runner
    ensures runner.Valid() && Runs(env, runner)
    ensures var runs := AlternativeRuns(env, step, run, |start| + run.result.attempts);
      && result == StepOutcome(step, NoStepError, runs)
      && runner.invocations == start + RunInvocations(runs)
      && trace == before + RunEventsOf(step.stepId, runs)
  {
    trace := trace0;
    RunInvocationsOfOne(run);
    var altName, altSpec := run.verification.alternativeTool, None;
    if altName.Some? && altName.value != "" {
      altSpec := Lookup(env.lookup, altName.value);
    }
    if altSpec.None? {
      result := StepResult(step.stepId, Some(run.call.name), Some(run.result), Some(run.verification), true, NoStepError);
    } else {
      var second;
      second, trace := Perform(env, step, altSpec.value.name, runner, trace, false);
      RunInvocationsOfTwo(run, second);
      result := StepResult(step.stepId, Some(altSpec.value.name),
                           Some(second.result), Some(second.verification), false, NoStepError);
    }
  }

  /** The loop's state as the executor holds it. */
  ghost predicate Tracks(st: ExecState, results: map<string, StepResult>, abortedBy: Option<string>,
                         invocations: seq<Invocation>, trace: seq<ExecEvent>)
  {
    st == ExecState(results, abortedBy, invocations, trace)
  }

  /** `states[n + 1]` is the state after the step at place `n`. */
  ghost predicate Follows(m: Machine, flat: seq<PlanStep>, states: seq<ExecState>, n: nat)
    requires n < |flat| && |states| == |flat| + 1
  {
    states[n + 1] == ExecStep(m, states[n], flat[n])
  }

  ghost predicate Unrolled(m: Machine, flat: seq<PlanStep>, states: seq<ExecState>) {
    |states| == |flat| + 1 && forall n {:trigger Follows(m, flat, states, n)} :: 0 <= n < |flat| ==> Follows(m, flat, states, n)
  }

  /** The states of a run, one by one. */
  lemma Unroll(m: Machine, flat: seq<PlanStep>, history: seq<Invocation>) returns (states: seq<ExecState>)
    ensures Unrolled(m, flat, states)
    ensures states[0] == ExecState(map[], None, history, []) && states[|flat|] == Execute(m, flat, |flat|, history)
  {
    states := seq(|flat| + 1, n requires 0 <= n < |flat| + 1 => Execute(m, flat, n, history));
  }

  /** The body of the step loop, for the step at place `n` of the group order. */
  method StepBody(env: Environment, step: PlanStep, runner: ToolRunner,
                  results0: map<string, StepResult>, abortedBy0: Option<string>, ghost trace0: seq<ExecEvent>,
                  ghost m: Machine, ghost flat: seq<PlanStep>, ghost states: seq<ExecState>, ghost n: nat)
    returns (results: map<string, StepResult>, abortedBy: Option<string>, ghost trace: seq<ExecEvent>)
    requires runner.Valid() && Runs(env, runner) && m == MachineOf(env)
    requires n < |flat| && step == flat[n] && |states| == |flat| + 1 && Follows(m, flat, states, n)
    requires Tracks(states[n], results0, abortedBy0, runner.invocations, trace0)
    modifies runner
    ensures runner.Valid() && Runs(env, runner)
    ensures Tracks(states[n + 1], results, abortedBy, runner.invocations, trace)
  {
    if abortedBy0.Some? {
      var result := Unrun(step, AbortedByStep(abortedBy0.value));
      return results0[step.stepId := result], abortedBy0, trace0 + [Recorded(step.stepId, result)];
    }
    var result, aborts;
    result, aborts, trace := RunStep(env, step, runner, trace0);
    results := results0[step.stepId := result];
    trace := trace + [Recorded(step.stepId, result)];
    abortedBy := if aborts then Some(step.stepId) else None;
  }

  lemma {:induction false} FlattenSplit(groups: seq<seq<PlanStep>>, k: nat)
    requires k < |groups|
    ensures Flatten(groups[..k]) + groups[k] <= Flatten(groups)
    decreases |groups|
  {
    var n := |groups| - 1;
    if k == n {
    } else {
      FlattenSplit(groups[..n], k);
      assert groups[..n][..k] == groups[..k];
    }
  }

  /** The group's steps stand at the places from `start` on. */
  ghost predicate StandsAt(group: seq<PlanStep>, flat: seq<PlanStep>, start: nat) {
    start + |group| <= |flat| && forall i :: 0 <= i < |group| ==> flat[start + i] == group[i]
  }

  lemma GroupStands(groups: seq<seq<PlanStep>>, k: nat)
    requires k < |groups|
    ensures StandsAt(groups[k], Flatten(groups), |Flatten(groups[..k])|)
    ensures |Flatten(groups[..k + 1])| == |Flatten(groups[..k])| + |groups[k]|
  {
    FlattenSplit(groups, k);
    assert groups[..k + 1][..k] == groups[..k];
    var head, start := Flatten(groups[..k]) + groups[k], |Flatten(groups[..k])|;
    forall i | 0 <= i < |groups[k]| ensures Flatten(groups)[start + i] == groups[k][i] {
      assert head[start + i] == groups[k][i];
    }
  }

  /** The steps of one group, at the places from `start` on. */
  method RunGroup(env: Environment, group: seq<PlanStep>, runner: ToolRunner,
                  results0: map<string, StepResult>, abortedBy0: Option<string>, ghost trace0: seq<ExecEvent>,
                  ghost m: Machine, ghost flat: seq<PlanStep>, ghost states: seq<ExecState>, ghost start: nat)
    returns (results: map<string, StepResult>, abortedBy: Option<string>, ghost trace: seq<ExecEvent>)
    requires runner.Valid() && Runs(env, runner) && m == MachineOf(env)
    requires StandsAt(group, flat, start) && Unrolled(m, flat, states)
    requires Tracks(states[start], results0, abortedBy0, runner.invocations, trace0)
    modifies runner
    ensures runner.Valid() && Runs(env, runner)
    ensures Tracks(states[start + |group|], results, abortedBy, runner.invocations, trace)
  {
    results, abortedBy, trace := results0, abortedBy0, trace0;
    for i := 0 to |group|
      invariant runner.Valid() && Runs(env, runner)
      invariant Tracks(states[start + i], results, abortedBy, runner.invocations, trace)
    {
      results, abortedBy, trace := StepBody(env, group[i], runner, results, abortedBy, trace, m, flat, states, start + i);
    }
  }

  /** The environment of a run, read off the runner and the registry used for lookups. */
  function EnvironmentOf(lookup: Registered, tools: Registered, context: Context, handlers: Handlers,
                         approval: Option<PlanStep -> bool>,
                         verify: (ToolResult, seq<string>, string) -> Verification): Environment
  {
    Environment(lookup,
                (call: ToolCall, max: int, count: nat) => RunResult(tools, context, handlers, count, call, max),
                approval, verify)
  }

  /** The levels one after another. */
  method RunLevels(env: Environment, levels: seq<seq<PlanStep>>, runner: ToolRunner,
                   ghost m: Machine, ghost states: seq<ExecState>)
    returns (results: map<string, StepResult>, ghost trace: seq<ExecEvent>)
    requires runner.Valid() && Runs(env, runner) && m == MachineOf(env) && Unrolled(m, Flatten(levels), states)
    requires Tracks(states[0], map[], None, runner.invocations, [])
    modifies runner
    ensures runner.Valid()
    ensures var final := states[|Flatten(levels)|];
      final.results == results && final.invocations == runner.invocations && final.trace == trace
  {
    var abortedBy: Option<string>;
    results, abortedBy, trace := map[], None, [];
    ghost var flat, n := Flatten(levels), 0;
    for k := 0 to |levels|
      invariant runner.Valid() && Runs(env, runner)
      invariant n == |Flatten(levels[..k])| <= |flat|
      invariant Tracks(states[n], results, abortedBy, runner.invocations, trace)
    {
      GroupStands(levels, k);
      results, abortedBy, trace := RunGroup(env, levels[k], runner, results, abortedBy, trace, m, flat, states, n);
      n := n + |levels[k]|;
    }
    assert levels[..|levels|] == levels;
  }

  /** A whole plan run; the ghost trace notes each tool run and each recorded result when it happens. */
  method RunPlan(steps: seq<PlanStep>, runner: ToolRunner, registry: Option<ToolRegistry>,
                 approval: Option<PlanStep -> bool>, verify: (ToolResult, seq<string>, string) -> Verification)
    returns (stepResults: seq<StepResult>, ghost groups: seq<seq<PlanStep>>, ghost trace: seq<ExecEvent>)
    requires runner.Valid()
    modifies runner
    ensures runner.Valid() && IsLevelling(steps, groups)
    ensures var lookup := if registry.Some? then old(registry.value.tools) else old(runner.registry.tools);
      var env := EnvironmentOf(lookup, old(runner.registry.tools), runner.context, runner.handlers, approval, verify);
      var final := Execute(MachineOf(env), Flatten(groups), |Flatten(groups)|, old(runner.invocations));
      stepResults == Collect(steps, final.results) && runner.invocations == final.invocations && trace == final.trace
  {
    var lookup := if registry.Some? then registry.value.tools else runner.registry.tools;
    var env := EnvironmentOf(lookup, runner.registry.tools, runner.context, runner.handlers, approval, verify);
    var levels := TopologicalGroups(steps);
    groups := levels;
    ghost var states := Unroll(MachineOf(env), Flatten(levels), runner.invocations);
    var results;
    results, trace := RunLevels(env, levels, runner, MachineOf(env), states);
    stepResults := CollectResults(steps, results);
  }

  method CollectResults(steps: seq<PlanStep>, results: map<string, StepResult>) returns (r: seq<StepResult>)
    ensures r == Collect(steps, results)
  {
    r := [];
    for i := 0 to |steps|
      invariant r == Collect(steps[..i], results)
    {
      assert steps[..i + 1][..i] == steps[..i];
      if steps[i].stepId in results {
        r := r + [results[steps[i].stepId]];
      }
    }
    assert steps[..|steps|] == steps;
  }
}
