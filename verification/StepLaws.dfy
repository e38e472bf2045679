/**
 What a step of a plan run does, on the step, the registry, the context, the handlers, the
 approval callback and the verifier alone: which tool runs, how often, and what is recorded.
 */
module StepLaws {
  import opened Wrappers
  import opened Planner
  import opened Tools
  import opened ToolLaws
  import opened Executor
  import opened PlanRuns

  /** What a run is given besides the plan. */
  datatype Setting = Setting(
    lookup: Registered,
    tools: Registered,
    context: Context,
    handlers: Handlers,
    approval: Option<PlanStep -> bool>,
    verify: (ToolResult, seq<string>, string) -> Verification)

  function EnvOf(x: Setting): Environment {
    EnvironmentOf(x.lookup, x.tools, x.context, x.handlers, x.approval, x.verify)
  }

  /** One tool is run for the step, after `count` handler calls, and its result is verified. */
  ghost predicate RunsTool(x: Setting, step: PlanStep, tool: string, count: nat, r: ToolResult, v: Verification) {
    var call := ToolCall(tool, [("step_id", StringArg(step.stepId)), ("capability", StringArg(step.primaryCapability))]);
    var asked := if "max_attempts" in step.retryPolicy then step.retryPolicy["max_attempts"] else 1;
    Reports(x.tools, x.context, x.handlers, count, call, asked, r) && v == x.verify(r, step.successCriteria, step.fallbackStrategy)
  }

  function HandlerCalls(step: PlanStep, tool: string, n: nat): (calls: seq<Invocation>)
    ensures |calls| == n
    ensures forall i :: 0 <= i < n ==>
      calls[i] == Invocation(tool, [("step_id", StringArg(step.stepId)), ("capability", StringArg(step.primaryCapability))])
  {
    seq(n, _ => Invocation(tool, [("step_id", StringArg(step.stepId)), ("capability", StringArg(step.primaryCapability))]))
  }

  /** What a step leaves behind. */
  datatype Effect = Effect(recorded: StepResult, aborts: bool, calls: seq<Invocation>, noted: seq<ExecEvent>)

  /** No tool is run: the step is skipped for this reason. */
  function Skipped(step: PlanStep, error: StepError): Effect {
    var r := StepResult(step.stepId, None, None, None, true, error);
    Effect(r, false, [], [Recorded(step.stepId, r)])
  }

  /** The registered tool the verdict asks to use instead. */
  ghost predicate NamesAlternative(x: Setting, v: Verification, tool: string) {
    && v.suggestedAction == UseAlternative && v.alternativeTool == Some(tool) && tool != ""
    && exists t :: t in x.lookup && t.name == tool
  }

  /** One tool was run, and its verdict leads to no other. */
  ghost predicate OneRun(x: Setting, step: PlanStep, tool: string, count: nat, o: Effect) {
    exists r, v :: RunsTool(x, step, tool, count, r, v) && !(exists alt :: NamesAlternative(x, v, alt))
      && o == OneRunEffect(step, tool, r, v)
  }

  /** By the verdict's action: skipped, to be clarified, aborting, or simply recorded. */
  function OneRunEffect(step: PlanStep, tool: string, r: ToolResult, v: Verification): Effect {
    var recorded :=
      match v.suggestedAction
      case Skip => StepResult(step.stepId, Some(tool), Some(r), Some(v), true, NoStepError)
      case UseAlternative => StepResult(step.stepId, Some(tool), Some(r), Some(v), true, NoStepError)
      case Clarify => StepResult(step.stepId, Some(tool), Some(r), Some(v), true, ClarificationNeeded(v.issues))
      case _ => StepResult(step.stepId, Some(tool), Some(r), Some(v), false, NoStepError);
    Effect(recorded, v.suggestedAction == Abort, HandlerCalls(step, tool, r.attempts),
            [Ran(step.stepId, ToolRun(StepCall(step, tool), r, v), true), Recorded(step.stepId, recorded)])
  }

  function StepCall(step: PlanStep, tool: string): ToolCall {
    ToolCall(tool, [("step_id", StringArg(step.stepId)), ("capability", StringArg(step.primaryCapability))])
  }

  /** A second tool was run because the first verdict named it; its own verdict is recorded. */
  ghost predicate TwoRuns(x: Setting, step: PlanStep, tool: string, count: nat, o: Effect) {
    exists r, v, alt, r', v' ::
      && RunsTool(x, step, tool, count, r, v) && NamesAlternative(x, v, alt)
      && RunsTool(x, step, alt, count + r.attempts, r', v')
      && o == TwoRunsEffect(step, tool, r, v, alt, r', v')
  }

  function TwoRunsEffect(step: PlanStep, tool: string, r: ToolResult, v: Verification, alt: string, r': ToolResult, v': Verification)
    : Effect
  {
    var recorded := StepResult(step.stepId, Some(alt), Some(r'), Some(v'), false, NoStepError);
    Effect(recorded, false, HandlerCalls(step, tool, r.attempts) + HandlerCalls(step, alt, r'.attempts),
            [Ran(step.stepId, ToolRun(StepCall(step, tool), r, v), true), Ran(step.stepId, ToolRun(StepCall(step, alt), r', v'), false),
             Recorded(step.stepId, recorded)])
  }

  /**
   What a step that is not aborted leaves behind after `count` handler calls: it is skipped
   when an approval is needed and not given, or when no tool offers its capability; otherwise
   the first registered tool that does is run.
   */
  ghost predicate Leaves(x: Setting, step: PlanStep, count: nat, o: Effect) {
    if step.requiresApproval && x.approval.None? then o == Skipped(step, ApprovalRequiredNoCallback(step.stepId))
    else if step.requiresApproval && !x.approval.value(step) then o == Skipped(step, ApprovalDenied(step.stepId))
    else if forall t :: t in x.lookup ==> step.primaryCapability !in t.capabilities then
      o == Skipped(step, NoToolForCapability(step.primaryCapability))
    else
      exists i :: 0 <= i < |x.lookup| && FirstOffering(x.lookup, step.primaryCapability, i)
        && (OneRun(x, step, x.lookup[i].name, count, o) || TwoRuns(x, step, x.lookup[i].name, count, o))
  }

  /** The tool at `i` offers the capability and none before it does. */
  predicate FirstOffering(lookup: Registered, capability: string, i: nat) {
    && i < |lookup| && capability in lookup[i].capabilities
    && forall j :: 0 <= j < i ==> capability !in lookup[j].capabilities
  }

  // ---------------------------------------------------------------- the machine does just this

  lemma RunToolMeaning(x: Setting, step: PlanStep, tool: string, count: nat)
    ensures var run := RunTool(EnvOf(x), step, tool, count);
      run.call == StepCall(step, tool) && RunsTool(x, step, tool, count, run.result, run.verification)
      && Calls(run) == HandlerCalls(step, tool, run.result.attempts)
  {
    RunReports(x.tools, x.context, x.handlers, count, StepCall(step, tool), MaxAttempts(step));
  }

  lemma {:induction false} LookupIff(tools: Registered, name: string)
    ensures Lookup(tools, name).Some? <==> exists t :: t in tools && t.name == name
    ensures Lookup(tools, name).Some? ==> Lookup(tools, name).value.name == name
    decreases |tools|
  {
    if tools == [] {
    } else {
      assert tools == [tools[0]] + tools[1..];
      LookupIff(tools[1..], name);
    }
  }

  lemma AlternativeIff(x: Setting, v: Verification, tool: string)
    ensures NamesAlternative(x, v, tool) <==> Alternative(EnvOf(x), v).Some? && Alternative(EnvOf(x), v).value.name == tool
  {
    if v.alternativeTool.Some? { LookupIff(x.lookup, v.alternativeTool.value); }
  }

  /** The state's parts that a step adds to. */
  function EffectOf(m: Machine, step: PlanStep, count: nat): Effect {
    var runs := m.runs(step, count);
    var r := StepOutcome(step, m.refusal(step), runs);
    Effect(r, Aborts(runs), RunInvocations(runs), RunEventsOf(step.stepId, runs) + [Recorded(step.stepId, r)])
  }

  /** The first run of a step that gets to run a tool. */
  function FirstRun(env: Environment, step: PlanStep, spec: ToolSpec, count: nat): ToolRun {
    RunTool(env, step, spec.name, count)
  }

  /** The second run, of the tool the first verdict names. */
  function SecondRun(env: Environment, step: PlanStep, run: ToolRun, count: nat): ToolRun
    requires Alternative(env, run.verification).Some?
  {
    RunTool(env, step, Alternative(env, run.verification).value.name, count + run.result.attempts)
  }

  ghost predicate GetsTool(env: Environment, step: PlanStep, spec: ToolSpec) {
    Refusal(env, step) == NoStepError && FindToolForCapability(step.primaryCapability, env.lookup) == Some(spec)
  }

  lemma StepRunsAre(env: Environment, step: PlanStep, spec: ToolSpec, count: nat)
    requires GetsTool(env, step, spec)
    ensures var run := FirstRun(env, step, spec, count);
      StepRuns(env, step, count) ==
        if Alternative(env, run.verification).None? then [run] else [run, SecondRun(env, step, run, count)]
  {
  }

  lemma OneEffect(m: Machine, step: PlanStep, count: nat, run: ToolRun)
    requires m.runs(step, count) == [run] && m.refusal(step) == NoStepError && run.call == StepCall(step, run.call.name)
    requires Calls(run) == HandlerCalls(step, run.call.name, run.result.attempts)
    ensures EffectOf(m, step, count) == OneRunEffect(step, run.call.name, run.result, run.verification)
  {
    RunInvocationsOfOne(run);
    assert RunEventsOf(step.stepId, [run]) == [Ran(step.stepId, run, true)];
  }

  lemma TwoEffects(m: Machine, step: PlanStep, count: nat, first: ToolRun, second: ToolRun)
    requires m.runs(step, count) == [first, second] && m.refusal(step) == NoStepError
    requires first.call == StepCall(step, first.call.name) && second.call == StepCall(step, second.call.name)
    requires Calls(first) == HandlerCalls(step, first.call.name, first.result.attempts)
    requires Calls(second) == HandlerCalls(step, second.call.name, second.result.attempts)
    requires first.verification.suggestedAction == UseAlternative
    ensures EffectOf(m, step, count) ==
      TwoRunsEffect(step, first.call.name, first.result, first.verification, second.call.name, second.result, second.verification)
  {
    RunInvocationsOfTwo(first, second);
    assert RunEventsOf(step.stepId, [first, second]) == [Ran(step.stepId, first, true), Ran(step.stepId, second, false)];
  }

  lemma RunToolCalls(env: Environment, step: PlanStep, tool: string, count: nat)
    ensures var run := RunTool(env, step, tool, count);
      run.call == StepCall(step, tool) && Calls(run) == HandlerCalls(step, tool, run.result.attempts)
  {
  }

  /** The effect of a step that gets to run a tool, by its runs. */
  lemma EffectOfRuns(env: Environment, step: PlanStep, spec: ToolSpec, count: nat)
    requires GetsTool(env, step, spec)
    ensures var run := FirstRun(env, step, spec, count);
      EffectOf(MachineOf(env), step, count) ==
        if Alternative(env, run.verification).None? then OneRunEffect(step, spec.name, run.result, run.verification)
        else
          var second := SecondRun(env, step, run, count);
          TwoRunsEffect(step, spec.name, run.result, run.verification, second.call.name, second.result, second.verification)
  {
    var run := FirstRun(env, step, spec, count);
    StepRunsAre(env, step, spec, count);
    RunToolCalls(env, step, spec.name, count);
    if Alternative(env, run.verification).None? {
      OneEffect(MachineOf(env), step, count, run);
    } else {
      var second := SecondRun(env, step, run, count);
      RunToolCalls(env, step, Alternative(env, run.verification).value.name, count + run.result.attempts);
      TwoEffects(MachineOf(env), step, count, run, second);
    }
  }

  /** The environment is read off the setting. */
  ghost predicate IsEnvOf(x: Setting, env: Environment) {
    && env.lookup == x.lookup && env.approval == x.approval
    && (forall step, tool, count: nat :: RunIs(x, step, tool, count, RunTool(env, step, tool, count)))
    && (forall v, tool :: NamesAlternative(x, v, tool) <==> Alternative(env, v).Some? && Alternative(env, v).value.name == tool)
  }

  ghost predicate RunIs(x: Setting, step: PlanStep, tool: string, count: nat, run: ToolRun) {
    run.call.name == tool && RunsTool(x, step, tool, count, run.result, run.verification)
  }

  lemma EnvFits(x: Setting)
    ensures IsEnvOf(x, EnvOf(x))
  {
    forall step, tool, count: nat ensures RunIs(x, step, tool, count, RunTool(EnvOf(x), step, tool, count)) {
      RunToolMeaning(x, step, tool, count);
    }
    forall v, tool ensures NamesAlternative(x, v, tool) <==> Alternative(EnvOf(x), v).Some? && Alternative(EnvOf(x), v).value.name == tool {
      AlternativeIff(x, v, tool);
    }
  }

  lemma RunHolds(x: Setting, env: Environment, step: PlanStep, tool: string, count: nat)
    requires IsEnvOf(x, env)
    ensures RunIs(x, step, tool, count, RunTool(env, step, tool, count))
  {
  }

  lemma NamedIff(x: Setting, env: Environment, v: Verification, tool: string)
    requires IsEnvOf(x, env)
    ensures NamesAlternative(x, v, tool) <==> Alternative(env, v).Some? && Alternative(env, v).value.name == tool
  {
  }

  lemma OneTool(x: Setting, env: Environment, step: PlanStep, spec: ToolSpec, count: nat)
    requires IsEnvOf(x, env) && Alternative(env, FirstRun(env, step, spec, count).verification).None?
    ensures var run := FirstRun(env, step, spec, count);
      OneRun(x, step, spec.name, count, OneRunEffect(step, spec.name, run.result, run.verification))
  {
    var run := FirstRun(env, step, spec, count);
    RunHolds(x, env, step, spec.name, count);
    forall alt ensures !NamesAlternative(x, run.verification, alt) { NamedIff(x, env, run.verification, alt); }
    OneRunHolds(x, step, spec.name, count, run);
  }

  lemma TwoTools(x: Setting, env: Environment, step: PlanStep, spec: ToolSpec, count: nat)
    requires IsEnvOf(x, env) && Alternative(env, FirstRun(env, step, spec, count).verification).Some?
    ensures var run := FirstRun(env, step, spec, count);
      var second := SecondRun(env, step, run, count);
      TwoRuns(x, step, spec.name, count,
              TwoRunsEffect(step, spec.name, run.result, run.verification, second.call.name, second.result, second.verification))
  {
    var run := FirstRun(env, step, spec, count);
    var alt, second := Alternative(env, run.verification).value.name, SecondRun(env, step, run, count);
    RunHolds(x, env, step, spec.name, count);
    RunHolds(x, env, step, alt, count + run.result.attempts);
    NamedIff(x, env, run.verification, alt);
    TwoRunsHold(x, step, spec.name, count, run, alt, second);
  }

  /** A step that gets to run a tool runs it, and perhaps one more. */
  lemma ToolEffect(x: Setting, env: Environment, step: PlanStep, spec: ToolSpec, count: nat)
    requires IsEnvOf(x, env) && GetsTool(env, step, spec)
    ensures var o := EffectOf(MachineOf(env), step, count);
      OneRun(x, step, spec.name, count, o) || TwoRuns(x, step, spec.name, count, o)
  {
    EffectOfRuns(env, step, spec, count);
    if Alternative(env, FirstRun(env, step, spec, count).verification).None? {
      OneTool(x, env, step, spec, count);
    } else {
      TwoTools(x, env, step, spec, count);
    }
  }

  lemma OneRunHolds(x: Setting, step: PlanStep, tool: string, count: nat, run: ToolRun)
    requires RunIs(x, step, tool, count, run) && forall alt :: !NamesAlternative(x, run.verification, alt)
    ensures OneRun(x, step, tool, count, OneRunEffect(step, tool, run.result, run.verification))
  {
  }

  lemma TwoRunsHold(x: Setting, step: PlanStep, tool: string, count: nat, run: ToolRun, alt: string, second: ToolRun)
    requires RunIs(x, step, tool, count, run) && NamesAlternative(x, run.verification, alt)
    requires RunIs(x, step, alt, count + run.result.attempts, second)
    ensures TwoRuns(x, step, tool, count,
                    TwoRunsEffect(step, tool, run.result, run.verification, alt, second.result, second.verification))
  {
  }

  lemma SkippedEffect(env: Environment, step: PlanStep, count: nat)
    requires Refusal(env, step) != NoStepError
    ensures EffectOf(MachineOf(env), step, count) == Skipped(step, Refusal(env, step))
  {
    assert RunEventsOf(step.stepId, []) == [];
  }

  lemma EffectLeaves(x: Setting, env: Environment, step: PlanStep, count: nat)
    requires IsEnvOf(x, env)
    ensures Leaves(x, step, count, EffectOf(MachineOf(env), step, count))
  {
    if Refusal(env, step) != NoStepError {
      SkippedEffect(env, step, count);
    } else {
      var spec := FindToolForCapability(step.primaryCapability, x.lookup).value;
      var i :| 0 <= i < |x.lookup| && x.lookup[i] == spec && IsFirstWith(step.primaryCapability, x.lookup, i);
      assert FirstOffering(x.lookup, step.primaryCapability, i);
      ToolEffect(x, env, step, spec, count);
    }
  }

  /** In a run of a plan's groups, the result of the step at `a` is the one recorded there. */
  lemma RecordedStays(m: Machine, steps: seq<PlanStep>, groups: seq<seq<PlanStep>>, history: seq<Invocation>, a: nat)
    requires IsLevelling(steps, groups) && a < |Flatten(groups)|
    ensures var flat := Flatten(groups);
      var final := Execute(m, flat, |flat|, history);
      flat[a].stepId in final.results && final.results[flat[a].stepId] == Execute(m, flat, a + 1, history).results[flat[a].stepId]
  {
    GroupOrderIsDistinct(steps, groups);
    ResultIsOwn(m, Flatten(groups), a, |Flatten(groups)|, history);
  }

  /**
   Every step of a plan run: when no step before it aborted, it leaves behind exactly what it
   should, its recorded result stays to the end, and the run goes on from there.
   */
  lemma StepMeaning(x: Setting, steps: seq<PlanStep>, groups: seq<seq<PlanStep>>, history: seq<Invocation>, a: nat) returns (o: Effect)
    requires IsLevelling(steps, groups) && a < |Flatten(groups)|
    requires Execute(MachineOf(EnvOf(x)), Flatten(groups), a, history).abortedBy.None?
    ensures var m, flat := MachineOf(EnvOf(x)), Flatten(groups);
      var before, after, final := Execute(m, flat, a, history), Execute(m, flat, a + 1, history), Execute(m, flat, |flat|, history);
      && Leaves(x, flat[a], |before.invocations|, o)
      && flat[a].stepId in final.results && final.results[flat[a].stepId] == o.recorded
      && after.abortedBy == (if o.aborts then Some(flat[a].stepId) else None)
      && after.invocations == before.invocations + o.calls
      && after.trace == before.trace + o.noted
  {
    var m, flat := MachineOf(EnvOf(x)), Flatten(groups);
    var before := Execute(m, flat, a, history);
    o := EffectOf(m, flat[a], |before.invocations|);
    EnvFits(x);
    EffectLeaves(x, EnvOf(x), flat[a], |before.invocations|);
    RecordedStays(m, steps, groups, history, a);
    ExecutedStep(m, flat, a, history);
  }

  lemma ExecutedStep(m: Machine, flat: seq<PlanStep>, a: nat, history: seq<Invocation>)
    requires a < |flat| && Execute(m, flat, a, history).abortedBy.None?
    ensures var before, after := Execute(m, flat, a, history), Execute(m, flat, a + 1, history);
      var o := EffectOf(m, flat[a], |before.invocations|);
      && flat[a].stepId in after.results && after.results[flat[a].stepId] == o.recorded
      && after.abortedBy == (if o.aborts then Some(flat[a].stepId) else None)
      && after.invocations == before.invocations + o.calls
      && after.trace == before.trace + o.noted
  {
  }
}
