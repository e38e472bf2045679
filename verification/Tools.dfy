/**
 The tool registry and the tool runner: call validation, the policy gate, and the
 retry loop around a handler that may raise.
 */
module Tools {
  import opened Sequences
  import opened Wrappers

  datatype ArgType = StringType | IntegerType | NumberType | BooleanType | ObjectType | ArrayType

  /** A call argument; the contents of objects and arrays play no part in validation. */
  datatype ArgValue =
    | StringArg(s: string)
    | IntegerArg(i: int)
    | FloatArg(r: real)
    | BooleanArg(b: bool)
    | ObjectArg
    | ArrayArg
    | NullArg

  datatype Parameter = Parameter(name: string, typ: ArgType, required: bool)

  datatype ToolSpec = ToolSpec(
    name: string,
    parameters: seq<Parameter>,
    riskLevel: Risk,
    readOnly: bool,
    capabilities: seq<string>)

  /** A call; the arguments are an insertion-ordered dictionary. */
  datatype ToolCall = ToolCall(name: string, arguments: seq<(string, ArgValue)>)

  datatype ToolState = Completed | Failed | Invalid | Blocked | TimedOut

  type Output = map<string, string>

  datatype ToolError =
    | NoError
    | CallErrors(errors: seq<CallError>)
    | WriteToolRequiresApproval
    | HighRiskToolRequiresApproval
    | HandlerRaised(message: string)

  datatype CallError =
    | UnknownTool(name: string)
    | MissingArgument(name: string)
    | UnknownArgument(name: string)
    | WrongType(name: string, typ: ArgType)

  datatype ToolResult = ToolResult(toolName: string, state: ToolState, attempts: nat, output: Output, error: ToolError)

  datatype Context = Context(approvedHighRiskTools: seq<string>, approvedWriteTools: seq<string>)

  datatype Outcome = Returned(output: Output) | Raised(message: string)

  /** One call of a handler. */
  datatype Invocation = Invocation(tool: string, arguments: seq<(string, ArgValue)>)

  datatype Event =
    | ToolInvalid(call: ToolCall, result: ToolResult)
    | ToolBlocked(call: ToolCall, result: ToolResult)
    | ToolStarted(call: ToolCall)
    | AttemptFailed(tool: string, attempt: nat, message: string)
    | ToolCompleted(result: ToolResult)
    | ToolFailed(result: ToolResult)

  // ---------------------------------------------------------------- registry

  /** Non-empty once '-' and '_' are removed, and otherwise alphanumeric. */
  predicate ValidName(isAlnum: char -> bool, name: string) {
    && (forall c :: c in name ==> isAlnum(c) || c == '_' || c == '-')
    && exists c :: c in name && c != '_' && c != '-'
  }

  type Registered = seq<ToolSpec>

  ghost predicate UniqueNames(tools: Registered) {
    forall i, j :: 0 <= i < j < |tools| ==> tools[i].name != tools[j].name
  }

  /** Dictionary lookup in the registration-ordered tools. */
  function Lookup(tools: Registered, name: string): (r: Option<ToolSpec>)
    ensures r.Some? ==> r.value in tools && r.value.name == name
    ensures r.None? ==> forall t :: t in tools ==> t.name != name
  {
    if tools == [] then None
    else if tools[0].name == name then Some(tools[0])
    else Lookup(tools[1..], name)
  }

  class ToolRegistry {
    const isAlnum: char -> bool
    var tools: Registered

    ghost predicate Valid()
      reads this
    {
      UniqueNames(tools) && forall t :: t in tools ==> ValidName(isAlnum, t.name)
    }

    constructor (isAlnum: char -> bool)
      ensures Valid() && tools == [] && this.isAlnum == isAlnum
    {
      this.isAlnum := isAlnum;
      tools := [];
    }

    /** Registering never replaces a tool: a bad or taken name is refused. */
    method Register(spec: ToolSpec) returns (ok: bool)
      requires Valid()
      modifies this
      ensures Valid()
      ensures ok <==> ValidName(isAlnum, spec.name) && Lookup(old(tools), spec.name).None?
      ensures tools == if ok then old(tools) + [spec] else old(tools)
    {
      if !ValidName(isAlnum, spec.name) || Lookup(tools, spec.name).Some? {
        return false;
      }
      tools := tools + [spec];
      return true;
    }
  }

  /** What a lookup finds stays found, with the same spec, however many tools follow. */
  lemma {:induction false} LookupStable(tools: Registered, more: Registered, name: string)
    ensures Lookup(tools, name).Some? ==> Lookup(tools + more, name) == Lookup(tools, name)
    decreases |tools|
  {
    if tools != [] && tools[0].name != name {
      LookupStable(tools[1..], more, name);
      assert (tools + more)[1..] == tools[1..] + more;
    }
  }

  // ---------------------------------------------------------------- call validation

  predicate MatchesType(v: ArgValue, t: ArgType) {
    match t
    case StringType => v.StringArg?
    case IntegerType => v.IntegerArg?
    case NumberType => v.IntegerArg? || v.FloatArg?
    case BooleanType => v.BooleanArg?
    case ObjectType => v.ObjectArg?
    case ArrayType => v.ArrayArg?
  }

  /** The declared parameter of a name; a later declaration of the same name wins. */
  function FindParameter(parameters: seq<Parameter>, name: string): Option<Parameter> {
    if parameters == [] then None
    else
      var n := |parameters| - 1;
      if parameters[n].name == name then Some(parameters[n]) else FindParameter(parameters[..n], name)
  }

  predicate HasArgument(arguments: seq<(string, ArgValue)>, name: string) {
    exists a :: a in arguments && a.0 == name
  }

  function MissingErrors(parameters: seq<Parameter>, arguments: seq<(string, ArgValue)>, n: nat): seq<CallError>
    requires n <= |parameters|
  {
    if n == 0 then []
    else
      var p := parameters[n - 1];
      MissingErrors(parameters, arguments, n - 1)
      + if p.required && !HasArgument(arguments, p.name) then [MissingArgument(p.name)] else []
  }

  function ArgumentErrors(parameters: seq<Parameter>, arguments: seq<(string, ArgValue)>, n: nat): seq<CallError>
    requires n <= |arguments|
  {
    if n == 0 then []
    else
      var a := arguments[n - 1];
      var p := FindParameter(parameters, a.0);
      ArgumentErrors(parameters, arguments, n - 1)
      + if p.None? then [UnknownArgument(a.0)]
        else if MatchesType(a.1, p.value.typ) then []
        else [WrongType(a.0, p.value.typ)]
  }

  function ValidationErrors(tools: Registered, call: ToolCall): seq<CallError> {
    var spec := Lookup(tools, call.name);
    if spec.None? then [UnknownTool(call.name)]
    else
      MissingErrors(spec.value.parameters, call.arguments, |spec.value.parameters|)
      + ArgumentErrors(spec.value.parameters, call.arguments, |call.arguments|)
  }

  /** What it means for a call to fit a tool's declaration. */
  ghost predicate Fits(spec: ToolSpec, arguments: seq<(string, ArgValue)>) {
    && (forall p :: p in spec.parameters && p.required ==> HasArgument(arguments, p.name))
    && (forall a :: a in arguments ==>
         var p := FindParameter(spec.parameters, a.0);
         p.Some? && MatchesType(a.1, p.value.typ))
  }

  lemma {:induction false} NoMissing(parameters: seq<Parameter>, arguments: seq<(string, ArgValue)>, n: nat)
    requires n <= |parameters|
    ensures MissingErrors(parameters, arguments, n) == [] <==>
      forall p :: p in parameters[..n] && p.required ==> HasArgument(arguments, p.name)
    decreases n
  {
    if n == 0 {
    } else {
      NoMissing(parameters, arguments, n - 1);
      assert parameters[..n] == parameters[..n - 1] + [parameters[n - 1]];
    }
  }

  lemma {:induction false} NoBadArgument(parameters: seq<Parameter>, arguments: seq<(string, ArgValue)>, n: nat)
    requires n <= |arguments|
    ensures ArgumentErrors(parameters, arguments, n) == [] <==>
      forall a :: a in arguments[..n] ==>
        FindParameter(parameters, a.0).Some? && MatchesType(a.1, FindParameter(parameters, a.0).value.typ)
    decreases n
  {
    if n == 0 {
    } else {
      NoBadArgument(parameters, arguments, n - 1);
      assert arguments[..n] == arguments[..n - 1] + [arguments[n - 1]];
    }
  }

  /** A call is accepted exactly when the tool is registered and the arguments fit it. */
  lemma ValidCallFits(tools: Registered, call: ToolCall)
    ensures ValidationErrors(tools, call) == [] <==>
      Lookup(tools, call.name).Some? && Fits(Lookup(tools, call.name).value, call.arguments)
  {
    var spec := Lookup(tools, call.name);
    if spec.Some? {
      NoMissing(spec.value.parameters, call.arguments, |spec.value.parameters|);
      NoBadArgument(spec.value.parameters, call.arguments, |call.arguments|);
      assert spec.value.parameters[..|spec.value.parameters|] == spec.value.parameters;
      assert call.arguments[..|call.arguments|] == call.arguments;
    }
  }

  method ValidateCall(registry: ToolRegistry, call: ToolCall) returns (errors: seq<CallError>)
    ensures errors == ValidationErrors(registry.tools, call)
  {
    var spec := Lookup(registry.tools, call.name);
    if spec.None? {
      return [UnknownTool(call.name)];
    }
    var parameters := spec.value.parameters;
    errors := [];
    for i := 0 to |parameters|
      invariant errors == MissingErrors(parameters, call.arguments, i)
    {
      if parameters[i].required && !HasArgument(call.arguments, parameters[i].name) {
        errors := errors + [MissingArgument(parameters[i].name)];
      }
    }
    ghost var missing := errors;
    for i := 0 to |call.arguments|
      invariant errors == missing + ArgumentErrors(parameters, call.arguments, i)
    {
      var (name, value) := call.arguments[i];
      var parameter := FindParameter(parameters, name);
      if parameter.None? {
        errors := errors + [UnknownArgument(name)];
        continue;
      }
      if !MatchesType(value, parameter.value.typ) {
        errors := errors + [WrongType(name, parameter.value.typ)];
      }
    }
  }

  // ---------------------------------------------------------------- policy and retries

  function PolicyError(spec: ToolSpec, context: Context): ToolError {
    if !spec.readOnly && spec.name !in context.approvedWriteTools then WriteToolRequiresApproval
    else if spec.riskLevel == High && spec.name !in context.approvedHighRiskTools then HighRiskToolRequiresApproval
    else NoError
  }

  /** The tool's handler may be called under this context. */
  ghost predicate Authorized(tools: Registered, context: Context, name: string) {
    var spec := Lookup(tools, name);
    && spec.Some?
    && (!spec.value.readOnly ==> name in context.approvedWriteTools)
    && (spec.value.riskLevel == High ==> name in context.approvedHighRiskTools)
  }

  function AttemptLimit(maxAttempts: int): nat {
    if maxAttempts > 1 then maxAttempts else 1
  }

  /** How handlers behave: by invocation, counting every handler call made so far. */
  type Handlers = (Invocation, nat) -> Outcome

  /** Number of attempts the retry loop makes when `left` remain and `count` calls came before. */
  function Attempts(handlers: Handlers, inv: Invocation, count: nat, left: nat): (n: nat)
    ensures n <= left
    ensures left > 0 ==> n > 0
    ensures forall j :: count <= j < count + n - 1 ==> handlers(inv, j).Raised?
    ensures n < left ==> handlers(inv, count + n - 1).Returned?
    decreases left
  {
    if left == 0 then 0
    else if handlers(inv, count).Returned? then 1
    else 1 + Attempts(handlers, inv, count + 1, left - 1)
  }

  /** The result of running a call after `count` earlier handler calls. */
  function RunResult(tools: Registered, context: Context, handlers: Handlers, count: nat, call: ToolCall, maxAttempts: int)
    : ToolResult
  {
    var errors := ValidationErrors(tools, call);
    var spec := Lookup(tools, call.name);
    if spec.None? || errors != [] then ToolResult(call.name, Invalid, 0, map[], CallErrors(errors))
    else
      var policy := PolicyError(spec.value, context);
      if policy != NoError then ToolResult(call.name, Blocked, 0, map[], policy)
      else
        AttemptsResult(handlers, count, call, AttemptLimit(maxAttempts))
  }

  /** The number of attempts is fixed by where the first return is, or by the limit. */
  lemma {:induction false} AttemptsAre(handlers: Handlers, inv: Invocation, count: nat, limit: nat, n: nat)
    requires 0 < n <= limit
    requires forall j :: count <= j < count + n - 1 ==> handlers(inv, j).Raised?
    requires n == limit || handlers(inv, count + n - 1).Returned?
    ensures Attempts(handlers, inv, count, limit) == n
    decreases n
  {
    if n > 1 {
      AttemptsAre(handlers, inv, count + 1, limit - 1, n - 1);
    }
  }

  function AttemptsResult(handlers: Handlers, count: nat, call: ToolCall, limit: nat): ToolResult
    requires limit > 0
  {
    var inv := Invocation(call.name, call.arguments);
    var n := Attempts(handlers, inv, count, limit);
    match handlers(inv, count + n - 1)
    case Returned(output) => ToolResult(call.name, Completed, n, output, NoError)
    case Raised(message) => ToolResult(call.name, Failed, n, map[], HandlerRaised(message))
  }

  lemma ReturnEndsLoop(handlers: Handlers, call: ToolCall, inv: Invocation, count: nat, limit: nat, r: ToolResult)
    requires inv == Invocation(call.name, call.arguments) && 0 < r.attempts <= limit
    requires forall j :: count <= j < count + r.attempts - 1 ==> handlers(inv, j).Raised?
    requires handlers(inv, count + r.attempts - 1) == Returned(r.output)
    requires r == ToolResult(call.name, Completed, r.attempts, r.output, NoError)
    ensures AttemptsResult(handlers, count, call, limit) == r
    ensures AttemptEvents(handlers, count, call, r)
         == FailureEvents(handlers, inv, count, r.attempts - 1) + [ToolCompleted(r)]
  {
    AttemptsAre(handlers, inv, count, limit, r.attempts);
  }

  lemma LimitEndsLoop(handlers: Handlers, call: ToolCall, inv: Invocation, count: nat, limit: nat, r: ToolResult)
    requires inv == Invocation(call.name, call.arguments) && 0 < r.attempts == limit
    requires forall j :: count <= j < count + limit ==> handlers(inv, j).Raised?
    requires r == ToolResult(call.name, Failed, limit, map[], HandlerRaised(handlers(inv, count + limit - 1).message))
    ensures AttemptsResult(handlers, count, call, limit) == r
    ensures AttemptEvents(handlers, count, call, r) == FailureEvents(handlers, inv, count, limit) + [ToolFailed(r)]
  {
    AttemptsAre(handlers, inv, count, limit, limit);
  }

  /** The events of the failed attempts `1..n`. */
  function FailureEvents(handlers: Handlers, inv: Invocation, count: nat, n: nat): seq<Event> {
    if n == 0 then []
    else
      FailureEvents(handlers, inv, count, n - 1)
      + match handlers(inv, count + n - 1)
        case Raised(message) => [AttemptFailed(inv.tool, n, message)]
        case Returned(_) => []
  }

  function RunEvents(handlers: Handlers, count: nat, call: ToolCall, r: ToolResult): seq<Event> {
    match r.state
    case Invalid => [ToolInvalid(call, r)]
    case Blocked => [ToolBlocked(call, r)]
    case _ => [ToolStarted(call)] + AttemptEvents(handlers, count, call, r)
  }

  function AttemptEvents(handlers: Handlers, count: nat, call: ToolCall, r: ToolResult): seq<Event> {
    FailureEvents(handlers, Invocation(call.name, call.arguments), count, r.attempts)
    + [if r.state == Completed then ToolCompleted(r) else ToolFailed(r)]
  }

  lemma RepeatStep(inv: Invocation, n: nat)
    ensures Repeat(inv, n) + [inv] == Repeat(inv, n + 1)
  {
  }

  /**
   What every run reports: attempts are zero exactly when the call is invalid or
   blocked, stay within `max(1, max_attempts)`, and a handler is reached only when
   the call fits the declaration and the policy allows the tool.
   */
  lemma RunResultMeaning(tools: Registered, context: Context, handlers: Handlers, count: nat, call: ToolCall, max: int)
    ensures var r := RunResult(tools, context, handlers, count, call, max);
      && (r.attempts == 0 <==> r.state == Invalid || r.state == Blocked)
      && r.attempts <= AttemptLimit(max)
      && (r.attempts > 0 <==>
           Authorized(tools, context, call.name) && Fits(Lookup(tools, call.name).value, call.arguments))
      && r.state != TimedOut
  {
    ValidCallFits(tools, call);
  }

  /** The attempts end with the first return, or with the limit. */
  ghost predicate EndsRightly(handlers: Handlers, inv: Invocation, count: nat, limit: nat, r: ToolResult) {
    && (r.state == Completed ==>
         && r.attempts > 0 && handlers(inv, count + r.attempts - 1) == Returned(r.output)
         && forall j :: count <= j < count + r.attempts - 1 ==> handlers(inv, j).Raised?)
    && (r.state == Failed ==> r.attempts == limit && forall j :: count <= j < count + r.attempts ==> handlers(inv, j).Raised?)
  }

  lemma AttemptsOutcome(handlers: Handlers, count: nat, call: ToolCall, limit: nat)
    requires limit > 0
    ensures EndsRightly(handlers, Invocation(call.name, call.arguments), count, limit, AttemptsResult(handlers, count, call, limit))
  {
  }

  /** Some attempt within the limit would return. */
  ghost predicate Returns(handlers: Handlers, inv: Invocation, count: nat, limit: nat) {
    exists j :: count <= j < count + limit && handlers(inv, j).Returned?
  }

  lemma AttemptsComplete(handlers: Handlers, count: nat, call: ToolCall, limit: nat)
    requires limit > 0
    ensures AttemptsResult(handlers, count, call, limit).state == Completed <==>
      Returns(handlers, Invocation(call.name, call.arguments), count, limit)
  {
    var r := AttemptsResult(handlers, count, call, limit);
    AttemptsOutcome(handlers, count, call, limit);
    if r.state == Completed { assert handlers(Invocation(call.name, call.arguments), count + r.attempts - 1).Returned?; }
  }

  /**
   A run completes exactly when the call fits, the policy allows the tool and some attempt
   within the limit returns; it then ends with the first that does, and else all have raised.
   */
  lemma RunResultOutcome(tools: Registered, context: Context, handlers: Handlers, count: nat, call: ToolCall, max: int)
    ensures var r, inv := RunResult(tools, context, handlers, count, call, max), Invocation(call.name, call.arguments);
      && EndsRightly(handlers, inv, count, AttemptLimit(max), r)
      && (r.state == Completed <==>
           && Authorized(tools, context, call.name) && Fits(Lookup(tools, call.name).value, call.arguments)
           && Returns(handlers, inv, count, AttemptLimit(max)))
  {
    RunResultMeaning(tools, context, handlers, count, call, max);
    AttemptsOutcome(handlers, count, call, AttemptLimit(max));
    AttemptsComplete(handlers, count, call, AttemptLimit(max));
  }

  ghost predicate AllAuthorized(tools: Registered, context: Context, invocations: seq<Invocation>) {
    forall i :: 0 <= i < |invocations| ==> Authorized(tools, context, invocations[i].tool)
  }

  lemma AllAuthorizedAfter(tools: Registered, context: Context, before: seq<Invocation>, inv: Invocation, n: nat)
    requires AllAuthorized(tools, context, before) && Authorized(tools, context, inv.tool)
    ensures AllAuthorized(tools, context, before + Repeat(inv, n))
  {
  }

  /** The first `n` calls after `count` raised, the last of them with this message. */
  ghost predicate Failing(handlers: Handlers, inv: Invocation, count: nat, n: nat, lastError: string) {
    && (forall j :: count <= j < count + n ==> handlers(inv, j).Raised?)
    && (n > 0 ==> handlers(inv, count + n - 1) == Raised(lastError))
  }

  lemma FailureEventsStep(handlers: Handlers, inv: Invocation, count: nat, n: nat, before: seq<Event>, message: string)
    requires n > 0 && handlers(inv, count + n - 1) == Raised(message)
    ensures before + FailureEvents(handlers, inv, count, n)
         == before + FailureEvents(handlers, inv, count, n - 1) + [AttemptFailed(inv.tool, n, message)]
  {
    EventsGrow(before, FailureEvents(handlers, inv, count, n - 1), AttemptFailed(inv.tool, n, message));
  }

  lemma EventsGrow(before: seq<Event>, failures: seq<Event>, e: Event)
    ensures before + failures + [e] == before + (failures + [e])
  {
  }

  class ToolRunner {
    const registry: ToolRegistry
    const context: Context
    const handlers: Handlers
    var events: seq<Event>
    /** Every handler call made through this runner, oldest first. */
    var invocations: seq<Invocation>

    constructor (registry: ToolRegistry, context: Context, handlers: Handlers)
      requires registry.Valid()
      ensures Valid() && invocations == [] && events == []
      ensures this.registry == registry && this.context == context && this.handlers == handlers
    {
      this.registry := registry;
      this.context := context;
      this.handlers := handlers;
      events, invocations := [], [];
    }

    /** Every handler call so far was of a registered tool that the context approves. */
    ghost predicate Valid()
      reads this, registry
    {
      && registry.Valid()
      && AllAuthorized(registry.tools, context, invocations)
    }

    method Run(call: ToolCall, maxAttempts: int) returns (result: ToolResult)
      requires Valid()
      modifies this
      ensures Valid()
      ensures result == RunResult(registry.tools, context, handlers, |old(invocations)|, call, maxAttempts)
      ensures invocations == old(invocations) + Repeat(Invocation(call.name, call.arguments), result.attempts)
      ensures events == old(events) + RunEvents(handlers, |old(invocations)|, call, result)
    {
      var attempts := AttemptLimit(maxAttempts);
      var errors := ValidateCall(registry, call);
      if errors != [] {
        result := ToolResult(call.name, Invalid, 0, map[], CallErrors(errors));
        events := events + [ToolInvalid(call, result)];
        return;
      }
      var spec := Lookup(registry.tools, call.name).value;
      var policy := PolicyError(spec, context);
      if policy != NoError {
        result := ToolResult(call.name, Blocked, 0, map[], policy);
        events := events + [ToolBlocked(call, result)];
        return;
      }
      events := events + [ToolStarted(call)];
      result := RetryLoop(call, attempts);
      var inv := Invocation(call.name, call.arguments);
      AllAuthorizedAfter(registry.tools, context, old(invocations), inv, result.attempts);
    }

    /** The attempts of an admitted call. */
    method RetryLoop(call: ToolCall, attempts: nat) returns (result: ToolResult)
      requires attempts > 0
      modifies this`events, this`invocations
      ensures result == AttemptsResult(handlers, |old(invocations)|, call, attempts)
      ensures invocations == old(invocations) + Repeat(Invocation(call.name, call.arguments), result.attempts)
      ensures events == old(events) + AttemptEvents(handlers, |old(invocations)|, call, result)
    {
      var inv := Invocation(call.name, call.arguments);
      ghost var count, before := |invocations|, events;
      var lastError := "";
      for attempt := 1 to attempts + 1
        invariant invocations == old(invocations) + Repeat(inv, attempt - 1)
        invariant events == before + FailureEvents(handlers, inv, count, attempt - 1)
        invariant Failing(handlers, inv, count, attempt - 1, lastError)
      {
        var outcome := handlers(inv, |invocations|);
        RepeatStep(inv, attempt - 1);
        invocations := invocations + [inv];
        match outcome {
          case Raised(message) =>
            lastError := message;
            FailureEventsStep(handlers, inv, count, attempt, before, message);
            events := events + [AttemptFailed(call.name, attempt, message)];
          case Returned(output) =>
            result := ToolResult(call.name, Completed, attempt, output, NoError);
            ReturnEndsLoop(handlers, call, inv, count, attempts, result);
            EventsGrow(before, FailureEvents(handlers, inv, count, attempt - 1), ToolCompleted(result));
            events := events + [ToolCompleted(result)];
            return;
        }
      }
      result := ToolResult(call.name, Failed, attempts, map[], HandlerRaised(lastError));
      LimitEndsLoop(handlers, call, inv, count, attempts, result);
      EventsGrow(before, FailureEvents(handlers, inv, count, attempts), ToolFailed(result));
      events := events + [ToolFailed(result)];
    }
  }
}
