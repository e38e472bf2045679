/**
 What registration, validation and one run of a tool come to, stated on names, declarations,
 arguments, context and handlers alone.
 */
module ToolLaws {
  import opened Sequences
  import opened Wrappers
  import opened Tools

  // ---------------------------------------------------------------- names

  /** The name without '-' and '_'. */
  function Letters(name: string): string {
    if name == "" then "" else (if name[0] == '-' || name[0] == '_' then "" else [name[0]]) + Letters(name[1..])
  }

  /** A name is valid exactly when something alphanumeric and nothing else is left of it without '-' and '_'. */
  lemma ValidNameIff(isAlnum: char -> bool, name: string)
    ensures ValidName(isAlnum, name) <==> Letters(name) != "" && forall c :: c in Letters(name) ==> isAlnum(c)
  {
    forall c ensures c in Letters(name) <==> c in name && c != '-' && c != '_' { LettersMembers(name, c); }
    if Letters(name) != "" { assert Letters(name)[0] in Letters(name); }
    if c :| c in name && c != '_' && c != '-' { assert c in Letters(name); }
  }

  lemma {:induction false} LettersMembers(name: string, c: char)
    ensures c in Letters(name) <==> c in name && c != '-' && c != '_'
    decreases |name|
  {
    if name == "" {
    } else {
      LettersMembers(name[1..], c);
      assert name == [name[0]] + name[1..];
    }
  }

  // ---------------------------------------------------------------- declarations

  /** The types a value has: an integer is a number, a boolean is not, and an absent value has none. */
  lemma TypesOf(v: ArgValue)
    ensures (set t | MatchesType(v, t)) ==
      match v
      case StringArg(_) => {StringType}
      case IntegerArg(_) => {IntegerType, NumberType}
      case FloatArg(_) => {NumberType}
      case BooleanArg(_) => {BooleanType}
      case ObjectArg => {ObjectType}
      case ArrayArg => {ArrayType}
      case NullArg => {}
  {
  }

  /** The last declaration of the name. */
  ghost predicate IsDeclared(parameters: seq<Parameter>, name: string, i: nat) {
    && i < |parameters| && parameters[i].name == name
    && forall j :: i < j < |parameters| ==> parameters[j].name != name
  }

  /** The declaration found is the last one of the name, and none is found exactly when there is none. */
  lemma {:induction false} FoundIsLast(parameters: seq<Parameter>, name: string) returns (i: nat)
    ensures FindParameter(parameters, name).Some? ==> IsDeclared(parameters, name, i) && FindParameter(parameters, name).value == parameters[i]
    ensures FindParameter(parameters, name).None? ==> forall p :: p in parameters ==> p.name != name
    decreases |parameters|
  {
    if parameters == [] {
      i := 0;
    } else {
      var n := |parameters| - 1;
      assert parameters == parameters[..n] + [parameters[n]];
      if parameters[n].name == name { i := n; } else { i := FoundIsLast(parameters[..n], name); }
    }
  }

  // ---------------------------------------------------------------- validation errors

  /** A required parameter without an argument. */
  predicate IsMissing(parameters: seq<Parameter>, arguments: seq<(string, ArgValue)>, i: nat) {
    i < |parameters| && parameters[i].required && forall a :: a in arguments ==> a.0 != parameters[i].name
  }

  /** What is wrong with the argument, if anything: its name is not declared, or its value is not of the declared type. */
  ghost predicate IsWrong(parameters: seq<Parameter>, arguments: seq<(string, ArgValue)>, j: nat, e: CallError) {
    && j < |arguments|
    && var (name, value) := arguments[j];
      || (e == UnknownArgument(name) && forall p :: p in parameters ==> p.name != name)
      || exists i: nat :: IsDeclared(parameters, name, i) && !MatchesType(value, parameters[i].typ) && e == WrongType(name, parameters[i].typ)
  }

  ghost predicate SomethingWrong(parameters: seq<Parameter>, arguments: seq<(string, ArgValue)>, j: nat) {
    exists e :: IsWrong(parameters, arguments, j, e)
  }

  /** The error the check itself makes of the argument. */
  function Wrong(parameters: seq<Parameter>, a: (string, ArgValue)): seq<CallError> {
    var p := FindParameter(parameters, a.0);
    if p.None? then [UnknownArgument(a.0)]
    else if MatchesType(a.1, p.value.typ) then [] else [WrongType(a.0, p.value.typ)]
  }

  /** These are the places of the missing arguments among the first `n` parameters, and the errors for them. */
  ghost predicate MissingAt(parameters: seq<Parameter>, arguments: seq<(string, ArgValue)>, n: nat, places: seq<nat>, errors: seq<CallError>) {
    && Ascending(places) && (forall i: nat :: i in places <==> i < n && IsMissing(parameters, arguments, i))
    && |errors| == |places|
    && forall k :: 0 <= k < |places| ==>
         places[k] < |parameters| && errors[k] == MissingArgument(parameters[places[k]].name)
  }

  lemma MissingSnoc(parameters: seq<Parameter>, arguments: seq<(string, ArgValue)>, n: nat, places: seq<nat>, errors: seq<CallError>)
    requires n < |parameters| && MissingAt(parameters, arguments, n, places, errors)
    ensures if IsMissing(parameters, arguments, n) then
        MissingAt(parameters, arguments, n + 1, places + [n], errors + [MissingArgument(parameters[n].name)])
      else MissingAt(parameters, arguments, n + 1, places, errors)
  {
    AscendingSnoc(places, n);
  }

  lemma MissingStep(parameters: seq<Parameter>, arguments: seq<(string, ArgValue)>, n: nat)
    requires n < |parameters|
    ensures MissingErrors(parameters, arguments, n + 1) == MissingErrors(parameters, arguments, n)
      + if IsMissing(parameters, arguments, n) then [MissingArgument(parameters[n].name)] else []
  {
  }

  lemma {:induction false} MissingPlaces(parameters: seq<Parameter>, arguments: seq<(string, ArgValue)>, n: nat) returns (places: seq<nat>)
    requires n <= |parameters|
    ensures MissingAt(parameters, arguments, n, places, MissingErrors(parameters, arguments, n))
    decreases n
  {
    if n == 0 {
      places := [];
    } else {
      var k := n - 1;
      var before := MissingPlaces(parameters, arguments, k);
      MissingStep(parameters, arguments, k);
      MissingSnoc(parameters, arguments, k, before, MissingErrors(parameters, arguments, k));
      places := if IsMissing(parameters, arguments, k) then before + [k] else before;
      assert MissingAt(parameters, arguments, k + 1, places, MissingErrors(parameters, arguments, k + 1));
    }
  }

  lemma WrongIff(parameters: seq<Parameter>, arguments: seq<(string, ArgValue)>, j: nat, e: CallError)
    requires j < |arguments|
    ensures IsWrong(parameters, arguments, j, e) <==> Wrong(parameters, arguments[j]) == [e]
  {
    var i := FoundIsLast(parameters, arguments[j].0);
    if FindParameter(parameters, arguments[j].0).Some? { assert parameters[i] in parameters; }
  }

  lemma SomethingWrongIff(parameters: seq<Parameter>, arguments: seq<(string, ArgValue)>, j: nat)
    requires j < |arguments|
    ensures SomethingWrong(parameters, arguments, j) <==> Wrong(parameters, arguments[j]) != []
    ensures Wrong(parameters, arguments[j]) != [] ==> IsWrong(parameters, arguments, j, Wrong(parameters, arguments[j])[0])
  {
    forall e ensures IsWrong(parameters, arguments, j, e) <==> Wrong(parameters, arguments[j]) == [e] {
      WrongIff(parameters, arguments, j, e);
    }
    if Wrong(parameters, arguments[j]) != [] {
      assert IsWrong(parameters, arguments, j, Wrong(parameters, arguments[j])[0]);
    }
  }

  /** These are the places of the wrong ones among the first `n` arguments, and the errors for them. */
  ghost predicate WrongAt(parameters: seq<Parameter>, arguments: seq<(string, ArgValue)>, n: nat, places: seq<nat>, errors: seq<CallError>) {
    && Ascending(places) && (forall j: nat :: j in places <==> j < n && SomethingWrong(parameters, arguments, j))
    && |errors| == |places|
    && forall k :: 0 <= k < |places| ==> IsWrong(parameters, arguments, places[k], errors[k])
  }

  lemma WrongSnoc(parameters: seq<Parameter>, arguments: seq<(string, ArgValue)>, n: nat, places: seq<nat>, errors: seq<CallError>)
    requires n < |arguments| && WrongAt(parameters, arguments, n, places, errors)
    ensures WrongAt(parameters, arguments, n + 1, if Wrong(parameters, arguments[n]) == [] then places else places + [n],
                    errors + Wrong(parameters, arguments[n]))
  {
    SomethingWrongIff(parameters, arguments, n);
    AscendingSnoc(places, n);
  }

  lemma WrongStep(parameters: seq<Parameter>, arguments: seq<(string, ArgValue)>, n: nat)
    requires n < |arguments|
    ensures ArgumentErrors(parameters, arguments, n + 1) == ArgumentErrors(parameters, arguments, n) + Wrong(parameters, arguments[n])
  {
  }

  lemma {:induction false} WrongPlaces(parameters: seq<Parameter>, arguments: seq<(string, ArgValue)>, n: nat) returns (places: seq<nat>)
    requires n <= |arguments|
    ensures WrongAt(parameters, arguments, n, places, ArgumentErrors(parameters, arguments, n))
    decreases n
  {
    if n == 0 {
      places := [];
    } else {
      places := WrongPlaces(parameters, arguments, n - 1);
      WrongStep(parameters, arguments, n - 1);
      WrongSnoc(parameters, arguments, n - 1, places, ArgumentErrors(parameters, arguments, n - 1));
      if Wrong(parameters, arguments[n - 1]) != [] { places := places + [n - 1]; }
    }
  }

  /** The errors of a call to a registered tool: each missing argument in declaration order, then each wrong one in call order. */
  ghost predicate ErrorsAre(parameters: seq<Parameter>, arguments: seq<(string, ArgValue)>, errors: seq<CallError>) {
    exists missing, wrong, first, second ::
      && MissingAt(parameters, arguments, |parameters|, missing, first) && WrongAt(parameters, arguments, |arguments|, wrong, second)
      && errors == first + second
  }

  lemma ErrorsMeaning(tools: Registered, call: ToolCall)
    ensures var spec := Lookup(tools, call.name);
      if spec.None? then ValidationErrors(tools, call) == [UnknownTool(call.name)]
      else ErrorsAre(spec.value.parameters, call.arguments, ValidationErrors(tools, call))
  {
    if Lookup(tools, call.name).Some? {
      var parameters := Lookup(tools, call.name).value.parameters;
      var missing := MissingPlaces(parameters, call.arguments, |parameters|);
      var wrong := WrongPlaces(parameters, call.arguments, |call.arguments|);
    }
  }

  // ---------------------------------------------------------------- one run of a tool

  /** The arguments fit what the tool declares: nothing required is missing and nothing is wrong. */
  ghost predicate FitsDeclaration(spec: ToolSpec, arguments: seq<(string, ArgValue)>) {
    && (forall i: nat :: !IsMissing(spec.parameters, arguments, i))
    && (forall j: nat :: !SomethingWrong(spec.parameters, arguments, j))
  }

  /** A tool that writes, or is of high risk, is on the list of those approved for that. */
  predicate MayRun(spec: ToolSpec, context: Context) {
    && (spec.readOnly || spec.name in context.approvedWriteTools)
    && (spec.riskLevel != High || spec.name in context.approvedHighRiskTools)
  }

  /** The number of handler calls allowed: what is asked for, but at least one. */
  function Allowed(asked: int): nat {
    if asked < 1 then 1 else asked
  }

  /** The `j`-th handler call from the `count`-th on raises. */
  ghost predicate Raises(handlers: Handlers, inv: Invocation, count: nat, j: nat) {
    handlers(inv, count + j).Raised?
  }

  /** The handler is called `n` times from its `count`-th call on, all of which raise but perhaps the last. */
  ghost predicate CalledTimes(handlers: Handlers, inv: Invocation, count: nat, n: nat) {
    n > 0 && forall j: nat :: j < n - 1 ==> Raises(handlers, inv, count, j)
  }

  /**
   What one run of a tool reports, after `count` earlier handler calls: an invalid call with its
   errors, a refusal with its reason, the output of the first handler call that returns, or the
   message of the last of the allowed calls.
   */
  ghost predicate Reports(tools: Registered, context: Context, handlers: Handlers, count: nat, call: ToolCall, asked: int, r: ToolResult) {
    var inv, spec := Invocation(call.name, call.arguments), Lookup(tools, call.name);
    && r.toolName == call.name
    && if spec.None? || !FitsDeclaration(spec.value, call.arguments) then
        r.state == Invalid && r.attempts == 0 && r.output == map[] && r.error == CallErrors(ValidationErrors(tools, call))
      else if !MayRun(spec.value, context) then
        && r.state == Blocked && r.attempts == 0 && r.output == map[]
        && r.error == (if !spec.value.readOnly && call.name !in context.approvedWriteTools then WriteToolRequiresApproval
                       else HighRiskToolRequiresApproval)
      else
        && r.attempts <= Allowed(asked) && CalledTimes(handlers, inv, count, r.attempts)
        && match handlers(inv, count + r.attempts - 1)
           case Returned(output) => r.state == Completed && r.output == output && r.error == NoError
           case Raised(message) =>
             r.state == Failed && r.attempts == Allowed(asked) && r.output == map[] && r.error == HandlerRaised(message)
  }

  lemma FitsIff(tools: Registered, call: ToolCall)
    requires Lookup(tools, call.name).Some?
    ensures ValidationErrors(tools, call) == [] <==> FitsDeclaration(Lookup(tools, call.name).value, call.arguments)
  {
    ErrorsMeaning(tools, call);
    ErrorsEmptyIff(Lookup(tools, call.name).value, call.arguments, ValidationErrors(tools, call));
  }

  lemma ErrorsEmptyIff(spec: ToolSpec, arguments: seq<(string, ArgValue)>, errors: seq<CallError>)
    requires ErrorsAre(spec.parameters, arguments, errors)
    ensures errors == [] <==> FitsDeclaration(spec, arguments)
  {
    var missing, wrong, first, second :|
      && MissingAt(spec.parameters, arguments, |spec.parameters|, missing, first) && WrongAt(spec.parameters, arguments, |arguments|, wrong, second)
      && errors == first + second;
    if missing != [] { assert missing[0] in missing; }
    if wrong != [] { assert wrong[0] in wrong; }
  }

  /** A registered tool is found under its own name. */
  lemma LookupName(tools: Registered, name: string)
    ensures Lookup(tools, name).Some? ==> Lookup(tools, name).value.name == name
  {
  }

  lemma RunReports(tools: Registered, context: Context, handlers: Handlers, count: nat, call: ToolCall, asked: int)
    ensures Reports(tools, context, handlers, count, call, asked, RunResult(tools, context, handlers, count, call, asked))
  {
    var r := RunResult(tools, context, handlers, count, call, asked);
    if Lookup(tools, call.name).Some? { FitsIff(tools, call); }
    LookupName(tools, call.name);
    var inv := Invocation(call.name, call.arguments);
    forall j: nat | r.attempts > 0 && j < r.attempts - 1 ensures Raises(handlers, inv, count, j) {
      assert count <= count + j < count + r.attempts - 1;
    }
  }

  /** There is only one such report. */
  lemma ReportsOnce(tools: Registered, context: Context, handlers: Handlers, count: nat, call: ToolCall, asked: int,
                    r: ToolResult, q: ToolResult)
    requires Reports(tools, context, handlers, count, call, asked, r) && Reports(tools, context, handlers, count, call, asked, q)
    ensures r == q
  {
    var inv := Invocation(call.name, call.arguments);
    assert 0 < r.attempts < q.attempts ==> Raises(handlers, inv, count, r.attempts - 1);
    assert 0 < q.attempts < r.attempts ==> Raises(handlers, inv, count, q.attempts - 1);
  }

  /** A run of a tool reports this, and nothing else. */
  lemma RunMeaning(tools: Registered, context: Context, handlers: Handlers, count: nat, call: ToolCall, asked: int, r: ToolResult)
    ensures r == RunResult(tools, context, handlers, count, call, asked) <==> Reports(tools, context, handlers, count, call, asked, r)
  {
    RunReports(tools, context, handlers, count, call, asked);
    if Reports(tools, context, handlers, count, call, asked, r) {
      ReportsOnce(tools, context, handlers, count, call, asked, r, RunResult(tools, context, handlers, count, call, asked));
    }
  }

  // ---------------------------------------------------------------- the events of a run

  /** The `j`-th handler call raises, and the event says so: the tool, the attempt's number and the message. */
  ghost predicate Fails(handlers: Handlers, inv: Invocation, count: nat, j: nat, e: Event) {
    Raises(handlers, inv, count, j) && e == AttemptFailed(inv.tool, j + 1, handlers(inv, count + j).message)
  }

  lemma {:induction false} FailuresAre(handlers: Handlers, inv: Invocation, count: nat, n: nat)
    requires forall j: nat :: j < n ==> Raises(handlers, inv, count, j)
    ensures var events := FailureEvents(handlers, inv, count, n);
      |events| == n && forall j: nat :: j < n ==> Fails(handlers, inv, count, j, events[j])
    decreases n
  {
    if n == 0 {
    } else {
      FailuresAre(handlers, inv, count, n - 1);
      assert Raises(handlers, inv, count, n - 1);
    }
  }

  /** Start, each failed attempt with its message, and end. */
  ghost predicate Attempted(handlers: Handlers, inv: Invocation, count: nat, events: seq<Event>, failed: nat, call: ToolCall, end: Event) {
    && |events| == failed + 2 && events[0] == ToolStarted(call) && events[failed + 1] == end
    && forall k :: 0 < k <= failed ==> Fails(handlers, inv, count, k - 1, events[k])
  }

  lemma StartAndEnd(handlers: Handlers, inv: Invocation, count: nat, failed: nat, call: ToolCall, end: Event)
    requires forall j: nat :: j < failed ==> Raises(handlers, inv, count, j)
    ensures Attempted(handlers, inv, count, [ToolStarted(call)] + (FailureEvents(handlers, inv, count, failed) + [end]), failed, call, end)
  {
    FailuresAre(handlers, inv, count, failed);
  }

  /** A returning attempt adds no event of its own. */
  lemma LastAddsNothing(handlers: Handlers, inv: Invocation, count: nat, n: nat)
    requires n > 0 && handlers(inv, count + n - 1).Returned?
    ensures FailureEvents(handlers, inv, count, n) == FailureEvents(handlers, inv, count, n - 1)
  {
  }

  /** The events of a run: its one event when no handler is called, else start, each failed attempt with its message, and end. */
  lemma EventsMeaning(tools: Registered, context: Context, handlers: Handlers, count: nat, call: ToolCall, asked: int)
    ensures var r, inv := RunResult(tools, context, handlers, count, call, asked), Invocation(call.name, call.arguments);
      var events := RunEvents(handlers, count, call, r);
      match r.state
      case Invalid => events == [ToolInvalid(call, r)]
      case Blocked => events == [ToolBlocked(call, r)]
      case Completed => r.attempts > 0 && Attempted(handlers, inv, count, events, r.attempts - 1, call, ToolCompleted(r))
      case _ => Attempted(handlers, inv, count, events, r.attempts, call, ToolFailed(r))
  {
    var r, inv := RunResult(tools, context, handlers, count, call, asked), Invocation(call.name, call.arguments);
    RunReports(tools, context, handlers, count, call, asked);
    if r.state == Completed {
      LastAddsNothing(handlers, inv, count, r.attempts);
      StartAndEnd(handlers, inv, count, r.attempts - 1, call, ToolCompleted(r));
    } else if r.state == Failed {
      assert Raises(handlers, inv, count, r.attempts - 1);
      StartAndEnd(handlers, inv, count, r.attempts, call, ToolFailed(r));
    }
  }
}
