# Verification of the agent runtime's deterministic engines

A Dafny model of the parts of the agent runtime that decide something: the plan
scheduler and executor, the tool runner, the human-gated workflow engine, the SQL
scanners, the golden-eval matcher, the provisioning controller, redaction, bounded
output capture, and ranked schema retrieval. Each loop and each object that changes
state is modelled as such and proved against a specification function; the laws are
lemmas about those functions.

One module per component:

| files | component |
|---|---|
| Graph, Planner, PlanOrder, PlanValidation | dependency graphs, Kahn levelling and the order in its groups, depth-first validation |
| Tools, ToolLaws, Executor, StepLaws, Verifier, PlanRuns | tool registry and runner, plan execution, verdicts, laws of steps and of whole runs |
| Wrappers, Sequences, Ordering, Sorting | options, repetitions and sets of sequences, text order, the stable sort and its laws |
| Reconcile, ReconcileLaws, ReconcileReport | multi-source reconciliation, what its verdict means, and what its report holds |
| Checkpoint, CheckpointLaws, Workflow, Gathering, WorkflowLaws | trusted checkpoints, the engine as a class, what a run gathers, safety over every run |
| SqlSplit, SqlMasks, SqlStrip, SqlStripLaws, SqlCallable | the character scanners, their laws, and how they work together |
| EvalMatcher, EvalMatching, EvalTransitivity, EvalReport | the greedy matcher, its declarative meaning, when it is reflexive and when it composes, what it reports |
| Redaction, RedactionMeaning, RedactionLaws | secret replacement and value redaction |
| Utf8, BoundedStream | UTF-8 (section 3 of RFC 3629), bounded capture and truncation |
| Provisioning, ProvisioningLaws, ProvisioningReport | account inspection, classification, convergence, what a run reports |
| SchemaContext, SchemaContextLaws, SchemaContextReport | ranking, selection, expansion, what is returned |

Connectors, tool handlers, criteria, callbacks, the file system, database sessions and
the digest are parameters: a law holds for every behaviour of them, unless it names a
condition. A workflow run is driven by an arbitrary sequence of starts, resumes and
restarts; run ids are fresh.

Where the code falls short of a simple reading of it, the model keeps the code and the
laws say exactly when the reading holds:

- With repeated step ids, validation reads only the last step of an id and the levelling
  reads all of them, so a plan can pass validation and get no results. They agree on all
  plans with given ids exactly when no id is repeated (`AgreeIffNoRepeats`), and a plan
  gets all its results exactly when its merged graph has no cycle (`OneResultPerStepIff`).
- A secret can survive redaction when it can overlap the marker: one contains the other,
  or an end of one is a beginning of the other. Exactly the other secrets are always
  hidden (`HiddenIffApart`); a password with inner brackets is one of those.
- A load is recorded before its checkpoint is removed, and deleting the file ignores
  errors, so a second load is possible, exactly when that recording raised or that
  deletion failed with a readable file (`SecondLoadIff`). A refused run can be loaded later
  in the same way (`RefusedThenLoadedIff`).
- Writing the checkpoint file can raise after the checkpoint is in memory, so a run
  reported as failed can still be approved and loaded (`ApprovalCompletesIff`).
- Forbidden keys make matching neither reflexive nor transitive: exactly when is in
  `CompareReflexiveIff` and `ComposesIff`.
- The masks do not know comments. The literal mask and the splitter agree at every position
  exactly when no comment opens outside a literal (`ScannersAgreeIff`). Masking strings and
  then stripping comments reads the text as the splitter does exactly when an even number
  of single quotes stands before all its code (`CallableIff`); a quote in a comment can
  hide the code after it (`QuoteInCommentHides`).
- An account whose status does not open on unlocking, such as an expired one, is granted
  everything and still reported incomplete (`Converges`).
- A malformed stream within the limit can be reported as too large (`FlaggedIff`).
- The built-in verifier never names an alternative tool, so that branch of the executor
  is not taken with it (`NoAlternativeIsTried`).

## Model

| member | source | states |
|---|---|---|
| Planner.PostInit | agent_runtime/planner.py:25-29 | Construction makes every high-risk step need approval, never drops a needed approval, fills the primary capability from the first required one, and changes nothing else |
| Planner.InitialDegrees | agent_runtime/planner.py:55-66 | The counting loops give each step its number of unfinished known dependencies and each step its dependents |
| Planner.ProcessGroup | agent_runtime/planner.py:67-79 | Finishing a group updates every in-degree and releases exactly the steps whose last dependency was in the group |
| Planner.NextIsLevel | agent_runtime/planner.py:67-79 | If a group is the set of steps of depth k, the next group is the set of steps of depth k+1 |
| Planner.TopologicalGroups | agent_runtime/planner.py:55-80 | The loop terminates on every plan, and its k-th group is exactly the k-th depth level of the dependency graph |
| Planner.GroupIsLongestChain | agent_runtime/planner.py:55-80 | A step is in group k exactly when its longest chain of known dependencies has k edges and no cycle is reachable from it, for every plan, also with repeated or unknown dependencies |
| Planner.EmittedOnce | agent_runtime/planner.py:55-80 | No step id is emitted twice |
| Planner.DroppedReachesCycle | agent_runtime/planner.py:67-80 | A step is left out of every group exactly when one of its transitive dependencies, or the step itself, lies on a cycle |
| Planner.LevellingDropsIffCyclic | agent_runtime/planner.py:67-80 | Some step is left out exactly when the graph has a cycle |
| Planner.DependenciesComeEarlier | agent_runtime/planner.py:67-80 | Every known dependency of a step is in an earlier group |
| PlanOrder.FirstGroupOrder | agent_runtime/planner.py:55-66 | In the first group a step stands before another exactly when its id appears first earlier in the plan |
| PlanOrder.WaitsForSome | agent_runtime/planner.py:67-79 | Every step of a later group waits last for one step of the group before, and names it for the last time at one place of the plan |
| PlanOrder.LaterGroupOrder | agent_runtime/planner.py:67-79 | In a later group a step stands before another exactly when the dependency it waits for last stands earlier in the group before, or is the same and is named for the last time earlier in the plan |
| Graph.LevelByDepth | agent_runtime/planner.py:67-80 | Longest-chain levels and the levelling by removed layers are the same notion |
| Graph.StableDepthMeansCycle | agent_runtime/planner.py:67-80 | When a round removes nothing, what is left is exactly what reaches a cycle |
| Graph.OrderedIsAcyclic | agent_runtime/planner.py:94-119 | A graph whose nodes were all finished after their successors has no cycle |
| PlanValidation.CycleSearch.Dfs | agent_runtime/planner.py:99-111 | The recursive search with its visited and in-stack sets reports true only for a real cycle, and otherwise finishes the node with its stack restored |
| PlanValidation.AnyCycle | agent_runtime/planner.py:94-119 | The search over all steps reports a cycle exactly when the graph has one |
| PlanValidation.Validate | agent_runtime/planner.py:82-119 | The errors are the unknown dependencies in order, and one cycle error exactly when the graph has a cycle |
| PlanValidation.UnknownMembers | agent_runtime/planner.py:83-92 | An unknown-dependency error is reported exactly for a step that names an id outside the plan |
| PlanValidation.ErrorsInOrder | agent_runtime/planner.py:83-92 | The unknown-dependency errors are one for each place of the plan that names an id outside it, in plan order |
| PlanValidation.CycleReportedIffStepDropped | agent_runtime/planner.py:55-119 | For distinct step ids, validation reports a cycle exactly when the levelling drops some step |
| PlanValidation.ReportedCycleDropsStep | agent_runtime/planner.py:55-119 | A reported cycle always means a dropped step, also with repeated ids |
| PlanValidation.AgreeIffNoRepeats | agent_runtime/planner.py:55-119 | For any list of step ids: search and levelling agree on a cycle in every plan with these ids exactly when no id is repeated |
| PlanValidation.AcceptedIsAcyclicIffNoRepeats | agent_runtime/planner.py:55-119 | For any list of step ids: every plan with these ids that validation accepts is levelled completely exactly when no id is repeated |
| PlanValidation.RepeatedIdsCanDisagree | agent_runtime/planner.py:55-119 | A two-step plan with a repeated id that validation accepts, with no error at all, and the levelling drops |
| PlanValidation.AcyclicPlanIsLevelled | agent_runtime/planner.py:55-80 | When the merged graph has no cycle, the step kept for every id stands in some group, whatever the ids; with distinct ids that is every step as written |
| Tools.ToolRegistry.Register | agent_runtime/tools.py:133-138 | A tool is added exactly when its name is well formed, for any notion of alphanumeric, and new; otherwise the registry is unchanged |
| ToolLaws.ValidNameIff | agent_runtime/tools.py:133-138 | A name is valid exactly when something alphanumeric and nothing else is left of it without its hyphens and underscores |
| Tools.LookupStable | agent_runtime/tools.py:140-144 | Later registrations never change what a registered name means |
| Tools.ValidateCall | agent_runtime/tools.py:152-170 | The errors of a call, in the order the checks make them |
| Tools.ValidCallFits | agent_runtime/tools.py:152-170 | A call has no validation error exactly when the tool exists and the arguments fit its parameters in names, presence and types |
| ToolLaws.TypesOf | agent_runtime/tools.py:458-471 | The types each kind of value has: integers are numbers, booleans are not |
| ToolLaws.FoundIsLast | agent_runtime/tools.py:152-170 | The declaration a name is checked against is the last one of that name |
| ToolLaws.ErrorsMeaning | agent_runtime/tools.py:152-170 | The errors of a call are one for each missing required argument in declaration order, then one for each undeclared or wrongly typed argument in call order |
| Tools.ToolRunner.RetryLoop | agent_runtime/tools.py:361-402 | The retry loop stops at the first return or at the limit, calls the handler once per reported attempt and emits one event per failure |
| Tools.ToolRunner.Run | agent_runtime/tools.py:337-403 | A run returns what the specification says, calls the handler exactly `attempts` times, emits exactly the specified events, and keeps the invariant that every handler call ever made was of an authorised tool |
| Tools.RunResultMeaning | agent_runtime/tools.py:337-421 | Attempts are zero exactly when invalid or blocked, never exceed max(1, max_attempts), and are positive exactly for a fitting call of a tool that policy allows |
| Tools.RunResultOutcome | agent_runtime/tools.py:337-421 | A run completes exactly when the call fits, policy allows the tool and some attempt within the limit returns; it then ends with the first that does, and a failed run made every allowed attempt |
| ToolLaws.RunMeaning | agent_runtime/tools.py:337-421 | A run reports exactly this, for any registry, policy and handler: an invalid call with its errors, a refusal with its reason, the output of the first handler call that returns, or the message of the last of the max(1, max_attempts) calls allowed |
| ToolLaws.EventsMeaning | agent_runtime/tools.py:337-403 | The events of a run: its one event when no handler is called, else the start, each failed attempt with its number and message, and the end |
| Executor.FindToolForCapability | agent_runtime/executor.py:255-262 | The first registered tool offering the capability: no tool before it offers it; none exactly when no tool does |
| Executor.RunStep | agent_runtime/executor.py:115-241 | One step: approval, lookup, tool run, verification and reaction give the specified result, abort flag and handler calls |
| Executor.RunWithTool | agent_runtime/executor.py:159-241 | The reaction to the first verdict |
| Executor.RunAlternative | agent_runtime/executor.py:186-222 | The alternative tool is run once and its verdict is recorded but not acted on |
| Executor.RunGroup | agent_runtime/executor.py:97-250 | The steps of a level run one after another from the state the earlier levels left |
| Executor.RunPlan | agent_runtime/executor.py:83-252 | A whole run equals the fold of the steps in group order: same results in plan order, same handler calls, same trace of tool runs and recorded results |
| StepLaws.StepMeaning | agent_runtime/executor.py:97-241 | Every step of a plan run that no earlier step aborted, on the plan, registry, context, handlers, callback and verifier alone: which tool runs, with which call and how many handler calls, which alternative follows, what is recorded, skipped or aborted, and what the trace notes |
| PlanRuns.DependenciesHaveResults | agent_runtime/executor.py:97-241 | No tool runs for a step before each of its known dependencies has a recorded result, for every plan and every tool, verifier and approval behaviour |
| PlanRuns.AbortEndsRun | agent_runtime/executor.py:97-110 | Once a first verdict says abort, no tool runs again and the rest of the trace is fixed |
| PlanRuns.AbortHasCause | agent_runtime/executor.py:97-241 | A run counts as aborted only because some step of it had a first verdict that said so, and the abort names that step |
| PlanRuns.LaterStepsAborted | agent_runtime/executor.py:97-110 | In a run of any plan, after an abort every later step in group order has the result that names the aborting step |
| PlanRuns.OneResultPerStepIff | agent_runtime/executor.py:97-252 | A plan with any ids, known or unknown dependencies and any tool behaviour yields as many results as steps exactly when its merged dependency graph has no cycle, and they are then in plan order |
| PlanRuns.AcceptedPlanHasAllResults | agent_runtime/executor.py:83-252 | A plan that validation accepts and whose ids are distinct yields a result for every step |
| PlanRuns.RepeatedIdsLoseResults | agent_runtime/executor.py:97-252 | An accepted plan with a repeated id for which the run returns no result |
| PlanRuns.GatedStepWasApproved | agent_runtime/executor.py:115-146 | A tool runs for a high-risk or approval-requiring step only when a callback is present and approved that very step |
| Verifier.Verify | agent_runtime/verifier.py:32-102 | The verdict on a result, branch by branch |
| Verifier.SuccessMeans | agent_runtime/verifier.py:32-102 | Success means completed and no criterion evaluated to false |
| Verifier.AbortIff | agent_runtime/verifier.py:52-102 | A verdict asks to abort exactly for a blocked or invalid call, or for a failed criterion of a step whose fallback is abort |
| Verifier.FallbackIsNamed | agent_runtime/verifier.py:47-50 | The fallback names the action it stands for, and any other text means retry |
| Verifier.VerdictMeaning | agent_runtime/verifier.py:32-102 | The issues of a verdict are the failed criteria, each once in order, or the one issue of the state; success, and the action taken otherwise |
| Verifier.UnapprovedToolEndsRun | agent_runtime/verifier.py:32-60 | In a plan run with this verifier, the first tool the context does not approve ends the run: no handler call from there on, and every later step recorded as aborted by that step |
| EvalMatcher.CompareExpected | agent_runtime/eval_runner.py:198-218 | The mismatches of a value against an expectation, in order |
| EvalMatcher.CompareAbsentKeys | agent_runtime/eval_runner.py:221-228 | One mismatch for each forbidden key that is present |
| EvalMatcher.CompareListSubset | agent_runtime/eval_runner.py:231-252 | The greedy list scan |
| EvalMatcher.SearchFrom | agent_runtime/eval_runner.py:236-246 | The first position from the start of the search whose item matches recursively |
| EvalMatcher.CompareTraceEventSubsets | agent_runtime/eval_runner.py:255-281 | The greedy scan over trace events, which must be objects |
| EvalMatching.CompareIffMatches | agent_runtime/eval_runner.py:198-281 | No mismatch exactly when the actual value matches, defined without any scan by order-preserving embeddings, at every nesting depth |
| EvalMatching.ScanIff | agent_runtime/eval_runner.py:231-281 | The greedy scan finds no mismatch exactly when an order-preserving injection of the expected items into the actual ones exists whose pairs all match |
| EvalReport.ScanIsGreedy | agent_runtime/eval_runner.py:231-281 | The scan gives each expected item the first free actual item that matches it, and reports exactly those that get none |
| EvalReport.CompareReport | agent_runtime/eval_runner.py:198-281 | The mismatches reported are exactly those that are due at some position of the expectation, each once and in the expectation's order |
| EvalMatching.CompareReflexiveIff | agent_runtime/eval_runner.py:198-281 | A value matches itself exactly when no object in it both has a key and forbids it, every forbidden-key value is a list of texts, and the trace events at its root, if any, are a list of objects |
| EvalTransitivity.CompareMatchableIff | agent_runtime/eval_runner.py:198-281 | Some value matches an expectation exactly when no object in it asks for a key it forbids, every forbidden-key value is a list of texts, and root trace events are a list of objects |
| EvalTransitivity.ComposesIff | agent_runtime/eval_runner.py:198-281 | Whatever matches a value that matches the expectation matches the expectation, for all such values, exactly when nothing can match the expectation or every forbidden-key list in it is empty |
| EvalTransitivity.CompareTransitive | agent_runtime/eval_runner.py:198-281 | Comparisons compose when the last expectation forbids nothing |
| EvalTransitivity.AbsentBreaksTransitivity | agent_runtime/eval_runner.py:221-228 | The smallest failing case: three concrete values whose comparisons do not compose |
| EvalMatching.RenderedTracePathIsUnique | agent_runtime/eval_runner.py:206-212 | Only the path of the trace-event list renders to the text the comparison looks for |
| SqlSplit.SplitSqlStatements | agent_runtime/oracle_adw.py:1197-1239 | The scanner computes the pieces between top-level semicolons, as a simple automaton defines them |
| SqlSplit.JoinPieces | agent_runtime/oracle_adw.py:1197-1239 | Joining the pieces with semicolons gives the text back |
| SqlSplit.ResplitYieldsPiece | agent_runtime/oracle_adw.py:1197-1239 | Splitting a piece again yields just that piece, and every piece but the last ends at top level |
| SqlSplit.SplitIsUnique | agent_runtime/oracle_adw.py:1197-1239 | The pieces are the only ones with those properties |
| SqlSplit.PieceCount | agent_runtime/oracle_adw.py:1197-1239 | There is one more piece than there are top-level semicolons |
| SqlMasks.MaskLiteralsKeepComments | agent_runtime/oracle_adw.py:1249-1277 | The in-place scanner computes the position-wise mask and stays in bounds |
| SqlMasks.MaskStringLiteralsKeepIdentifiers | agent_runtime/oracle_adw.py:1280-1301 | The in-place scanner blanks exactly the single-quoted literals |
| SqlMasks.MaskChangesLiteralsOnly | agent_runtime/oracle_adw.py:1249-1277 | The length is kept; a position is blanked exactly when it belongs to a literal or its quotes |
| SqlMasks.MaskIdempotent | agent_runtime/oracle_adw.py:1249-1277 | No quote is left and masking again changes nothing |
| SqlMasks.MaskStringsIdempotent | agent_runtime/oracle_adw.py:1280-1301 | No single quote is left and masking again changes nothing |
| SqlMasks.ScannersAgreeIff | agent_runtime/oracle_adw.py:1197-1277 | For every text: mask and splitter agree at every position on whether it lies outside a literal exactly when no comment opens outside a literal |
| SqlMasks.MaskCountsStatements | agent_runtime/oracle_adw.py:1197-1277 | Where they agree, the masked text has one semicolon fewer than the splitter has pieces |
| SqlMasks.CommentBreaksCount | agent_runtime/oracle_adw.py:1197-1277 | The smallest text with a comment and its two different counts |
| SqlStrip.StripSqlComments | agent_runtime/oracle_adw.py:1304-1344 | The scanner computes the stripped text |
| SqlStrip.SegmentsAreText | agent_runtime/oracle_adw.py:1304-1344 | Text, identifiers and comments put together are the text itself |
| SqlStrip.StripIsClean | agent_runtime/oracle_adw.py:1304-1344 | Stripping replaces each comment by its blanks and copies everything else |
| SqlStripLaws.SegmentsOfStripped | agent_runtime/oracle_adw.py:1304-1344 | The stripped text is read as the same segments with the comments replaced by blanks |
| SqlStripLaws.StripIdempotent | agent_runtime/oracle_adw.py:1304-1344 | Stripping is idempotent |
| SqlStripLaws.StrippedTextHasNoComments | agent_runtime/oracle_adw.py:1304-1344 | No comment is left, and every double-quoted identifier, escapes included, is copied unchanged and in order |
| SqlStripLaws.NoOpenerPointwise | agent_runtime/oracle_adw.py:1304-1344 | Opener-free, by reading once, means that no position outside double quotes starts an opener |
| SqlStripLaws.StrippedTextHasNoOpener | agent_runtime/oracle_adw.py:1304-1344 | The stripped text has no comment opener outside double quotes |
| SqlStripLaws.StripIsIdentityIff | agent_runtime/oracle_adw.py:1304-1344 | Stripping changes nothing exactly when the text has no opener outside double quotes |
| SqlCallable.EmitIsVisible | agent_runtime/oracle_adw.py:1304-1344 | On texts without single quotes the stripper is the one reading of the splitter's automaton that shows code and blanks comments |
| SqlCallable.CallableIff | agent_runtime/oracle_adw.py:801 | Masking strings and then stripping comments shows a text and all its beginnings as that one reading does exactly when an even number of single quotes stands before every position outside strings and comments |
| SqlCallable.CodeIsShown | agent_runtime/oracle_adw.py:801 | That reading keeps every code character, between what it shows of the text before and of the text after |
| SqlCallable.QuoteInCommentHides | agent_runtime/oracle_adw.py:801 | After a line comment holding one quote, all following text without quotes is missing from the result, for every such text |
| Redaction.RedactKnownSecretValues | agent_runtime/redaction.py:66-72 | The loop replaces the secrets of the environment one after another |
| RedactionMeaning.ReplaceMeaning | agent_runtime/redaction.py:66-72 | Replacing a secret puts the marker between the pieces that the text is cut into at its leftmost occurrences, and changes nothing else |
| RedactionMeaning.UpperMeaning | agent_runtime/redaction.py:53-63 | Keys are compared with their small letters capitalised and everything else as it is |
| RedactionMeaning.SensitiveIff | agent_runtime/redaction.py:53-63 | A key is sensitive exactly when it contains one of four words anywhere, or one of six as a whole word between underscores |
| RedactionMeaning.SecretsMeaning | agent_runtime/redaction.py:66-72 | The secrets are the values of four or more characters under sensitive names, in the order of the environment |
| RedactionMeaning.RedactMeaning | agent_runtime/redaction.py:32-72 | What becomes of every part of a value: texts with all secrets replaced in turn, values under sensitive keys hidden except booleans and absent ones, all else unchanged in its place |
| RedactionLaws.NoSecretSurvives | agent_runtime/redaction.py:66-72 | A secret that cannot overlap the marker does not occur in the redacted text, whatever other secrets are listed and in whatever order they are replaced |
| RedactionLaws.HiddenIffApart | agent_runtime/redaction.py:66-72 | For every secret, with or without brackets, and any minimum length: it is hidden in every text under every list that holds it exactly when it cannot overlap the marker |
| RedactionLaws.RedactAllIdempotent | agent_runtime/redaction.py:66-72 | When no listed secret can overlap the marker, redacting twice is redacting once |
| RedactionLaws.StableIffApart | agent_runtime/redaction.py:66-72 | Among secrets that cannot overlap the marker, one more secret keeps redaction idempotent for every text and list exactly when it cannot overlap the marker either, or is the marker |
| RedactionLaws.ClearIsApart | agent_runtime/redaction.py:66-72 | A secret without brackets cannot overlap the marker exactly when it is not part of the marker word |
| RedactionLaws.HidesIff | agent_runtime/redaction.py:66-72 | For one given list of bracket-free secrets, every text is freed of all of them exactly when none is part of the marker word |
| RedactionLaws.IdempotentIff | agent_runtime/redaction.py:66-72 | For one given list of bracket-free secrets, the same condition decides idempotence |
| RedactionLaws.BracketSecretCanSurvive | agent_runtime/redaction.py:66-72 | A secret with a bracket can survive: a concrete text and list |
| RedactionLaws.RedactedValueIsLeakless | agent_runtime/redaction.py:32-72 | When no secret of the environment can overlap the marker, none occurs in any string leaf of a redacted value |
| RedactionLaws.RedactIdempotent | agent_runtime/redaction.py:32-72 | Under the same condition redacting a value twice is redacting it once |
| RedactionLaws.RedactKeepsShape | agent_runtime/redaction.py:32-50 | Keys, list lengths, and leaves that are neither strings nor under a sensitive key are kept |
| Reconcile.GroupRecords | agent_runtime/workflow.py:608-617 | Records are grouped by id with their observations in order, and records without an id are set aside |
| Reconcile.MergeFieldsLoop | agent_runtime/workflow.py:636-666 | Each field becomes its only non-empty value, nothing, or a conflict with its sorted evidence |
| Reconcile.CheckRules | agent_runtime/workflow.py:624-725 | The failed rules of one id, in order |
| Reconcile.Run | agent_runtime/workflow.py:598-748 | The whole reconciliation |
| ReconcileReport.IdMeaning | agent_runtime/workflow.py:608-616 | A record has an id unless it is absent, empty or false |
| ReconcileReport.MissingValues | agent_runtime/workflow.py:976-977 | A value is missing exactly when it is absent or the empty text: false is not |
| ReconcileReport.FieldsAreRead | agent_runtime/workflow.py:615-619 | The source tag is the field "_sources", and a field that is not there reads as absent |
| ReconcileReport.RegistrationMarks | agent_runtime/workflow.py:710-714 | A registration mark is true, or the text "true" in any case |
| ReconcileReport.WrittenValues | agent_runtime/workflow.py:654-660 | Evidence is ordered by source and then by the value as it is written |
| ReconcileLaws.ResolvedIff | agent_runtime/workflow.py:598-748 | Resolved exactly when no record lacks an id and every id is in A and B, has agreeing observations, its required fields, the requested period, only eligible statuses and no registration mark, all stated on the sources directly |
| ReconcileLaws.FailedRulesMeaning | agent_runtime/workflow.py:619-738 | A rule is listed as failed, with this id and this evidence, exactly when it fails on the sources: which sources hold the id, which observations disagree, what is never seen filled, which statuses and marks are seen, which place lacks an id |
| ReconcileLaws.ConflictIff | agent_runtime/workflow.py:636-666 | A conflict is reported for an id and a field exactly when two non-empty observations differ, with all the non-empty observations as evidence |
| ReconcileReport.EvidenceMeaning | agent_runtime/workflow.py:636-666 | The evidence of a conflict is the stable sorting, by source and text, of the non-empty values that stand at the places of the sources: every place once, in order |
| ReconcileReport.ConflictsMeaning | agent_runtime/workflow.py:624-666 | The reported conflicts, each once and ordered by id and field, are exactly the ids and merged fields whose non-empty observations differ |
| ReconcileReport.RecordsMeaning | agent_runtime/workflow.py:624-730 | Resolved or not: one record per known id, holding a field exactly when it is seen with a single non-empty value, and always the id |
| ReconcileReport.MissingRequiredMeaning | agent_runtime/workflow.py:682-690 | The missing ids, each once and in order, are exactly the known ids for which some required field is not seen with a single non-empty value |
| ReconcileReport.MalformedMeaning | agent_runtime/workflow.py:608-613 | The malformed records, each once and by source and place, are exactly the records without an id |
| ReconcileReport.CountsMeaning | agent_runtime/workflow.py:606 | Every source is counted, with all its records |
| ReconcileReport.FailedRulesInOrder | agent_runtime/workflow.py:619-738 | The failed rules stand each once, by id, rule and field, those of records without an id last, by place |
| ReconcileLaws.ResolvedRecords | agent_runtime/workflow.py:636-730 | A resolved reconciliation has one record per id, and each field is present exactly when something non-empty was seen for it, with that one value |
| ReconcileLaws.PermutationInvariant | agent_runtime/workflow.py:598-748 | Reordering records inside the sources keeps the verdict, and changes nothing at all in a resolved reconciliation |
| Checkpoint.SortRecordsMeaning | agent_runtime/workflow.py:879 | The payload sort gives the same records in key order |
| Checkpoint.SortIsCanonical | agent_runtime/workflow.py:879 | With distinct ids the sorted records do not depend on the incoming order |
| Checkpoint.ValidatedIsBound | agent_runtime/workflow.py:838-894 | Whatever the store holds, a checkpoint validated for the hash of a payload has that payload's run, template, period, reconciliation and sorted records, given an injective hash |
| CheckpointLaws.ValidateMeaning | agent_runtime/workflow.py:838-868 | A decision is accepted when all eight checks pass, and otherwise refused with the message of the first that fails |
| CheckpointLaws.TrustedMeaning | agent_runtime/workflow.py:808-835 | A checkpoint vouches for the hash of its whole payload, the identity made from it, its run, workflow, template and period, and the ids of its records in their order |
| CheckpointLaws.IdentityIff | agent_runtime/workflow.py:822-826 | Identities distinguish template, version, run and the first sixteen characters of the hash, and nothing else, when template and run ids hold no colon |
| CheckpointLaws.DecimalMeaning | agent_runtime/workflow.py:822-826 | A version is written in decimal digits that stand for it, without a leading zero |
| CheckpointLaws.KeyMeaning | agent_runtime/workflow.py:879 | Records are ordered by their ids as texts, one without an id first |
| Workflow.GatherSources | agent_runtime/workflow.py:218-262 | A and B are looked up, and C is asked only when a required field is missing |
| Workflow.WorkflowEngine.PersistCheckpoint | agent_runtime/workflow.py:169-178 | The file is written from the store, or left in one of the ways a failing write can leave it |
| Workflow.WorkflowEngine.OpenGate | agent_runtime/workflow.py:266-345 | The run pauses, closes, or stores its checkpoint and asks for approval |
| Workflow.WorkflowEngine.RunPatentAssetReplacement | agent_runtime/workflow.py:199-375 | The new engine state and the reported state of a run |
| Workflow.WorkflowEngine.ResumeWithHumanDecision | agent_runtime/workflow.py:377-529 | The new engine state and the outcome of a decision |
| WorkflowLaws.EveryRunIsSafe | agent_runtime/workflow.py:199-529 | Over every sequence of starts, resumes and restarts, with any connector, disk and deletion behaviour, the store and the event log stay sound |
| WorkflowLaws.LoadsAreAuthorized | agent_runtime/workflow.py:377-529 | Every load follows the run's own checkpoint, made from what the run's own start gathered and satisfying every rule; its decision approved the load and passed validation; it loads every record with an approved id as often as the checkpoint holds it and no other, one for each approved id, in increasing order |
| WorkflowLaws.RefusalMeaning | agent_runtime/workflow.py:419-455 | A decision is refused by the validation of the checkpoint, or else exactly when some approved id is in no stored record |
| WorkflowLaws.NothingFound | agent_runtime/workflow.py:386-402 | A resume that finds no checkpoint is blocked and changes nothing |
| WorkflowLaws.ResumeWithoutLoad | agent_runtime/workflow.py:377-455 | A resume that loads nothing: what it reports, logs, forgets and keeps, and that other runs are untouched |
| WorkflowLaws.ResumeWithLoad | agent_runtime/workflow.py:436-529 | A resume that loads calls the load once, with every approved record in full and no other, and keeps or removes the checkpoint by how the load and its recording go |
| WorkflowLaws.CheckpointsComeFromStarts | agent_runtime/workflow.py:199-345 | Every checkpoint of every run was made from the sources that the run's own start command gathered |
| WorkflowLaws.LoadsAtMostOnce | agent_runtime/workflow.py:192-197 | A run id is loaded successfully at most once, plus once for each successful load that could not be recorded or whose file could not be deleted |
| WorkflowLaws.SecondLoadIff | agent_runtime/workflow.py:180-197 | After a load, the same approval loads again exactly when recording the load raised before the checkpoint was removed, or deleting its file failed and the file is readable; with a restart in between, exactly when one of these failed and the file is readable |
| WorkflowLaws.RefusedThenLoadedIff | agent_runtime/workflow.py:403-418 | A refused run is completed by a later approving decision, in the same process or a new one, exactly when deleting its file failed and the file is readable |
| WorkflowLaws.NoLoadAfterDeletion | agent_runtime/workflow.py:192-197 | After its checkpoint file is deleted, by a load or a refusal, a run is never loaded again |
| WorkflowLaws.RetriesKeep | agent_runtime/workflow.py:377-510 | Refused decisions, failed loads and raising writes, in any number, keep every checkpoint |
| WorkflowLaws.ApprovalCompletesIff | agent_runtime/workflow.py:266-529 | A run that passed the gate, whatever it reported and after any unfinished tries, is completed by a decision exactly when it approves the load, echoes identity and hash and names only ids carried by the gathered records; in a new process exactly when moreover the file was written |
| WorkflowLaws.RestartKeepsIff | agent_runtime/workflow.py:180-190 | A restart loses a checkpoint exactly when its file is not readable |
| Gathering.GatherMeaning | agent_runtime/workflow.py:218-262 | On the connectors' answers: A and B are the two answers; C is asked exactly when some id of them lacks a required field, about the reconciled records of exactly those ids in order, and its answer is the third source; gathering fails exactly when a call that is made raises |
| WorkflowLaws.RunOutcome | agent_runtime/workflow.py:218-375 | Each reported state as a condition on the connectors' answers: failed when a call that is made raises, paused when a rule fails on what is gathered, closed when that holds no id, and a checkpoint is left exactly when every rule holds and some id is there |
| WorkflowLaws.RunReasons | agent_runtime/workflow.py:266-375 | The reason reported with each state of a run, and that only a run that asks for approval hands out its checkpoint |
| WorkflowLaws.RunLeaves | agent_runtime/workflow.py:266-345 | A run that passes the gate leaves the checkpoint of what it gathered, in memory, in its file as the write ends, in the log and in what it hands out, and touches no other run |
| WorkflowLaws.PayloadRecords | agent_runtime/workflow.py:871-889 | The hashed records are the reconciled ones in increasing order of their ids |
| WorkflowLaws.CheckpointIgnoresOrder | agent_runtime/workflow.py:808-889 | Reordering records inside the sources leaves the checkpoint as it is |
| WorkflowLaws.LoadIsBoundToHash | agent_runtime/workflow.py:377-529 | For any contents of memory and disk, a load whose decision carries the hash of a payload has that payload's run and period and of its records exactly those with an approved id, each as often |
| Provisioning.ProfilesAreConsistent | agent_runtime/cli.py:1926-1961 | No profile requires a role or privilege that it rejects as drift |
| Provisioning.ReadState | agent_runtime/cli.py:1767-1843 | The account state read off the inspection rows |
| Provisioning.MissingStatements | agent_runtime/cli.py:1426-1459 | The statements for everything missing, in order |
| Provisioning.Database.Execute | agent_runtime/cli.py:1468-1473 | Statements take effect one after another |
| Provisioning.Provision | agent_runtime/cli.py:1367-1495 | The account after a run and the reported result |
| ProvisioningLaws.NoDriftIff | agent_runtime/cli.py:1796-1819 | An inspection reports no drift exactly when the account has no rejected role or privilege and no retargeted synonym |
| ProvisioningLaws.CompliantIff | agent_runtime/cli.py:1820-1835 | An inspection finds the account compliant exactly when it is open and has everything the profile requires |
| ProvisioningReport.MissingMeaning | agent_runtime/cli.py:1767-1843 | An inspection sees the account's status and exactly what it lacks of what the profile requires |
| ProvisioningReport.DriftMeaning | agent_runtime/cli.py:1796-1819 | The drifts reported are exactly those of the account, each once: synonyms, roles and privileges, by name |
| ProvisioningReport.StatementsMeaning | agent_runtime/cli.py:1426-1459 | The statements are exactly those called for, each once: opening, privileges, roles, default role, tables and synonyms, by name |
| ProvisioningReport.RunMeaning | agent_runtime/cli.py:1367-1495 | For every account and every way the sessions end: the account afterwards, and the reported status, phase, actions and classification |
| ProvisioningReport.ReadyForProfile | agent_runtime/cli.py:1913-1966 | For every profile name and account: ready exactly when the account is open and holds the items this profile asks for, named one by one |
| ProvisioningReport.CleanForProfile | agent_runtime/cli.py:52-63 | For every profile name and account: no drift exactly when it has none of the roles, privileges and stray synonyms this profile rejects, named one by one |
| ProvisioningReport.AbsentUntilCreated | agent_runtime/cli.py:1434-1440 | Any list of statements leaves an account absent exactly when it was absent and is not created |
| ProvisioningLaws.StatementsEffect | agent_runtime/cli.py:1426-1459 | The computed statements open the account and add exactly what was missing |
| ProvisioningLaws.Converges | agent_runtime/cli.py:1367-1495 | From an account without drift, success is reported exactly when the account ends up ready, which is exactly when it is absent, open, or opened by unlocking; the classification follows |
| ProvisioningLaws.ProfilesConverge | agent_runtime/cli.py:1367-1495 | Every profile converges from an absent, open or locked account |
| ProvisioningLaws.SecondRunDoesNothing | agent_runtime/cli.py:1416-1422 | A second run is classified already compliant, applies nothing and changes nothing |
| ProvisioningLaws.RerunConverges | agent_runtime/cli.py:1367-1495 | However the first run is interrupted, a second complete run makes the account ready |
| ProvisioningLaws.DriftAppliesNothing | agent_runtime/cli.py:1408-1415 | A drifted account is rejected and left exactly as it is |
| ProvisioningLaws.NoStatementsIsUnreachable | agent_runtime/cli.py:1460-1466 | The branch for an empty statement list is never taken |
| ProvisioningLaws.NothingIsTakenAway | agent_runtime/cli.py:1426-1473 | However the sessions end, no grant is removed, no synonym is retargeted and nothing outside the profile is added |
| ProvisioningLaws.SuccessIsReal | agent_runtime/cli.py:1000-1019 | A reported success always means a ready account without drift |
| BoundedStream.BoundedProcessStream.ReadFrom | agent_runtime/sqlcl_runner.py:318-337 | For every chunking the buffer keeps the first max+1 bytes and stop is requested exactly when there are more than max |
| BoundedStream.Capture | agent_runtime/sqlcl_runner.py:307-343 | What is reported depends only on the bytes delivered, not on the chunks |
| BoundedStream.DeliveredMeaning | agent_runtime/sqlcl_runner.py:323-329 | Delivered are all bytes of the reads before the first that is empty or raises, in order, and nothing after it |
| BoundedStream.OverlongIsFlagged | agent_runtime/sqlcl_runner.py:461-469 | A stream longer than the limit is always reported as too large, after lossy decoding and re-encoding |
| BoundedStream.FlaggedIff | agent_runtime/sqlcl_runner.py:461-469 | It is reported exactly when its length, with each malformed part counted as three bytes, exceeds the limit |
| BoundedStream.WellFormedIsExact | agent_runtime/sqlcl_runner.py:461-469 | For well-formed streams the report is exact and the byte count true |
| BoundedStream.ShortStreamCanBeFlagged | agent_runtime/sqlcl_runner.py:461-469 | For every limit: some stream within the limit is reported as too large exactly when the limit is not zero |
| BoundedStream.ReportIsLongestFit | agent_runtime/sqlcl_runner.py:583-587 | The reported text is the longest prefix, in whole characters, of the redacted text that fits in the limit |
| Utf8.DecodeOfEncode | agent_runtime/sqlcl_runner.py:342-343 | Decoding what was encoded gives the text back |
| Utf8.ReencodedLength | agent_runtime/sqlcl_runner.py:342-343 | Decoding and encoding again adds exactly the bytes by which replacement characters exceed the malformed parts |
| Utf8.ReencodedIff | agent_runtime/sqlcl_runner.py:342-343 | Decoding and encoding again gives the bytes back exactly when they are well formed |
| Utf8.BoundTextIsLongestFit | agent_runtime/sqlcl_runner.py:583-587 | Cutting the encoding and dropping the broken tail gives the longest prefix of whole characters that fits |
| SchemaContext.SelectBest | agent_runtime/schema_context.py:265-269 | The selection loop |
| SchemaContext.ExpandRelationships | agent_runtime/schema_context.py:567-602 | The expansion loop |
| SchemaContext.BuildCompactSchemaContext | agent_runtime/schema_context.py:236-285 | Selected, rejected and considered tables and the clarification |
| SchemaContextLaws.SortIdsMeaning | agent_runtime/schema_context.py:247-252 | The sort gives the same ids, each once, in strictly ascending order of the key |
| SchemaContextLaws.OrderDoesNotMatter | agent_runtime/schema_context.py:247-252 | The result does not depend on the order of the tables in the metadata |
| SchemaContextLaws.SelectedAndRejectedPartition | agent_runtime/schema_context.py:254-285 | Selected and rejected tables partition all tables, without repetition, and the selection stays within the limit |
| SchemaContextLaws.SelectionMeaning | agent_runtime/schema_context.py:262-285 | The selection is the best scoring tables followed by the best ranked tables directly joined to one of those, as many as threshold, limit and bound allow |
| SchemaContextLaws.ClarificationIff | agent_runtime/schema_context.py:254-260 | No clarification is asked exactly when one table alone scores best and reaches the threshold, or there is neither table nor positive threshold |
| SchemaContextReport.RankMeaning | agent_runtime/schema_context.py:537-544 | Tables rank by score, then primary before others by the curated priority or else the metadata's, then by the number of relationships and curated joins, then by id |
| SchemaContextReport.JoinedIff | agent_runtime/schema_context.py:575-591 | A table is joined to another by a curated join or by a relationship of either to the other |
| SchemaContextReport.SelectionInOrder | agent_runtime/schema_context.py:262-285 | The selection lists the best tables and then exactly as many of their best joins as slice and room allow, each part in rank order |
| SchemaContextReport.ListsMeaning | agent_runtime/schema_context.py:247-285 | All tables are considered and those not selected are rejected, both lists in rank order |
| SchemaContextReport.ClarificationMeaning | agent_runtime/schema_context.py:547-564 | The reason for a clarification and its candidates: none for a weak match, the best scoring tables in rank order for an ambiguous one |

## Left out

- Keyword planning, intent tables, query templates, tacit-knowledge heuristics, self-evaluation, skills, hooks, budgets and review records: table lookups and counters with easy claims.
- The command line, JSON printing, frontend, live model adapters, subprocess and signal handling, and SQLcl itself: foreign calls; their outcomes are parameters.
- The pattern-based SQL policy checks: they rest on the regular-expression library.
- Events, audit records, traces, timestamps and latencies: only the tool runner's events are modelled, and for the workflow engine whether a write raises. Raising before the checkpoint is stored counts as a failed gathering, after its file is written as `WrittenThenRaised`; in a resume it is `RaisedBefore` or `RaisedAfterLoad`, and a write that raises around the target load counts as a failed load. Writes that raise after the last change of state are not told apart, nor is an exception inside the error handler of a run. The other components' writes are assumed not to raise.
- Criteria of the verifier: each is an arbitrary three-valued answer of the result.
- Handlers and callbacks are functions of their arguments and of the number of handler calls made, so a handler that changes the registry, or its arguments in place, is not modelled.
- Concurrent lookups of A and B: the two answers are taken as given, and a failure of either fails the run.
- Several engine processes over one run directory: a stale copy in another process's memory is not modelled.
- Records hold absent, boolean or text values; numbers, nested values and unhashable values are not modelled, nor a field that is itself named `_sources` beyond what the code does with it.
- Key comparison folds case for ASCII letters only, also in the test for the text "true".
- JSON numbers of the matcher are reals, so NaN and rounding are not modelled.
- Redact: the environment is a sequence of name-value pairs fixed for the call.
- Checkpoint.TrustedOf: the digest is a function of the payload; injectivity is assumed only where a law says so.
- Workflow.Approved: a stored record without a patent id counts as not approved, where the code raises; no checkpoint the engine makes has such a record.
- Workflow.Begin: template loading and its checks, the review packet and the step list are not part of the state.
- Provisioning.Inspected: values read back from the database are taken as upper case, as the dictionary views hold them; rows are sets, and the parsing of the session output is not modelled.
- Provisioning.Apply: the account's default roles are not part of its state, since no inspection reads them; that `DefaultRoleAll` is applied exactly when the role is missing is proved.
- Provisioning.Provisioned: the account name and password checks, and the text of the statements, are not modelled; an interrupted session executes some prefix of its statements.
- BoundedStream.BuildResult: the redaction of process text is an arbitrary function; a negative limit is not modelled.
- SchemaContext.BuildCompactSchemaContext: the score is an arbitrary function of the table id; reasons, sample values, glossary matches and the per-table rejection reason are not modelled.
