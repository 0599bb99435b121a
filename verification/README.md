# Mindscape: verified models of the protocols, scanners and batch scripts

This project models the parts of the Mindscape repository whose guarantees rest on their own logic, and proves
those guarantees in Dafny. `dafny verify dfyconfig.toml` checks everything.

| module | models |
|---|---|
| `Confirmation` | the gateway's confirmation tokens: an expiring, lazily swept map, proved to refine a specification that sees only the history of issues, attempts and counts |
| `ToolCalls` | the tool-call handler: any number of calls in flight, advancing between their awaits, in front of the same token store |
| `DeviceControl` | the device control channel: a reader thread, a bounded drop-oldest queue and the heartbeat loop, every queue operation a step of its own |
| `Preflight`, `AccountHomes` | the quota preflight search over a shared pool, and the account-home audit with its sort and first-wins dedup |
| `XttsService` | double-checked lazy loading of a model under one lock and synthesis under a second, by any number of threads, with loads that may fail |
| `CommentScanner`, `SlashComments`, `CommentRules` | the comment extractors: index jumps and look-ahead against plain character automata over the whole text; and the four rules, with exactly what their searches miss |
| `Base64UrlUint` | the Base64urlUInt form of RSA key parameters and the published key set |
| `WhipPublisher` | the publisher's reconnect loop with its growing delays, stable reset and deadline |
| `SchedulerPatch` | the UPDATE statements of the scheduler schema patch, over a whole table in one transaction |
| `TaskRows`, `TaskTrim`, `TaskPrune` | oldest-first batches and the batched trim and prune loops |
| `RouteConflicts` | path normalization and route conflict grouping |
| `IngressMetric` | reading one gauge with an exact decimal value out of a metrics text |
| `Texts`, `Counting`, `Wrappers` | shared helpers |

Loops and objects that change in place are methods and classes proved against specification functions; what the
repository promises is then proved of those functions. Concurrent code is a transition system whose runs are
arbitrary interleavings of single steps.

## What the proofs brought to light

Each entry names the lemma that states it; where the code falls short of its purpose, the lemma gives the exact condition.

- **Confirmation.** A lifetime of zero is not "expires at once" but the default of 300 seconds
  (`Confirmation.DefaultLifetimeExactlyWhen`). The handler's messages tell the caller to use `mindscape.confirm.request`,
  a name the handler rejects; only `mindscape_confirm_request` issues tokens (`ToolCalls.AdvertisedToolIsRejected`).
- **Accepted tokens.** A token the gate accepts is always spent, but it pays for an execution if and only if the tool's
  name leads to one (`ToolCalls.AcceptedTokenPaysExactlyWhenRouted`, `ToolCalls.GrantSpendsToken`). It is lost on every
  confirmation-requiring `mindscape_tool_*` call and on a `mindscape_run_*` name that does not parse
  (`ToolCalls.TokensLostOnRejectedNames`).
- **Preflight.** With an honest router and more probes than eligible runtimes, "available" means that enough scopes are
  usable exactly in the default mode or when there are too few (`Preflight.AvailabilityIsHonestExactlyWhen`): with
  `continue_after_success` the exhausted pool is reported as an error even past the target
  (`Preflight.ExhaustiveModeIsAlwaysBlocked`, and `Preflight.TargetMetYetBlocked` for a pool of one).
- **Scheduler patch.** Applying the patch early and again later equals applying it only later, except that a row that
  wakes in between loses its old enqueue time (`SchedulerPatch.EarlyPatchForgetsOnlyEnqueueTime`, an if and only if).
- **Prune.** The underscore in the default pattern `ig_%` is a wildcard, so the defaults match every pack id of at
  least three characters that starts with `ig` (`TaskPrune.DefaultPatternsMatchAnyThird`), not only those with a separator.
- **Trim.** The script's description promises to remove only duplicates of a workflow result; that holds exactly when
  there is no `conversation_state`, which the code also removes (`TaskTrim.TrimDropsExactly`). The argument parser accepts
  a batch size of zero, and exactly then the loop never ends (`TaskTrim.LoopsForeverExactlyAtZero`).
- **Comment rules.** The case-insensitivity flag is passed to `search` of a compiled pattern, where it is the start
  position 2. So two of the rules search case-sensitively and skip the first two characters; a violation goes unreported
  if and only if each of its occurrences starts there or differs in case (`CommentRules.MissedExactlyWhen`,
  `CommentRules.FirstTwoPositionsAreLost`). The comments "TODO: x" and "a todo" are both missed
  (`CommentRules.LeadingTodoIsMissed`, `CommentRules.LowerCaseTodoIsMissed`, `CommentScanner.TodoLineIsMissed`).
- **Key parameters.** Zero encodes to the empty text, where RFC 7518 asks for `AA`; RSA supplies positive integers only
  (`Base64UrlUint.UIntRoundTrip`).

## Model

| member | source | states |
|---|---|---|
| `Confirmation.ConfirmGuard.GenerateToken` | mcp-mindscape-gateway/src/confirm_guard.ts:44-65 | stores a token that carries the request's own workspace, tool and preview, created now and expiring 1000 ms per requested second later, or after five minutes; sweeps, and keeps the store a refinement of the history with that issue added |
| `Confirmation.ConfirmGuard.ValidateToken` | mcp-mindscape-gateway/src/confirm_guard.ts:70-118 | the verdict and its reason are those the history of earlier events dictates; only a grant or an expiry removes the token |
| `Confirmation.ConfirmGuard.CleanupExpiredTokens` | mcp-mindscape-gateway/src/confirm_guard.ts:151-159 | the deleting loop leaves exactly the tokens that have not passed their expiry |
| `Confirmation.ConfirmGuard.GetActiveTokenCount` | mcp-mindscape-gateway/src/confirm_guard.ts:164-167 | the count is issued minus redeemed minus lapsed tokens, and the store is swept |
| `Confirmation.TokenStore.constructor` | mcp-mindscape-gateway/src/confirm_guard.ts:34 | the module-level store starts empty, with an empty history |
| `Confirmation.ConfirmGuard.constructor` | mcp-mindscape-gateway/src/confirm_guard.ts:34-39 | a new service shares the one store with all services before it and leaves it unchanged |
| `Confirmation.DefaultLifetimeExactlyWhen` | mcp-mindscape-gateway/src/confirm_guard.ts:46-48 | a token lasts the default lifetime if and only if the requested one is missing, zero or the default |
| `Confirmation.MintKeepsRefinement` | mcp-mindscape-gateway/src/confirm_guard.ts:50-59 | adding a freshly named token keeps the store a refinement of the extended history |
| `Confirmation.SweepKeepsRefinement` | mcp-mindscape-gateway/src/confirm_guard.ts:151-159 | a sweep at any time not before the clock removes nothing the history could still grant |
| `Confirmation.CheckIsDictated` | mcp-mindscape-gateway/src/confirm_guard.ts:75-117 | a check on any refining store succeeds if and only if the history grants it, and each refusal's reason fits the history |
| `Confirmation.CheckKeepsRefinement` | mcp-mindscape-gateway/src/confirm_guard.ts:75-117 | the store after a check refines the history with that attempt added |
| `Confirmation.CheckRemovesExactly` | mcp-mindscape-gateway/src/confirm_guard.ts:84-112 | a check removes a token exactly when it has expired or is granted, and never another one |
| `Confirmation.CountKeepsRefinement` | mcp-mindscape-gateway/src/confirm_guard.ts:164-167 | the size after a sweep is the number of tokens the history still grants |
| `Confirmation.CleanupChangesNoAnswer` | mcp-mindscape-gateway/src/confirm_guard.ts:61-62 | over every run in time order, a service that cleans up and one that never does give the same verdicts and counts, "not found" and "expired" being one answer |
| `Confirmation.EveryRunIsConsistent` | mcp-mindscape-gateway/src/confirm_guard.ts:44-167 | over every run of generate, validate and count in time order with fresh identifiers, each verdict and count is what the events before it dictate |
| `Confirmation.IssuedTokenVerdict` | mcp-mindscape-gateway/src/confirm_guard.ts:44-118 | the round trip in terms of the request: after any operations in between, validating an issued token is granted if and only if it is for the requested workspace and tool, by the requested expiry and not after a grant; every other verdict is given exactly |
| `Confirmation.RedeemedAtMostOnce` | mcp-mindscape-gateway/src/confirm_guard.ts:111-112 | in a consistent history no token is granted twice |
| `Confirmation.RedemptionHasIssue` | mcp-mindscape-gateway/src/confirm_guard.ts:95-117 | every grant is preceded by the issue of that very token for the same workspace and tool, and comes by its expiry |
| `Confirmation.RefusalsConsumeNothing` | mcp-mindscape-gateway/src/confirm_guard.ts:77-109 | whichever refused validations and counts are taken out of a run, the store gives the same answers to all operations that remain |
| `Confirmation.ActiveCountBalances` | mcp-mindscape-gateway/src/confirm_guard.ts:164-167 | usable tokens are issued minus redeemed minus lapsed ones |
| `ToolCalls.AdvanceKeeps` | mcp-mindscape-gateway/src/tool_call_handler.ts:34-358 | every step of every call keeps the invariant that ties executions, calls, token store and history together |
| `ToolCalls.EveryRunKeepsInv` | mcp-mindscape-gateway/src/tool_call_handler.ts:34-358 | the invariant holds after every interleaving |
| `ToolCalls.PassGateKeeps` | mcp-mindscape-gateway/src/tool_call_handler.ts:76-109 | the confirmation gate, open or shut, keeps the invariant and lets a governed call through only right after a redemption |
| `ToolCalls.DispatchKeeps` | mcp-mindscape-gateway/src/tool_call_handler.ts:113-342 | each layer behind the gate, including the two confirm tools, keeps the invariant |
| `ToolCalls.ConfirmedExecutionsArePaid` | mcp-mindscape-gateway/src/tool_call_handler.ts:76-109 | over every interleaving there is an injection from executed confirmation-requiring calls to earlier confirm requests for the same workspace and tool name, even when calls share a token |
| `ToolCalls.GovernedExecutionsArePaid` | mcp-mindscape-gateway/src/tool_call_handler.ts:76-109 | over every interleaving, each execution that the policy itself calls governed and confirmation-requiring comes right after a granted attempt for its workspace and name, and exactly those inject into earlier confirm requests |
| `ToolCalls.GovernedCallWithoutToken` | mcp-mindscape-gateway/src/tool_call_handler.ts:76-93 | such a call without a token is asked to confirm and changes nothing else |
| `ToolCalls.OtherCallsNeedNoToken` | mcp-mindscape-gateway/src/tool_call_handler.ts:76-195 | any other call whose name leads to an execution starts it without spending a token |
| `ToolCalls.RefusedTokenStartsNothing` | mcp-mindscape-gateway/src/tool_call_handler.ts:95-108 | a refused token answers with its reason and starts nothing |
| `ToolCalls.ArrivalFollowsPolicy` | mcp-mindscape-gateway/src/tool_call_handler.ts:38-41 | an arriving call is denied at once if and only if the policy does not allow it |
| `ToolCalls.StepsAroundTheGate` | mcp-mindscape-gateway/src/tool_call_handler.ts:43-74 | a call with context is recorded under its resolved workspace before the gate; failures on the way answer the call and change nothing else |
| `ToolCalls.ExecutingNames` | mcp-mindscape-gateway/src/tool_call_handler.ts:113-236 | which names of the four prefixed families lead to an execution, if and only if |
| `ToolCalls.OtherExecutingNames` | mcp-mindscape-gateway/src/tool_call_handler.ts:241-342 | the four other executing names, and the one name that counts tokens |
| `ToolCalls.ConfirmRequestIssues` | mcp-mindscape-gateway/src/tool_call_handler.ts:241-250 | a confirm request issues a token for the requested tool and the requested or else the call's workspace, for five minutes |
| `ToolCalls.ConfirmFlowExecutes` | mcp-mindscape-gateway/src/tool_call_handler.ts:76-195 | over every interleaving, a token issued for a workspace and a governed tool lets a call of that tool in that workspace execute within five minutes unless it was accepted before |
| `ToolCalls.ExecutionsNeverOutnumberTokens` | mcp-mindscape-gateway/src/tool_call_handler.ts:76-109 | per workspace and tool, confirmed executions are at most as many as tokens issued |
| `ToolCalls.ExecutionsRespectPolicy` | mcp-mindscape-gateway/src/tool_call_handler.ts:38-41 | each call executes at most once and only if the policy allows it; no confirmation-requiring call executes as a primitive tool (lines 143-148) |
| `ToolCalls.GrantSpendsToken` | mcp-mindscape-gateway/src/tool_call_handler.ts:95-195 | a granted gate takes the token from the store in every case, adds one execution if and only if the name routes to one, and answers with an error if and only if the name is rejected |
| `ToolCalls.EveryRunAccounts` | mcp-mindscape-gateway/src/tool_call_handler.ts:76-195 | after every interleaving, each redemption for a tool whose name routes to an execution has paid for one |
| `ToolCalls.AcceptedTokenPaysExactlyWhenRouted` | mcp-mindscape-gateway/src/tool_call_handler.ts:95-195 | over every interleaving, an accepted token has an execution it paid for if and only if its tool's name routes to one |
| `ToolCalls.TokensLostOnRejectedNames` | mcp-mindscape-gateway/src/tool_call_handler.ts:143-175 | a `mindscape_tool_*` name that needs confirmation, and a `mindscape_run_*` name that does not parse, are rejected behind the gate |
| `ToolCalls.AdvertisedToolIsRejected` | mcp-mindscape-gateway/src/tool_call_handler.ts:83-88 | the tool the message advertises is rejected; the one name that issues tokens is another |
| `DeviceControl.AdvanceKeeps` | scripts/e2e/live_media_device_source_client.py:97-165 | every step of either thread keeps the channel, reader, counter and acknowledgement invariants |
| `DeviceControl.InvHolds` | scripts/e2e/live_media_device_source_client.py:97-165 | those invariants hold after every interleaving |
| `DeviceControl.QueueNeverOverflows` | scripts/e2e/live_media_device_source_client.py:133-143 | the second put never finds the queue full; the queue is the suffix of at most eight published events that are not yet settled; what the consumer saw is the published events that were not dropped, in order; nothing is unaccounted for |
| `DeviceControl.LossesTrailPublications` | scripts/e2e/live_media_device_source_client.py:86 | between publications, losses trail publications by at least the queue's capacity |
| `DeviceControl.HeartbeatsAreAccountedFor` | scripts/e2e/live_media_device_source_client.py:276-318 | at every loop head the sequence number is the last acknowledged one plus the consecutive time-outs, and acknowledgements plus time-outs; consecutive time-outs are below max(1, limit) |
| `DeviceControl.AcksAreGenuine` | scripts/e2e/live_media_device_source_client.py:115-125 | every counted acknowledgement was published with exactly that number and consumed; numbers and places grow strictly, so each frame counts at most once |
| `DeviceControl.LateAcksNeverCount` | scripts/e2e/live_media_device_source_client.py:283-298 | once a heartbeat has been acknowledged or has timed out, then however the run goes on, counted acknowledgements are only added, and only with larger numbers: a frame that answers it or an earlier one late never counts |
| `DeviceControl.MissLimitIsExact` | scripts/e2e/live_media_device_source_client.py:66-74 | a time-out ends the run if and only if it is the max(1, limit)-th consecutive miss |
| `DeviceControl.StepEndsExactlyWhen` | scripts/e2e/live_media_device_source_client.py:66-74 | a step ends the run with an outcome if and only if it causes just that outcome: a failure frame or time-out raises its own reason unless an acknowledgement is awaited and the reason starts with the acknowledgement time-out text; a session close counts exactly when it was asked for |
| `DeviceControl.StepReturnsToHeadExactlyWhen` | scripts/e2e/live_media_device_source_client.py:293-316 | the loop goes back to its head exactly by the awaited acknowledgement or by a miss below the limit |
| `DeviceControl.EveryEndHasItsCause` | scripts/e2e/live_media_device_source_client.py:97-125 | over every interleaving, a run that has ended was ended by a step that causes its outcome |
| `DeviceControl.ClosedMeansRequested` | scripts/e2e/live_media_device_source_client.py:319-324 | a run that ended closed requested the close first and then received it |
| `DeviceControl.ReaderPublishes` | scripts/e2e/live_media_device_source_client.py:133-165 | what each reader step does to the queue, with eight places, and that the reader returns after its failure report only |
| `Preflight.RunPreflight` | scripts/e2e/codex_pool_quota_preflight_runner.py:123-317 | the loop with its exclusion sets and early returns computes the search's outcome, and answers "blocked" without any attempt if the tool is incompatible |
| `Preflight.AvailableMeansTarget` | scripts/e2e/codex_pool_quota_preflight_runner.py:255-303 | whatever the router answers, counted scopes are distinct, attempts only grow and stay within the budget, and "available" means the target was met |
| `Preflight.TriedStaysOnTrack` | scripts/e2e/codex_pool_quota_preflight_runner.py:226-298 | each attempt takes an eligible runtime not tried before, so the unexplored pool loses exactly that one |
| `Preflight.MoveIsGood` | scripts/e2e/codex_pool_quota_preflight_runner.py:156-298 | one turn either stops with an outcome as promised or goes on one attempt further, still below the target in default mode |
| `Preflight.SearchIsGood` | scripts/e2e/codex_pool_quota_preflight_runner.py:155-317 | every outcome from any state on track: distinct tried runtimes, distinct usable scopes, complete when the pool or the eligible runtimes are exhausted |
| `Preflight.AvailableExactlyWhenEnoughScopes` | scripts/e2e/codex_pool_quota_preflight_runner.py:155-317 | default mode with a faithful router and as many probes as eligible runtimes: "available" if and only if the distinct usable scopes reach the target; no runtime tried twice, no scope counted twice |
| `Preflight.ExhaustiveModeIsAlwaysBlocked` | scripts/e2e/codex_pool_quota_preflight_runner.py:189-206 | with `continue_after_success` and more probes than eligible runtimes, every usable scope is found and the answer is "blocked" |
| `Preflight.AvailabilityIsHonestExactlyWhen` | scripts/e2e/codex_pool_quota_preflight_runner.py:189-206 | for both modes: "available" agrees with "enough usable scopes" if and only if the mode is the default or the scopes are too few |
| `Preflight.TargetMetYetBlocked` | scripts/e2e/codex_pool_quota_preflight_runner.py:189-206 | a pool of one healthy runtime, target one: exhaustive mode counts the scope and answers "blocked" |
| `Preflight.UsableScopesAre` | scripts/e2e/codex_pool_quota_preflight_runner.py:127-131 | which scopes count, in terms of the caller's exclusions, the required email, the probe and the stored scope |
| `Preflight.ReportsAreTruthful` | scripts/e2e/codex_pool_quota_preflight_runner.py:167-299 | each reported attempt has its number and the status of its runtime, none was excluded by the caller, and the listed successes and scopes are those of the attempts |
| `Preflight.SelectedIsTheLast` | scripts/e2e/codex_pool_quota_preflight_runner.py:266-287 | a runtime is named as selected exactly when the default mode is available, and it is the last attempt's |
| `AccountHomes.SortSorts` | scripts/e2e/codex_pool_quota_preflight_runtime.py:188-198 | the sort orders by email, newest authentication, runtime id, and permutes |
| `AccountHomes.FirstsAreLeast` | scripts/e2e/codex_pool_quota_preflight_runtime.py:199-203 | first-wins over a sorted list keeps one least bundle for each scope, all scopes and the order |
| `AccountHomes.DirectAccountHomeBundles` | scripts/e2e/codex_pool_quota_preflight_runtime.py:108-203 | the collecting loop, the sort and the `setdefault` loop compute first-of-each of the sorted collection |
| `AccountHomes.DedupKeepsTheLeast` | scripts/e2e/codex_pool_quota_preflight_runtime.py:139-203 | exactly one bundle per quota scope survives, a least one, and every least one agrees with a survivor on scope and runtime id |
| `AccountHomes.CollectedAre` | scripts/e2e/codex_pool_quota_preflight_runtime.py:108-187 | the bundles are those of the pool's account homes with the required email; their scope is the account, else the stored scope, else the runtime |
| `AccountHomes.RepresentativeIs` | scripts/e2e/codex_pool_quota_preflight_runtime.py:188-203 | the kept home of a scope has the earliest email, or the same and the newest authentication, or the same and the first runtime id |
| `AccountHomes.AuditedAreTheFirst` | scripts/e2e/codex_pool_quota_preflight_runner.py:53 | the audited homes are the first ones, as many as there are probes and at least one |
| `AccountHomes.ProbeEach` | scripts/e2e/codex_pool_quota_preflight_runner.py:53-100 | successful runtimes and successful scopes are equally many, and the scopes are those of the healthy bundles |
| `AccountHomes.RunAudit` | scripts/e2e/codex_pool_quota_preflight_runner.py:25-120 | the audit is available if and only if enough audited scopes answer through their representative |
| `XttsService.AdvanceKeeps` | xtts-service/main.py:44-80 | every step keeps the lock and program-point invariant, and a published model stays published |
| `XttsService.OneModel` | xtts-service/main.py:44-80 | at most one construction ever succeeds, the flag implies the model, and every thread that has, uses or was served a model has that one |
| `XttsService.ReadyStays` | xtts-service/main.py:74-75 | once flagged, the model never changes in any continuation |
| `XttsService.EveryReturnIsTheSame` | xtts-service/main.py:44-80 | all normal returns of the loader over a whole run give the same instance |
| `XttsService.LocksExclude` | xtts-service/main.py:165-208 | loading and synthesis are each mutually exclusive, and no thread holds one lock while holding or waiting for the other |
| `XttsService.FailedLoadIsRetryable` | xtts-service/main.py:78-80 | a failed load frees the lock, publishes nothing, and a waiting thread then reaches the construction itself |
| `XttsService.NeverDeadlocked` | xtts-service/main.py:260-281 | while a request is unfinished, some unfinished request can take a step of its own |
| `XttsService.RunsAreBounded` | xtts-service/main.py:165-208 | without new arrivals no run takes more than twelve steps per request |
| `XttsService.SynthesisIsServedExactlyWhenGood` | xtts-service/main.py:184-208 | a good synthesis is served with its model, a failed one is an error, and both free the synthesis lock |
| `XttsService.RefusalsTouchNothing` | xtts-service/main.py:162-168 | a refused request, or one that gives up before synthesis, is an error and touches no shared state |
| `XttsService.LoadedPathTakesNoLock` | xtts-service/main.py:47-48 | once the flag is set the loader returns the model without the lock |
| `XttsService.ConstructionPublishes` | xtts-service/main.py:50-77 | a model is constructed only under the lock while none is loaded, and is then the published one |
| `CommentScanner.Find` | scripts/validate_code_comments.py:35 | the first triple quote at or after an index, or none |
| `CommentScanner.HashStartsComment` | scripts/validate_code_comments.py:67-70 | after plain code a hash starts a comment to the end of the line |
| `CommentScanner.StringHides` | scripts/validate_code_comments.py:43-65 | an ordinary string hides what it contains, hashes too, and code goes on after it |
| `CommentScanner.EscapesAndNewlines` | scripts/validate_code_comments.py:43-51 | a backslash takes the next character with it; a newline ends strings and comments but not triple quotes |
| `CommentScanner.TripleHides` | scripts/validate_code_comments.py:53-60 | a triple-quoted string hides what it contains over any number of lines |
| `CommentScanner.StaysTriple` | scripts/validate_code_comments.py:34-40 | inside triple quotes the automaton stays there, reading no comment, until the first marker is complete |
| `CommentScanner.TripleJumps` | scripts/validate_code_comments.py:34-60 | a jump to the closing marker, or to the end of the line, is what the automaton does character by character |
| `CommentScanner.FoundComment` | scripts/validate_code_comments.py:67-68 | the text after the hash, stripped, is all the automaton reads as comment in the line |
| `CommentScanner.ExtractPythonComment` | scripts/validate_code_comments.py:27-72 | the jumping scanner returns the automaton's comment and carries its quote to the next line |
| `CommentScanner.ReadLinesIsFile` | scripts/validate_code_comments.py:109-110 | the lines of every text satisfy what the scanner needs and concatenate to the text |
| `CommentScanner.ScanLine` | scripts/validate_code_comments.py:119-128 | running the automaton over one more whole line adds exactly that line's comment |
| `CommentScanner.NextLine` | scripts/validate_code_comments.py:119-128 | carrying the quote from line to line keeps the scan in step with one automaton run over the whole text |
| `CommentRules.CheckComment` | scripts/validate_code_comments.py:132-147 | a rule is listed, once and in rule order, if and only if the comment is not empty and the rule's search finds its pattern; nothing else is listed |
| `CommentRules.StepTextsMatch` | scripts/validate_code_comments.py:19 | the step pattern matches wherever one of its texts stands, or "Step" and a number |
| `CommentRules.OnlyStepTextsMatch` | scripts/validate_code_comments.py:19 | and nowhere else |
| `CommentRules.NonFunctionalTextsMatch` | scripts/validate_code_comments.py:20-22 | the non-functional pattern matches wherever one of its texts, or of its words between word boundaries, stands |
| `CommentRules.OnlyNonFunctionalTextsMatch` | scripts/validate_code_comments.py:20-22 | and nowhere else |
| `CommentRules.OneCharacterRules` | scripts/validate_code_comments.py:18 | the Chinese and emoji patterns by code point (emoji: lines 23-25) |
| `CommentRules.ReportedIffOccursFromStart` | scripts/validate_code_comments.py:132-147 | a rule is reported if and only if its pattern occurs in its own case at position 2 or later, or at any position for the two rules without the flag |
| `CommentRules.FirstTwoPositionsAreLost` | scripts/validate_code_comments.py:136-141 | a rule reports what occurs in its own case if and only if it has no flag, or nothing starts at 0 or 1, or something starts later |
| `CommentRules.MissedExactlyWhen` | scripts/validate_code_comments.py:136-141 | a violating comment goes unreported if and only if each occurrence, in any case, starts before the start position or differs in case |
| `CommentRules.ReportsAreViolations` | scripts/validate_code_comments.py:132-147 | what is reported violates its rule |
| `CommentRules.LeadingTodoIsMissed` | scripts/validate_code_comments.py:19 | the comment "TODO: x" violates the step rule and is not reported |
| `CommentRules.LowerCaseTodoIsMissed` | scripts/validate_code_comments.py:136 | the comment "a todo" violates the step rule, which asks for any case, and is not reported |
| `CommentScanner.TodoLineIsMissed` | scripts/validate_code_comments.py:104-147 | a file that is the line "# TODO: x" violates the step rule and no check result says so |
| `CommentScanner.CheckPythonFile` | scripts/validate_code_comments.py:104-147 | the result lists, by line and rule and each once, exactly the rules reported of the comments one automaton finds in the whole text, one comment per line |
| `SlashComments.ExtractSlashComment` | scripts/validate_code_comments.py:74-102 | the look-ahead scanner returns what an automaton without look-ahead reads after two slashes outside strings |
| `SlashComments.SlashesStartComment` | scripts/validate_code_comments.py:97-98 | after plain code two slashes start a comment to the end of the line |
| `SlashComments.StringHides` | scripts/validate_code_comments.py:82-95 | a string in any of the three quotes hides what it contains |
| `SlashComments.CheckSlashFile` | scripts/validate_code_comments.py:104-147 | the result lists, by line and rule and each once, exactly the rules reported of the comments the automaton finds in the lines |
| `Base64UrlUint.OctetsAreMinimal` | scripts/manage_live_media_keys.py:24 | the computed length always suffices, the octets have the value, and the first is not zero |
| `Base64UrlUint.MinimalOctetsAreUnique` | scripts/manage_live_media_keys.py:24 | octets that do not start with zero are the ones computed from their value |
| `Base64UrlUint.NoFewerOctets` | scripts/manage_live_media_keys.py:24 | no shorter octet string has the same value |
| `Base64UrlUint.EncodingDecodes` | scripts/manage_live_media_keys.py:25 | unpadded base64url has ceil(4k/3) digits for k octets and decodes to them |
| `Base64UrlUint.UIntRoundTrip` | scripts/manage_live_media_keys.py:23-25 | reading back gives the integer, in minimal octets and the exact length; only zero gives the empty text |
| `Base64UrlUint.UIntInjective` | scripts/manage_live_media_keys.py:23-25 | different integers have different texts |
| `Base64UrlUint.JwksDeterminesKey` | scripts/manage_live_media_keys.py:37-50 | the published set reads back to modulus and exponent, and equals another's if and only if the keys are equal |
| `Base64UrlUint.AlphabetIs` | scripts/manage_live_media_keys.py:25 | the digits are upper case, lower case, digits, dash and underscore, in this order |
| `Base64UrlUint.TestVectors` | scripts/manage_live_media_keys.py:25 | three test vectors of section 10 of RFC 4648 |
| `Base64UrlUint.UsualExponent` | scripts/manage_live_media_keys.py:23-25 | 65537 is written AQAB |
| `Base64UrlUint.JwksIs` | scripts/manage_live_media_keys.py:39-49 | one key with the given id, of type RSA, for signatures, with RS256 |
| `WhipPublisher.RetriesAreBounded` | scripts/e2e/live_media_whip_file_publisher.py:41-53 | n retries need n <= 3s + 3 with s stable ones, the failure counter stays at most 3, and the stable ones take at least 31.5 s each |
| `WhipPublisher.DelaysAre` | scripts/e2e/live_media_whip_file_publisher.py:27-53 | the delays 1.5, 5 and 15 s one after another, and the reset after 30 s up |
| `WhipPublisher.RetriedExactlyWhen` | scripts/e2e/live_media_whip_file_publisher.py:234-255 | an attempt is retried exactly when it failed, no stop signal had arrived, and its delay ends before the deadline |
| `WhipPublisher.StreakIs` | scripts/e2e/live_media_whip_file_publisher.py:46-47 | the failures counted are those since the last attempt that was up for 30 s |
| `WhipPublisher.StatusIs` | scripts/e2e/live_media_whip_file_publisher.py:56-59 | a run is stopped exactly if a signal arrived, and otherwise completed or failed by its last return code |
| `WhipPublisher.RetryReturnsToHead` | scripts/e2e/live_media_whip_file_publisher.py:236-255 | a slept-out delay leads back to the loop head with fewer stable slots left, or as many and one more failure |
| `WhipPublisher.BreakIsRight` | scripts/e2e/live_media_whip_file_publisher.py:234-243 | breaking out means the last attempt is one that is not retried, and is reported as such |
| `WhipPublisher.EndingIsBounded` | scripts/e2e/live_media_whip_file_publisher.py:209-255 | at most 3s + 4 attempts, and 31.5(s - 1) below the total duration |
| `WhipPublisher.Publish` | scripts/e2e/live_media_whip_file_publisher.py:204-265 | the loop ends, as the trace of turns says it must, with the right counts, status and exit code and within those bounds |
| `SchedulerPatch.TaskTable.ApplyPatch` | backend/scripts/apply_task_scheduler_schema_patch.py:87-90 | statement by statement over the table, each row ends as if it alone had gone through all statements; a failed cast anywhere leaves the table as it was |
| `SchedulerPatch.RepairsAreVacuous` | backend/scripts/apply_task_scheduler_schema_patch.py:65-67 | after the main update the three null repairs change no row |
| `SchedulerPatch.PatchedIs` | backend/scripts/apply_task_scheduler_schema_patch.py:14-79 | the 22 statements have on a row the effect of the first and last update only, and fail exactly when the resume time cannot be cast |
| `SchedulerPatch.PatchFailsExactlyWhen` | backend/scripts/apply_task_scheduler_schema_patch.py:24-30 | the patch fails on a row exactly when its ISO-like resume time cannot be cast |
| `SchedulerPatch.FrontierStates` | backend/scripts/apply_task_scheduler_schema_patch.py:51-63 | which state every patched row is in, if and only if, over its status, type and context keys |
| `SchedulerPatch.QueueShards` | backend/scripts/apply_task_scheduler_schema_patch.py:46-50 | which shard every patched row is on |
| `SchedulerPatch.BlockedColumns` | backend/scripts/apply_task_scheduler_schema_patch.py:34-45 | the blocked reason and payload of every patched row |
| `SchedulerPatch.TimesAndOtherColumns` | backend/scripts/apply_task_scheduler_schema_patch.py:24-33 | when every patched row is eligible and enqueued, and that no other column changes |
| `SchedulerPatch.IndexesPartitionPending` | backend/scripts/apply_task_scheduler_schema_patch.py:69-71 | a row is pending if and only if it is in exactly one of the cold and ready indexes; no row is in the running-pending index |
| `SchedulerPatch.ReadyRowsAreEnqueuedAndEligible` | backend/scripts/apply_task_scheduler_schema_patch.py:22-68 | an enqueue time is present if and only if the row is ready and has a creation or earlier enqueue time; a ready row created by now is eligible by now |
| `SchedulerPatch.PatchIsIdempotent` | backend/scripts/apply_task_scheduler_schema_patch.py:22-68 | applying the patch twice at the same time equals applying it once |
| `SchedulerPatch.LaterPatchOnlyWakes` | backend/scripts/apply_task_scheduler_schema_patch.py:22-68 | applied again later, exactly the pending, runnable, un-held rows whose resume time fell in between turn from cold to ready; the whole new row is given |
| `SchedulerPatch.EarlyPatchForgetsOnlyEnqueueTime` | backend/scripts/apply_task_scheduler_schema_patch.py:22-68 | early and late equals late alone if and only if no row that wakes in between had an enqueue time other than its creation time |
| `TaskRows.SelectOldest` | backend/scripts/trim_tasks_execution_context.py:160-167 | a batch is as many candidates as the limit allows, none newer than a candidate left out, NULL counting as newest |
| `TaskRows.ConditionsAre` | backend/scripts/trim_tasks_execution_context.py:69-76 | the age, status and workspace conditions in terms of a row's own columns |
| `TaskTrim.TrimDropsExactly` | backend/scripts/trim_tasks_execution_context.py:55-67 | a trim drops the conversation state and, beside a workflow result, its three duplicates, and keeps every other key with its value; a row matches if and only if a trim would change it; only duplicates go if and only if there is no conversation state |
| `TaskTrim.TrimmingRemovesCandidates` | backend/scripts/trim_tasks_execution_context.py:157-185 | trimming some candidates leaves exactly the others as candidates |
| `TaskTrim.BatchExtends` | backend/scripts/trim_tasks_execution_context.py:157-185 | a batch after earlier batches equals trimming their union at once, and a short batch completes the candidates |
| `TaskTrim.SecondTrimFindsNothing` | backend/scripts/trim_tasks_execution_context.py:334-345 | after a full trim a second one changes nothing |
| `TaskTrim.CandidatesAreDue` | backend/scripts/trim_tasks_execution_context.py:55-76 | the matching rows by their own columns: age, status, pack, workspace, and a surplus in the context |
| `TaskTrim.HigherLimitTrimsLess` | backend/scripts/trim_tasks_execution_context.py:70-72 | raising the age limit never adds a row |
| `TaskTrim.BatchesForIs` | backend/scripts/trim_tasks_execution_context.py:335-345 | the batches needed are floor(N/B) + 1 |
| `TaskTrim.TaskStore.UpdateBatch` | backend/scripts/trim_tasks_execution_context.py:157-185 | one statement trims an oldest batch of due rows in place, none newer than a row that stays due, and returns its ids; a negative size is refused and changes nothing |
| `TaskTrim.LoopsForeverExactlyAtZero` | backend/scripts/trim_tasks_execution_context.py:334-345 | from any table the loop can go on for any number of rounds if and only if the batch size is zero |
| `TaskTrim.TaskStore.Trim` | backend/scripts/trim_tasks_execution_context.py:334-345 | whatever the positive batch size, the run changes exactly the rows that are due by their own columns, as trimming all candidates once, and leaves none; a negative size changes nothing |
| `TaskPrune.DefaultPatternsMatchAnyThird` | backend/scripts/prune_tasks_retention.py:28 | the default patterns match a pack id if and only if it has at least three characters and starts with "ig" |
| `TaskPrune.SumAdds` | backend/scripts/prune_tasks_retention.py:165-176 | byte sums of disjoint sets of rows add up |
| `TaskPrune.SumRows` | backend/scripts/prune_tasks_retention.py:310-313 | adding up a batch's reported bytes in any order gives its sum |
| `TaskPrune.StandsAfterBatch` | backend/scripts/prune_tasks_retention.py:298-313 | after each batch: tasks and projections are the start minus what is gone, the totals are its summary, and no deleted row is newer than a remaining candidate |
| `TaskPrune.StillNoneNewer` | backend/scripts/prune_tasks_retention.py:204-211 | another oldest batch keeps every deleted row no newer than every remaining candidate |
| `TaskPrune.CandidatesAreDue` | backend/scripts/prune_tasks_retention.py:117-150 | the matching rows by their own columns: age, status, pack id or pattern, workspace |
| `TaskPrune.HigherLimitDeletesLess` | backend/scripts/prune_tasks_retention.py:140-144 | raising the age limit never adds a row |
| `TaskPrune.PercentSkipsAny` | backend/scripts/prune_tasks_retention.py:123-126 | a percent sign in a pattern stands for any text |
| `TaskPrune.OneCharacterPatterns` | backend/scripts/prune_tasks_retention.py:123-126 | an underscore stands for one character, a backslash quotes the next, any other stands for itself |
| `TaskPrune.BytesOfOne` | backend/scripts/prune_tasks_retention.py:171-172 | the bytes of one row, a missing column counting nothing |
| `TaskPrune.TaskStore.DeleteBatch` | backend/scripts/prune_tasks_retention.py:200-227 | one statement deletes an oldest batch of due rows with its projections, none newer than a due row that stays, and reports its bytes; a negative size is refused and changes nothing |
| `TaskPrune.TaskStore.Prune` | backend/scripts/prune_tasks_retention.py:294-313 | whatever the positive batch size, exactly the rows that are due by their own columns and their projections go, and the totals are the dry run's; size zero deletes nothing, and a negative one is an error that deletes nothing |
| `RouteConflicts.NormalizePathIsIdempotent` | scripts/ci/validate_route_conflicts.py:100-110 | normalizing a path twice equals normalizing it once |
| `RouteConflicts.ParameterBecomesPlaceholder` | scripts/ci/validate_route_conflicts.py:107 | text before the first brace stays, a parameter becomes the placeholder, and the rest is handled alike |
| `RouteConflicts.NoBraceNoChange` | scripts/ci/validate_route_conflicts.py:107 | text without an opening brace stays as it is |
| `RouteConflicts.StripsExactlySlashes` | scripts/ci/validate_route_conflicts.py:109 | exactly the trailing slashes are taken off |
| `RouteConflicts.ParameterNamesAreIrrelevant` | scripts/ci/validate_route_conflicts.py:106-109 | renaming a parameter, wherever it stands, normalizes to the same path |
| `RouteConflicts.GroupRoutes` | scripts/ci/validate_route_conflicts.py:125-132 | the map holds, for each key in order of first appearance, the ascending positions of its routes |
| `RouteConflicts.GroupPairs` | scripts/ci/validate_route_conflicts.py:140-146 | the nested loops list the rows of pairs of a group in order |
| `RouteConflicts.PairSource` | scripts/ci/validate_route_conflicts.py:140-146 | every listed pair is one of an earlier and a later member of the group |
| `RouteConflicts.PairsHold` | scripts/ci/validate_route_conflicts.py:140-146 | every such pair is listed |
| `RouteConflicts.FindConflicts` | scripts/ci/validate_route_conflicts.py:113-148 | grouping and reporting together compute the conflicts of all groups in order |
| `RouteConflicts.GroupingEqualsQuadraticScan` | scripts/ci/validate_route_conflicts.py:113-148 | what is reported is exactly the pairs i < j with the same method and normalized path of which some such route stands in another file, each once, g(g-1)/2 per group of g |
| `RouteConflicts.NoConflictIffSameFile` | scripts/ci/validate_route_conflicts.py:134-148 | nothing is reported if and only if routes with the same key always share a file |
| `IngressMetric.IntegralIffDenotes` | scripts/remote_workbench_remote_ingress_lock.py:299-301 | the integrality test and the conversion accept a decimal as v if and only if it is exactly v |
| `IngressMetric.NumeralsAreReadExactly` | scripts/remote_workbench_remote_ingress_lock.py:296 | a text reads as a number if and only if, up to underscores, it is a sign, digits with or without a point, and an exponent or none; and then as that numeral's value |
| `IngressMetric.LinesAcrossBreak` | scripts/remote_workbench_remote_ingress_lock.py:282 | a line boundary separates the lines before it from those after it |
| `IngressMetric.FieldsAcrossSpace` | scripts/remote_workbench_remote_ingress_lock.py:290 | white space separates the fields before it from those after it |
| `IngressMetric.LabelledSampleMismatches` | scripts/remote_workbench_remote_ingress_lock.py:291-294 | a labelled sample of the gauge counts, so no version is read from it or beside it |
| `IngressMetric.ParseLiveConfigVersion` | scripts/remote_workbench_remote_ingress_lock.py:276-304 | size check, decoding check and the line loop compute the result for the gauge's sample lines |
| `IngressMetric.VersionExactlyWhen` | scripts/remote_workbench_remote_ingress_lock.py:286-304 | v is returned if and only if the gauge has one sample line in the text, unlabelled and with two fields, whose decimal is exactly v in 0..2^31-1 |
| `IngressMetric.OrderIsIrrelevant` | scripts/remote_workbench_remote_ingress_lock.py:285-293 | permuting the lines never changes the result |
| `IngressMetric.UnrelatedLinesAreIrrelevant` | scripts/remote_workbench_remote_ingress_lock.py:286-292 | comments, blank lines and other metrics never change the result, wherever they stand |
| `IngressMetric.WrittenVersionReadsBack` | scripts/remote_workbench_remote_ingress_lock.py:285-304 | a sample line that states a version in plain decimal, among any unrelated lines, reads back as that version if it is in range and is malformed otherwise |
| `IngressMetric.WrittenVersionReadsBackInText` | scripts/remote_workbench_remote_ingress_lock.py:276-304 | the same for whole texts, the sample on a line of its own |

## Left out

Assumptions and limits of the models:

- Confirmation tokens: identifiers are assumed fresh and the clock non-decreasing; lifetimes are whole seconds, so fractional lifetimes and dates beyond the representable range are not modelled; the random identifier generator and the action preview text are left out.
- Tool calls: the access policy, the tool-name parser and all remote replies are arbitrary; one clock reading stands for one uninterrupted segment of the handler; formatting of replies is left out.
- Device control: this code is a transition system rather than a class, because two threads share it; wall-clock times, JSON parsing and the socket are nondeterministic steps. An error frame whose reason starts with the acknowledgement time-out text counts as a miss, as in the code.
- Preflight: the router is arbitrary, faithful where a lemma says so; a runtime's probe outcome does not change within a run; texts are already trimmed; report payloads and pool summaries are left out.
- Account homes: the database query, the health metadata (given as two booleans) and the file time of `auth.json` are inputs.
- XTTS service: a transition system rather than a class, because its threads share it; re-patching `torch.load` after failed loads, audio conversion, voice lookup and temporary files are left out.
- Comment rules: what `\d`, `\w` and case folding say of a character is arbitrary; universal-newline translation is taken as done; choosing files by suffix or from git, and read errors, are left out.
- Key tool: key generation, PEM, permissions and atomic file writes are left out.
- Publisher: a stop signal during a delay is noticed only after the next attempt, as in the code; a signal is a fact about each turn, not a step of its own; ffmpeg arguments, access loading, the duration computation and the state file are left out.
- Scheduler patch: no index structure or isolation level; AND and CASE are evaluated left to right; the transaction is all or nothing.
- Batch scripts: no concurrent writers and one fixed now(); execution contexts are JSON objects; the trim's byte summaries and grouped reports are left out; a LIKE pattern that ends in a backslash is no match here and an error in the database.
- TaskTrim.TaskStore.Trim: excludes a batch size of zero, for which the source's loop never ends (`TaskTrim.LoopsForeverExactlyAtZero`) and a method that ends cannot do what it does.
- Route scanning: file discovery and the decorator patterns are left out.
- Ingress metric: UTF-8 decoding is given; non-ASCII digits and the decimal type's exponent limits are left out.

Parts of the repository not modelled:

- Redis queue and lock store, backup library, bridge supervisor, cutover workflow, task stores: facades and callers whose behaviour is decided elsewhere.
- The ingress lock file checks and `live_projection`: field-by-field comparisons without interaction.
- Migration, reporting and vault scripts, health endpoints, argument parsing and the web console: single-branch claims only.
