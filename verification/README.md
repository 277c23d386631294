# KubeSynapse API gateway: a verified model

This project models the stateful part of the KubeSynapse API gateway and proves what it
promises. Objects that the gateway changes in place are classes here, its loops are loops,
and every such method is proved against a function of its arguments and the old state. The
properties over whole runs are lemmas about these functions.

- **Workflows** (`WorkflowGraph`, `WorkflowValidation`, `WorkflowAcceptance`): Kahn's algorithm accepts
  exactly the acyclic dependency graphs, and the spec builder exactly the workflows that are
  acceptable as they were sent. The cycle direction is a pigeonhole argument on the nodes that
  were never dequeued.
- **A2A tasks** (`A2ATask`, `A2AProtocol`, `A2ARuns`, `A2AOutcomes`, `A2AStore`, `A2AGateway`): the task protocol as a state
  machine whose steps are the code between two suspension points, with the task states of the
  A2A Protocol Specification 1.0, section 4.1.3. Reading a delta and writing it are two steps.
  Single flight, final states and lossless streaming hold over all interleavings; the classes
  `TaskRecord` and `TaskStore` refine the steps, and `Gateway` composes them over whole runs
  with any number of handlers at work.
- **Event streams** (`EventStream`, `EventStreamRoundTrip`, `SseReader`): the incremental reader
  does not depend on chunking, and undoes the printers exactly on clean events.
- **Limiters** (`LoginLimiter`, `LoginRuns`, `LoginBounds`, `RateWindows`, `ApiLimiter`, `WebhookLimiter`):
  each small mutable table answers like a predicate over the whole history of calls.
- **Agent cache** (`AgentCache`, `AgentCacheRuns`): lookup, fill, eviction and invalidation, and
  runs in which fetches and writes interleave.
- **Traces** (`TraceTables`, `TraceTotals`, `TraceHistory`, `TraceStore`, `LlmContent`): incremental
  counters against totals recomputed from rows, what the tables show told from the events alone, and the deduplicated content store.
- **Trigger executions and incidents** (`TriggerExecutions`, `TriggerRuns`, `Incidents`,
  `IncidentRuns`): life cycles over whole runs, with amortised bounds that are met.
- **Memory selection and LDAP escaping** (`MemorySelection`, `LdapEscape`).

`PythonText` has the parts of Python's `str` that the parsers rely on: `strip`, `splitlines`,
and `lower` as far as it matters for comparisons with ASCII words; `Wording` says which texts
they turn into a word. `Wrappers` and `Sequences`
are shared helpers.

## Where the code does something else than one would expect

Each of these is a proved statement, named in the table below.

- The check of a login and the note of its result are separate steps, and attempts overlap. With
  at most m attempts of a key in flight a window holds up to limit + m - 1 failures of a streak,
  and the backoff separates only every m-th failure. Exactly for m = 1 the limits hold as
  configured. A successful login forgets the failures before it, so counted across successes
  there is a bound exactly for m = 1 and a limit of one.
- The invocation route records an admitted call twice, so it admits at most half of
  `API_INVOKE_RATE_LIMIT_PER_MINUTE`, rounded up (`docs/configuration-reference.md:53`
  describes the setting as the limit itself).
- A fetch that reads an agent before a write and stores after its invalidation leaves the old
  value in the cache; the exact condition is `HitsAreCurrentIff`. Writes that bypass the
  invalidation are steps of their own (`ExternalWrite`) and excluded there.
- A session does not flush before queries, so the refresh within a runtime call does not see
  the row of that call.
- The text that is hashed for deduplication joins the four texts with `|`, so it determines
  them only when they do not contain that character.
- `TRACE_CONTENT_MAX_BYTES` counts characters, and a truncated text is longer than the maximum
  by its suffix; this length decides whether a long text can fall between row and store.
- `json.dumps` leaves U+2028, U+2029 and U+0085 in the data, at which `splitlines` cuts.
- A silent end, or an invoke status that the gateway does not know, leaves a task WORKING until
  it is purged, and nothing else does.

## Premises

- Clocks do not go back. The login limiter, the tasks and the cache count whole ticks, the
  other limiters use real numbers. An atomic step reads the clock once.
- Every database session is one atomic transaction. Row identifiers, task identifiers and
  message identifiers generated by the gateway are new.
- Texts are sequences of Unicode scalar values: a lone surrogate, which encoding replaces by a
  question mark, is not part of any stored or hashed text.
- The digest is free of collisions and compression is undone by decompression.
- Whether the content store commits is a parameter of each call: its transaction refers to a
  call row that is not committed yet, which a database that enforces this reference refuses.
- "A call names a step of its own execution" is the premise of the trace totals. The step id
  derived for runtime calls cuts the execution id to 16 characters
  (`api-gateway/traces_router.py:666`), so it is not implied by the code.
- `StatusTellsTheWay` is about executions recorded as pending, as the one caller does.
- Operations in `TriggerRuns` and `IncidentRuns` carry the key and status that the store
  methods make of raw arguments.

## Model

| member | source | states |
|---|---|---|
| WorkflowValidation.DetectWorkflowCycles | api-gateway/_core.py:4495-4514 | returns normally if and only if the dependency graph has no cycle, repeated entries and self-dependencies included; no node is dequeued twice, and on acceptance the dequeue order reversed is a schedule of all nodes |
| WorkflowAcceptance.BuildWorkflowSpec | api-gateway/_core.py:4436-4492 | accepts a workflow, told on the steps as sent and spaces aside, if and only if its names are nonblank and distinct, each nonblank dependency is the name of a step, and no steps depend on each other in a ring; the spec then has as many steps, with trimmed names and the nonblank trimmed dependencies in order and with repetitions, and the schedule runs each step after all it depends on; every rejection names a true fault, the first of its kind |
| WorkflowAcceptance.AcceptableIff | api-gateway/_core.py:4436-4514 | the conditions on the trimmed steps, acyclic by the adjacency table, are those on the steps as sent |
| WorkflowValidation.NormalizedTrims | api-gateway/_core.py:4439-4450 | names are trimmed, and exactly the nonblank dependencies are kept, trimmed, in order and with repetitions |
| WorkflowValidation.CheckNames | api-gateway/_core.py:4438-4445 | succeeds if and only if all trimmed names are nonblank and fresh, otherwise reports the first step at fault; gives exactly the set of step names |
| WorkflowValidation.CheckDependencies | api-gateway/_core.py:4476-4482 | reports nothing if and only if every dependency names a step, otherwise the first unknown one |
| WorkflowValidation.ScheduleRunsDependenciesFirst | api-gateway/_core.py:4495-4514 | in any schedule of an accepted workflow each dependency of each step stands before the step |
| WorkflowValidation.AdjacencyOfFresh | api-gateway/_core.py:4497 | with distinct names the adjacency table keeps the dependency list of every step |
| WorkflowValidation.EmptyQueueStuck | api-gateway/_core.py:4503-4513 | if the queue runs empty, each node left over has a predecessor among the nodes left over |
| WorkflowValidation.Release | api-gateway/_core.py:4507-4511 | one dequeued node: remaining in-degrees, queue and order keep the loop invariant of the algorithm |
| WorkflowGraph.StuckNodesHoldCycle | api-gateway/_core.py:4513-4514 | nodes that each have a predecessor among them contain a cycle, by the pigeonhole principle on a backward walk |
| WorkflowGraph.ScheduleExcludesCycles | api-gateway/_core.py:4513-4514 | a graph with a schedule has no cycle |
| WorkflowGraph.ReversedOrderIsSchedule | api-gateway/_core.py:4503-4513 | an order in which every dependency comes later is, reversed, a schedule |
| A2ATask.AppendHistoryEvolves | api-gateway/_core.py:3621-3628 | a history only grows at its end, and never holds a nonempty message id twice |
| A2ATask.ApplyResponseSettles | api-gateway/_core.py:4010-4044 | a reply leaves a record whose artifact matches its text, whatever the reported status |
| A2ATask.CompleteStreamSettles | api-gateway/_core.py:4224-4271 | so does the end of a stream |
| A2ATask.MarkFailedSettles | api-gateway/_core.py:4047-4063 | so does a failure, which ends FAILED without text |
| A2ATask.BeginWorkSettles | api-gateway/_core.py:4073-4075 | so does the start of an invocation, which ends WORKING |
| A2ATask.WordsTell | api-gateway/_core.py:3680-3688 | a reported status stands for COMPLETED, AUTH_REQUIRED or REJECTED if and only if it is the word completed, approval_pending or blocked, in any case and with any spaces around it, and for WORKING otherwise |
| A2AProtocol.StartKeepsInv | api-gateway/_core.py:4142-4144 | starting on a task without invocation keeps: at most one invocation for each task, WORKING while one is in flight, artifact entry present exactly when there is text and equal to it |
| A2AProtocol.StepKeepsInv | api-gateway/_core.py:3836-4308 | every step keeps these invariants; contexts stay, histories grow at the end, and what was touched within the retention time stays in the store |
| A2ARuns.RunKeepsInv | api-gateway/_core.py:3550-4308 | the same over every run |
| A2ARuns.ReachableInv | api-gateway/_core.py:3550-4308 | the invariants hold in every state reachable from the empty store |
| A2ARuns.AdmittedOnlyWhenInterrupted | api-gateway/_core.py:3868-3893 | a message to a known task is accepted if and only if the task is stored, waits for authentication and has the context named; then no invocation is on it and its text is empty |
| A2ARuns.FinishedForever | api-gateway/_core.py:3868-3893 | a record that is COMPLETED, FAILED or REJECTED never changes again in any continuation |
| A2ARuns.TerminalIsFinished | api-gateway/_core.py:3879-3885 | terminal tasks have no invocation in flight |
| A2ARuns.TextsAreDeltas | api-gateway/_core.py:3649-3652 | in every run the text of a streaming invocation, counting a delta read but not yet written, is the concatenation of its deltas |
| A2ARuns.StreamedTextIsLossless | api-gateway/_core.py:4135-4292 | a stream that ends completed leaves text, artifact and a new last message equal to the concatenation of all its deltas, then and ever after, although reading and writing a delta are two steps |
| A2ARuns.ReplyIsKept | api-gateway/_core.py:4010-4044 | a completed reply stays in every continuation: as text, as artifact, and as a new last message behind the old history |
| A2ARuns.FailureIsKept | api-gateway/_core.py:4047-4063 | a failed invocation leaves its error as status message and new last message, and neither text nor artifact, in every continuation |
| A2AOutcomes.ApprovalAdmitsTheAnswer | api-gateway/_core.py:3868-3893 | after a reply or stream end with approval_pending the task waits without text, and the next message for it starts an invocation if and only if the task is still kept and the message names its context or none |
| A2AOutcomes.BlockedIsRejected | api-gateway/_core.py:3684-3687 | after blocked the task is REJECTED in every continuation, idle, and no message for it is taken |
| A2AOutcomes.CompletedIsFinal | api-gateway/_core.py:3682-3683 | after completed the task is COMPLETED in every continuation, idle, and no message for it is taken |
| A2AOutcomes.OtherWordIsStuck | api-gateway/_core.py:3688 | after any other word the task is stuck in every continuation |
| A2AOutcomes.UnfinishedReplyIsShown | api-gateway/_core.py:4025-4044 | a reply that does not complete the task is shown as status message, or the reported status if it is blank, and added to the history unless it is blank; there is no artifact |
| A2AOutcomes.UnfinishedStreamIsShown | api-gateway/_core.py:4224-4265 | the same for a stream with the text that was streamed |
| A2AOutcomes.ResultIsStored | api-gateway/_core.py:3607-3612 | every step of a handler that changes its task leaves it in the store with the time of the step, except a failure left to the record that the handler holds |
| A2AOutcomes.NewTaskIsAsAsked | api-gateway/_core.py:3894-3924 | a new task is WORKING on the message alone, in the context named, or that of the first referenced task still kept, or a fresh one; the invocation in flight is on it |
| A2AOutcomes.FirstMessageIsKept | api-gateway/_core.py:3621-3628 | the message that opens a task is the first of its history in every continuation |
| A2AOutcomes.LaterMessageIsKept | api-gateway/_core.py:3621-3628 | a message taken for a task follows its history in every continuation, unless its id was there |
| A2ARuns.SharedTaskWouldLoseText | api-gateway/_core.py:3649-3652 | two invocations on one task could lose a delta: without single flight the property fails |
| A2ARuns.EndLeavesStuckIff | api-gateway/_core.py:4010-4292 | whichever way an invocation ends, its task is left WORKING, idle and refusing every message if and only if the end was silent, or a stream end or a reply with an invoke status that the gateway does not know |
| A2ARuns.SilentEndIsStuck | api-gateway/_core.py:3680-3688 | in exactly these cases the task stays so in every continuation |
| A2ARuns.StuckUntilPurged | api-gateway/_core.py:3550-3554 | such a task is found by a later read exactly as long as the retention time since its last change has not passed |
| A2ARuns.PurgedForever | api-gateway/_core.py:3550-3554 | once purged it is never found again |
| A2ARuns.GetFindsFresh | api-gateway/_core.py:3615-3618 | a read finds a task exactly when it was stored and touched within the retention time, and finds it unchanged |
| A2AStore.TaskRecord.AppendMessage | api-gateway/_core.py:3621-3628 | the record in place is the value-level record with the message appended |
| A2AStore.TaskRecord.SetText | api-gateway/_core.py:3631-3646 | the record in place after a new artifact text |
| A2AStore.TaskRecord.ApplyReply | api-gateway/_core.py:4010-4044 | the record in place after an invoke response |
| A2AStore.TaskRecord.FinishStream | api-gateway/_core.py:4224-4271 | the record in place after a completed stream |
| A2AStore.TaskRecord.MarkAsFailed | api-gateway/_core.py:4047-4063 | the record in place after a failure |
| A2AStore.TaskStore.Purge | api-gateway/_core.py:3550-3554 | removes exactly the records not touched within the retention time; the others stay the same objects |
| A2AStore.TaskStore.Put | api-gateway/_core.py:3607-3612 | purges, stamps the record and stores this very object |
| A2AStore.TaskStore.Get | api-gateway/_core.py:3615-3618 | purges, and returns the stored object or null |
| A2AStore.TaskStore.InferContext | api-gateway/_core.py:3828-3833 | the context of the first referenced task that is found and has one |
| A2AStore.TaskStore.AcceptNew | api-gateway/_core.py:3894-3924 | objects that represent a protocol state represent the state after a message without task id; every other stored record stays the same object |
| A2AStore.TaskStore.AcceptExisting | api-gateway/_core.py:3868-3893 | the same for a message that names a task, with the admission the protocol gives; only the record of that task may change, and a refusal only purges |
| A2AStore.TaskStore.Perform | api-gateway/_core.py:4066-4292 | the same for each step of a handler on the record it holds, also when that record was purged from the store; every other stored record stays the same object |
| A2AGateway.Gateway.Begin | api-gateway/_core.py:4073-4075 | a handler begins beside those at work, whose records and calls are untouched |
| A2AGateway.Gateway.Work | api-gateway/_core.py:3649-3652 | a step of one handler, the reading half of a delta included, leaves every other handler with its own record and call |
| A2AGateway.Gateway.Step | api-gateway/_core.py:3836-4308 | the store and all handlers in flight with the records they hold represent the protocol state after any enabled step |
| A2AGateway.Serve | api-gateway/_core.py:3550-4308 | after any run the objects represent its protocol state: no two handlers hold one record, held records are WORKING, and the text of each streaming handler is the concatenation of its deltas |
| EventStream.ReadInTwoParts | api-gateway/_core.py:4112-4132 | reading a text in two parts, the rest of the first in front of the second, is reading it whole |
| SseReader.ReadBlock | api-gateway/_core.py:4120-4132 | the loop over the lines of a block computes what the block stands for: last event name, data lines joined, nothing without data |
| SseReader.Drain | api-gateway/_core.py:4118-4132 | the loop that cuts complete blocks from the buffer yields the events of the text and leaves its unfinished rest |
| SseReader.IterRuntimeSseEvents | api-gateway/_core.py:4112-4132 | the events yielded are those of the concatenation of all chunks, however the text was cut, and after each chunk those of the text so far |
| EventStreamRoundTrip.PrintedItemsAreRead | api-gateway/_core.py:2007-2012 | any sequence of printed clean events and keepalives reads back as the events, in order, with nothing left over |
| EventStreamRoundTrip.RoundTripExactly | api-gateway/_core.py:2007-2008 | a printed event is read back as itself if and only if its name is a nonempty trimmed line and its data a trimmed line, with the line breaks that splitlines honours |
| EventStreamRoundTrip.LineSeparatorCutsData | api-gateway/_core.py:2008 | data with a raw U+2028 does not come back |
| EventStreamRoundTrip.BreakEndsLine | api-gateway/_core.py:4123 | each of the eleven line endings of splitlines ends a line, CR LF as one |
| EventStreamRoundTrip.DataLinesComeBack | api-gateway/_core.py:4132 | the data of a block, cut at its line feeds, are its data lines |
| EventStreamRoundTrip.UnnamedIsMessage | api-gateway/_core.py:4121-4127 | the name is message unless an event line gives another |
| EventStreamRoundTrip.NamesReadAreClean | api-gateway/_core.py:4120-4132 | whatever the text, every event name read is a trimmed line |
| LoginLimiter.LoginLimiter.LoginRateLimited | api-gateway/auth_store.py:2863-2881 | the pruned state answers like the whole history: limited if and only if the window holds at least the limit of failures of the streak, or the streak has reached the limit and the wait since its last failure has not passed; the wait is the base at first, doubles with each failure and is capped |
| LoginLimiter.LimitedIffHeldBack | api-gateway/auth_store.py:2869-2880 | the limiter holds a key back exactly that long, the doubling and the cap included |
| LoginLimiter.QuietLetsGo | api-gateway/auth_store.py:2867-2881 | however long the streak, a key is let go once more than a window and at least the maximal wait have passed since its failures |
| LoginLimiter.StreakSinceSuccess | api-gateway/auth_store.py:2886-2894 | the streak is what failed since the last success, wherever that was |
| LoginRuns.AskOpensIff | api-gateway/routers/auth.py:102-103 | a check lets an attempt begin if and only if the window holds fewer failures than allowed and the wait has passed |
| LoginRuns.QuietAttemptBegins | api-gateway/routers/auth.py:102-103 | in every run an attempt can begin once the key has been quiet for a window and the maximal wait |
| LoginLimiter.LoginLimiter.NoteLoginAttempt | api-gateway/auth_store.py:2884-2894 | appends to the history that the state stands for, for every key |
| LoginRuns.RunKeepsInv | api-gateway/routers/auth.py:98-144 | in every run of checks and notes, with at most m attempts of a key in flight: while the window or the backoff since a failure of the streak is open, the failures noted since and the attempts in flight together stay below the bounds that follow |
| LoginRuns.StreaksAreSpaced | api-gateway/auth_store.py:2863-2894 | with at most m attempts of a key in flight, each failure of a streak is more than a window before the one limit + m - 1 places later, and from the limit on at least its backoff before the one m places later |
| LoginRuns.WindowHoldsAtMost | api-gateway/auth_store.py:2863-2871 | with at most m attempts in flight no closed window holds more than limit + m - 1 failures of a streak |
| LoginBounds.WindowBoundIsMet | api-gateway/auth_store.py:2863-2871 | for every m and every setting some run meets this bound, so without a bound on the attempts in flight there is none on the failures |
| LoginBounds.LimitsHoldIffOneAtATime | api-gateway/auth_store.py:2863-2894 | over all runs, the limit itself bounds the failures of a streak in a window if and only if no two attempts of the key are ever in flight together, and so for the backoff between consecutive failures |
| LoginRuns.BackoffAddsUp | api-gateway/auth_store.py:2872-2880 | from the failure that reaches the limit to the one j * m places later at least the sum of j backoffs passes, each taken m failures after the one before |
| LoginRuns.WaitsBelowCap | api-gateway/auth_store.py:2874-2877 | below the cap these backoffs are a geometric series with ratio 2^m: one attempt at a time, base * (2^j - 1) |
| LoginBounds.OneFailurePerWindow | api-gateway/auth_store.py:2863-2894 | with a limit of one and one attempt at a time no window holds two failures of a key, successes in between or not |
| LoginBounds.SuccessesClear | api-gateway/auth_store.py:2886-2890 | otherwise, for every n, some run puts n failures of a key into one instant, by successes in between |
| LoginBounds.BoundedAcrossSuccessesIff | api-gateway/auth_store.py:2863-2894 | counting across successes there is a bound on the failures of a key in a window if and only if the limit is one and attempts come one at a time; then it is the limit |
| ApiLimiter.PopStale | api-gateway/auth_store.py:2923-2926 | popping stale heads is filtering the whole sorted list |
| ApiLimiter.ApiRateLimiter.ApiRateLimited | api-gateway/auth_store.py:2913-2928 | limited if and only if the history of all calls of the key, this one included and denied ones too, has more than the threshold in the window |
| ApiLimiter.ApiRateLimiter.NoteApiRequest | api-gateway/auth_store.py:2931-2939 | records one more call |
| ApiLimiter.ApiRateLimiter.AdmitInvocation | api-gateway/routers/agents.py:691-695 | the guard of the invocation route: an admitted call is recorded twice |
| ApiLimiter.AdmittedPerMinute | api-gateway/routers/agents.py:691-695 | over every run a route that only asks admits at most the threshold in a closed minute; the invocation route at most half the threshold, rounded up, against the configured number |
| ApiLimiter.BurstIsAdmitted | api-gateway/routers/agents.py:691-695 | both bounds are met |
| WebhookLimiter.WebhookRateLimiter.CheckRateLimit | api-gateway/webhook_security.py:74-83 | admits if and only if fewer than the limit were admitted within the window behind, by the history since the table was last dropped; a refusal changes nothing |
| WebhookLimiter.WindowHoldsAtMostLimit | api-gateway/webhook_security.py:74-83 | while the table is not dropped no half-open window holds more admissions of a key than the limit |
| AgentCache.AgentReadCache.Lookup | api-gateway/_core.py:5308-5316 | a live entry is a hit; an expired one is removed; nothing else changes |
| AgentCache.AgentReadCache.Fill | api-gateway/_core.py:5318-5322 | stores with a fresh expiry, then keeps the live entries with the latest expiry, up to the maximum |
| AgentCache.AgentReadCache.Prune | api-gateway/_core.py:5281-5287 | exactly the live entries survive if they fit, otherwise the maximum number, none of them expiring before one that was dropped |
| AgentCache.AgentReadCache.Invalidate | api-gateway/_core.py:5290-5301 | removes exactly the entries that match the parts given |
| AgentCacheRuns.KeptIsServedForItsLifetime | api-gateway/_core.py:5318-5321 | what a fetch stores and keeps is a hit for exactly the time to live, if nothing else happens |
| AgentCacheRuns.StoredIsKept | api-gateway/_core.py:5281-5287 | it is kept if the live entries leave room |
| AgentCacheRuns.SizeIsBounded | api-gateway/_core.py:5281-5323 | the size never exceeds the maximum in any run |
| AgentCacheRuns.HitWasHeldByBackend | api-gateway/_core.py:5304-5323 | every hit is a value the backend held when some earlier fetch read it, stored less than the time to live ago |
| AgentCacheRuns.StoreIsCoherentIff | api-gateway/_core.py:5318-5322 | a fetch that stores keeps the cache coherent if and only if it missed no write, or what it stores is evicted at once, or the backend holds its value again, or a write to its key awaits its invalidation |
| AgentCacheRuns.HitsAreCurrentIff | api-gateway/_core.py:4607-4636 | over every run in which only the gateway writes: at every step each hit on a key without a pending write equals the backend, if and only if every store met this condition |
| AgentCacheRuns.OrderlyHitsAreCurrent | api-gateway/_core.py:4607-4636 | in particular this holds if no fetch spans a write and its invalidation |
| AgentCacheRuns.SpanningFetchServesOldValue | api-gateway/_core.py:5318-5322 | without that premise a finished write can be followed by hits on the old value, for any settings |
| TraceTotals.StepKeepsBalanceIff | api-gateway/traces_router.py:504-764 | an event keeps per-step counters equal to the totals of the call rows, for every execution and counter, if and only if it names no missing or foreign step |
| TraceTotals.OwnedRunsBalance | api-gateway/traces_router.py:504-764 | over every run of such events the counters equal the totals |
| TraceTotals.TotalsAtExecutionEnd | api-gateway/trace_store.py:446-469 | at the end of an execution its stored totals are the sums of its step counters and of its call rows, for each of the nine counters |
| TraceTotals.MetricsAreOverwritten | api-gateway/traces_router.py:533-545 | what a worker reports at the end makes no difference to the tables |
| TraceTotals.RuntimeCallLags | api-gateway/traces_router.py:704-741 | right after a runtime call the totals of its execution lack exactly this call |
| TraceTotals.StepCountsAlwaysAgree | api-gateway/trace_store.py:446-456 | in every run completed and failed steps never exceed total steps |
| TraceStore.TraceStore.UpsertFromEvent | api-gateway/traces_router.py:504-764 | the tables changed in place are those of the event applied to the old tables, which TraceHistory tells from the events alone |
| TraceStore.TraceStore.RefreshAggregates | api-gateway/trace_store.py:446-469 | the loops over rows compute the sums and counts by which the properties are stated |
| TraceStore.TraceStore.GetOrCreateStep | api-gateway/traces_router.py:449-471 | a step is added only if no step has the id |
| TraceHistory.ExecutionShowsLastOutcome | api-gateway/traces_router.py:518-545 | in every run the status of an execution is the outcome of the last end event that found it, and pending if there was none |
| TraceHistory.ExecutionsAreKnown | api-gateway/traces_router.py:423-446 | the executions are those that were started, or needed by a runtime call whose step was missing |
| TraceHistory.StepShowsLastEnd | api-gateway/traces_router.py:557-576 | in every run the status of a step is that of the last end event that found it, and pending if there was none |
| TraceHistory.StepsAreBirths | api-gateway/traces_router.py:449-471 | the steps are those that events needed, each made by and for the execution of the first |
| TraceHistory.StepShowsItsCalls | api-gateway/traces_router.py:630-650 | in every run each counter of each step is the sum of what the calls that named it reported |
| TraceHistory.RowsAreReports | api-gateway/traces_router.py:585-764 | the call rows add up to what the events of an execution reported |
| TraceHistory.EndShowsHistory | api-gateway/trace_store.py:446-469 | at its end an execution shows the reported outcome, how many steps were made for it and how many of them last completed or failed, and the nine totals, prompt and completion tokens that its events reported |
| TraceHistory.RuntimeStepIsSharedIff | api-gateway/traces_router.py:666 | runtime calls of two executions share a step if and only if the execution ids agree in their first sixteen characters |
| LlmContent.ContentStore.StoreLlmContent | api-gateway/trace_store.py:506-558 | the content store in place; the hash is returned exactly for a call that went to the store |
| LlmContent.ContentStore.RecordCall | api-gateway/traces_router.py:581-629 | the row of the call with short texts inline and the reference, and the content store |
| LlmContent.ContentStore.GetLlmCallDetail | api-gateway/traces_router.py:1296-1328 | the texts of the content row if there is one, otherwise the inline ones; nothing for an unknown call |
| LlmContent.ShowsAllIff | api-gateway/trace_store.py:506-573 | in every run of calls without separators in prompt, response and reasoning, a call, accepted or refused, shows its own four texts, whole or truncated, if and only if it went to the store or all of them fit its row |
| LlmContent.GoesToStoreIff | api-gateway/trace_store.py:518-528 | a call goes to the store if and only if that is on, it is accepted, and what is kept of its four texts is longer than a row may hold |
| LlmContent.ContentRefersToTheLast | api-gateway/trace_store.py:537-539 | a content refers to the last call that had it |
| LlmContent.EachCallReadsBackItsTexts | api-gateway/trace_store.py:506-573 | in every run of calls without separators in prompt, response and reasoning each accepted call shows its own four texts, whole or truncated, however many share a content |
| LlmContent.StoredCallShowsTheFirst | api-gateway/trace_store.py:532-539 | in general a stored call shows the texts of the first call with its hash, its own exactly if these were the same |
| LlmContent.HashIdentifiesIff | api-gateway/trace_store.py:500-503 | the hashed text determines the four texts if and only if none of them contains the separator |
| LlmContent.SameHashSameTexts | api-gateway/trace_store.py:500-503 | with separators only in the last text the hashed text determines the four texts |
| LlmContent.SeparatorMixesUpCalls | api-gateway/trace_store.py:500-503 | with a separator in a long text the second of two calls shows the texts of the first |
| LlmContent.LosesNothingIff | api-gateway/trace_store.py:522-528 | no text of an accepted call is lost, over all calls, if and only if storage is on and the inline threshold is below the length of a truncated text |
| LlmContent.RefusedCallKeepsShortTexts | api-gateway/trace_store.py:556-558 | when the store refuses, exactly the texts within the inline threshold remain |
| TriggerExecutions.TriggerStore.RecordTriggerExecution | api-gateway/auth_store.py:4280-4338 | returns the latest row of the normalized key; a row is added exactly if there was none |
| TriggerExecutions.TriggerStore.UpdateTriggerExecutionStatus | api-gateway/auth_store.py:4341-4406 | an update whose text says a status, spaces aside, moves the row if and only if this is one of the eleven moves, leaves it as it is if it has that status, and is an error without effect otherwise; an unknown row is no error |
| TriggerExecutions.UpdateIsDecided | api-gateway/auth_store.py:4359-4384 | the same on the rows of any run, with the moves written by where they lead |
| TriggerExecutions.OtherTextIsRefused | api-gateway/auth_store.py:4359-4364 | a text that says none of the six statuses is an error without effect, and only such a text is an invalid status |
| TriggerExecutions.RecordedAs | api-gateway/auth_store.py:4332 | an execution is recorded with the status that was named, and as pending without one |
| TriggerExecutions.KeyIff | api-gateway/auth_store.py:4301-4303 | the key is what the texts mean, spaces aside; a blank namespace is the default one |
| TriggerExecutions.ClaimerIs | api-gateway/auth_store.py:4420 | the claimer kept is the name given without the spaces around it, cut at 128 characters |
| TriggerExecutions.TriggerStore.ClaimTriggerExecution | api-gateway/auth_store.py:4409-4439 | takes a pending row to queued under the claimer; otherwise gives nothing and changes nothing |
| TriggerRuns.OneExecutionPerEvent | api-gateway/auth_store.py:4300-4320 | in every run no two rows have the same namespace, trigger and event |
| TriggerRuns.RecordedOnce | api-gateway/auth_store.py:4280-4338 | an event recorded again at any later time gets the row it already has, and nothing changes |
| TriggerRuns.CompletedForever | api-gateway/auth_store.py:4267-4274 | completed is final in every continuation |
| TriggerRuns.StatusTellsTheWay | api-gateway/auth_store.py:4267-4274 | for executions recorded as pending, what a row went through since its last replay is determined by its status: a completed one was pending, queued, processing, completed and nothing else |
| TriggerRuns.WayIsTaken | api-gateway/auth_store.py:4267-4274 | from any pending execution in any run, each way along the moves can be taken by updates |
| TriggerRuns.ClaimedCanComplete | api-gateway/auth_store.py:4267-4274 | a claimed execution can be processed and completed |
| TriggerRuns.ClaimedOncePerReplay | api-gateway/auth_store.py:4409-4439 | successful claims of a row are at most one more than its replays |
| TriggerRuns.ClaimBoundIsMet | api-gateway/auth_store.py:4409-4439 | for any number of replays this bound is met |
| Incidents.IncidentStore.CreateIncident | api-gateway/auth_store.py:1340-1406 | an incident of that name is returned as it is; otherwise a firing one is made; a blank name is an error |
| Incidents.IncidentStore.UpsertIncident | api-gateway/auth_store.py:1409-1489 | an existing incident gets a new description and keeps its life cycle |
| Incidents.IncidentStore.UpdateIncidentStatus | api-gateway/auth_store.py:1492-1550 | changes status, time stamp, flag and timeline if and only if the text spells, in any case and spaces aside, a status that the incident may move to; otherwise an error without effect |
| Incidents.WhenAccepted | api-gateway/auth_store.py:1328-1337 | the same on any rows, with the moves written by where they lead |
| Incidents.NewIncidentShows | api-gateway/auth_store.py:1376-1402 | a new incident fires, shows the trimmed title and the severity that was spelled, a warning by default, and one timeline entry that names the source |
| Incidents.UpsertShows | api-gateway/auth_store.py:1444-1461 | an upsert puts the reported title, unless it is blank, and severity, and leaves the rest of the incident and all others alone |
| Incidents.KeyIff | api-gateway/auth_store.py:1356-1359 | the key is what the texts mean, spaces aside; a blank namespace is the default one |
| Incidents.IncidentStore.AddTimelineEvent | api-gateway/auth_store.py:1606-1630 | appends one entry and changes nothing else |
| IncidentRuns.ChangesAreBounded | api-gateway/auth_store.py:1251-1259 | after k escalations at most 4k + 5 status changes were accepted, less what the status still leaves open |
| IncidentRuns.BoundIsMet | api-gateway/auth_store.py:1251-1259 | for every k some incident is closed after k escalations and 4k + 5 changes |
| IncidentRuns.TimelineCounts | api-gateway/auth_store.py:1511-1526 | the timeline has one entry for the creation, each accepted change and each note |
| IncidentRuns.TimelineIsPath | api-gateway/auth_store.py:1511-1526 | without notes the timeline is a path in the table from firing to the current status |
| IncidentRuns.FlagTellsEscalation | api-gateway/auth_store.py:1528-1538 | the escalated flag and time are set if and only if the incident was ever escalated, and the closing time if and only if it is closed |
| IncidentRuns.WhatLasts | api-gateway/auth_store.py:1409-1550 | in every continuation, upserts included, closed stays closed, the flag stays set and the timeline keeps its entries |
| MemorySelection.RankPromotedMemoryRecords | api-gateway/_core.py:872-920 | the selection from the ranked eligible records, within both limits; only records that say something, are not blocked and are of an allowed type; below the number of memories every such record left out is too long |
| MemorySelection.SelectInOrder | api-gateway/_core.py:908-920 | the loop with its running total and early end computes the selection |
| MemorySelection.RankedIsStableSort | api-gateway/_core.py:907 | the ranking descends in score and keeps the given order among equals |
| MemorySelection.StableSortIsUnique | api-gateway/_core.py:907 | only one sequence does |
| MemorySelection.SelectionIsGreedy | api-gateway/_core.py:911-919 | marking records is greedy, each marked exactly if it fits beside those marked before it, if and only if it marks what the loop takes |
| MemorySelection.NoRejectedRecordFits | api-gateway/_core.py:914-917 | if the number of memories was not reached, no record left out could be added |
| MemorySelection.MayBeUsedIff | api-gateway/_core.py:889-897 | which records are eligible, by their label without the spaces around it or their type |
| MemorySelection.LineFitsIff | api-gateway/_core.py:923-938 | the estimate covers the line that the prompt note has for a record if and only if the label is at most six characters longer than the topic |
| MemorySelection.NoteFits | api-gateway/_core.py:923-938 | so the lines of records with topics fit the characters that the policy allows |
| MemorySelection.FullStaysFull | api-gateway/_core.py:912-913 | ending the loop at the maximum leaves out nothing that would be taken |
| Wording.ReadsAsIff | api-gateway/_core.py:3681 | strip and lower give a plain word if and only if the text spells it: letters, their capitals or the Kelvin sign for k, between spaces |
| Wording.StripIff | api-gateway/auth_store.py:1330 | strip cuts off exactly the spaces around a text |
| LdapEscape.LdapEscape | api-gateway/enterprise_auth.py:128-144 | the character loop computes the escaped value |
| LdapEscape.EscapingIsUndone | api-gateway/enterprise_auth.py:128-144 | an unescaper after section 3 of RFC 4515 gives every string back from its escaped form, which that grammar accepts |
| LdapEscape.EscapingIsInjective | api-gateway/enterprise_auth.py:128-144 | different values have different escaped forms |
| LdapEscape.EscapedHasNoSyntax | api-gateway/enterprise_auth.py:128-144 | no raw asterisk, parenthesis or NUL, and every backslash starts an escape of two hexadecimal digits |
| LdapEscape.UnchangedIff | api-gateway/enterprise_auth.py:141-142 | a value is left as it is if and only if it has no special character |

## Left out

- Kubernetes, HTTP, the database engine, authentication and namespace checks around the modelled functions.
- Byte decoding inside the stream reader: it decodes each chunk with errors ignored, so a multibyte character cut in two is lost. The model reads text chunks.
- JSON rendering of event payloads: the data of a printed event is a parameter.
- A2A message parts other than their text, metadata, reference lists in the history, and the trimming of histories in `public_a2a_task`; contexts are taken as trimmed.
- A2A protocol steps of one handler between suspension points are one step; threads that interleave inside them are not modelled.
- Termination of A2A tasks: not every task leaves WORKING, see `SilentEndIsStuck`.
- AgentCache.AgentReadCache.Prune: which of several entries with the same expiry is evicted is left open; the code takes the first in insertion order.
- The agent cache with a time to live of zero or less, which bypasses it.
- The Redis path of the webhook limiter, a different algorithm, and the concurrency counter beside it, which would add an easy member.
- WebhookLimiter.WindowHoldsAtMostLimit: says nothing across the moment when more than 10000 keys are known and the table is dropped.
- Costs, latencies, previews, time stamps and free-text fields of trace rows; batch order and the JSONL files.
- Foreign keys of steps and calls to their executions: a row that names an unknown execution is kept, where an enforcing database refuses the event.
- Exactly-once counting of runtime events submitted twice, which the code does not give.
- Attempt counts, error messages, lineage fields and time stamps of trigger executions, and the listing of stale ones.
- Labels, annotations, assignment and workflow references of incidents, and the row lock of the upsert.
- How memory records are scored and which contents are blocked: both are parameters, scores are real numbers.
- LDAP network flows, SAML, OIDC, password hashing and tokens.
