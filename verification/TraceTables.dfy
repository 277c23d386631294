/** The trace tables, and what one event does to them. A session does not flush on query, so
    a row added by an event is not seen by the queries of that event. */
module TraceTables {
  import opened Wrappers

  datatype ExecutionStatus = ExecPending | ExecCompleted | ExecFailed | ExecCancelled
  datatype StepStatus = StepPending | StepCompleted | StepFailed | StepSkipped

  /** What is counted per step and per execution. */
  datatype Totals = Totals(
    llmCalls: int, toolCalls: int, tokens: int,
    cacheRead: int, cacheWrite: int, reasoning: int,
    reasoningChars: int, promptChars: int, responseChars: int)

  datatype Field =
    | LlmCalls | ToolCalls | Tokens | CacheRead | CacheWrite | Reasoning
    | ReasoningChars | PromptChars | ResponseChars

  function Get(t: Totals, f: Field): int {
    match f
    case LlmCalls => t.llmCalls
    case ToolCalls => t.toolCalls
    case Tokens => t.tokens
    case CacheRead => t.cacheRead
    case CacheWrite => t.cacheWrite
    case Reasoning => t.reasoning
    case ReasoningChars => t.reasoningChars
    case PromptChars => t.promptChars
    case ResponseChars => t.responseChars
  }

  const NOTHING := Totals(0, 0, 0, 0, 0, 0, 0, 0, 0)
  const ONE_TOOL_CALL := NOTHING.(toolCalls := 1)

  function Plus(a: Totals, b: Totals): (r: Totals)
    ensures forall f :: Get(r, f) == Get(a, f) + Get(b, f)
  {
    Totals(a.llmCalls + b.llmCalls, a.toolCalls + b.toolCalls, a.tokens + b.tokens,
           a.cacheRead + b.cacheRead, a.cacheWrite + b.cacheWrite, a.reasoning + b.reasoning,
           a.reasoningChars + b.reasoningChars, a.promptChars + b.promptChars, a.responseChars + b.responseChars)
  }

  /** The token counts and text lengths that a call event reports. */
  datatype Usage = Usage(prompt: int, completion: int, cacheRead: int, cacheWrite: int, reasoning: int,
                         reasoningChars: nat, promptChars: nat, responseChars: nat)

  function TokenSum(u: Usage): int {
    u.prompt + u.completion + u.cacheRead + u.cacheWrite + u.reasoning
  }

  /** One call's contribution, with the total that its row records. */
  function CallTotals(u: Usage, tokens: int): Totals {
    Totals(1, 0, tokens, u.cacheRead, u.cacheWrite, u.reasoning, u.reasoningChars, u.promptChars, u.responseChars)
  }

  datatype StepRow = StepRow(id: string, executionId: string, status: StepStatus, counters: Totals)
  datatype LlmRow = LlmRow(executionId: string, stepId: string, usage: Usage, tokens: int)
  datatype ToolRow = ToolRow(executionId: string, stepId: string)
  datatype Execution = Execution(status: ExecutionStatus, totalSteps: int, completedSteps: int, failedSteps: int,
                                 promptTokens: int, completionTokens: int, totals: Totals)

  datatype Tables = Tables(
    executions: map<string, Execution>,
    steps: seq<StepRow>,
    llm: seq<LlmRow>,
    tools: seq<ToolRow>)

  const EMPTY := Tables(map[], [], [], [])

  /** What a worker reports at the end of an execution; any part may be missing. */
  datatype Metrics = Metrics(
    totalSteps: Option<int>, completedSteps: Option<int>, failedSteps: Option<int>,
    promptTokens: Option<int>, completionTokens: Option<int>, totalTokens: Option<int>,
    llmCalls: Option<int>, toolCalls: Option<int>)

  datatype Event =
    | ExecutionStarted(executionId: string)
    | ExecutionEnded(executionId: string, outcome: ExecutionStatus, metrics: Metrics)
    | StepStarted(executionId: string, stepId: string)
    | StepEnded(stepId: string, stepOutcome: StepStatus)
    | LlmCallCompleted(executionId: string, stepId: string, usage: Usage)
    | RuntimeLlmCall(executionId: string, stepId: string, usage: Usage, reportedTokens: int)
    | ToolCall(executionId: string, stepId: string)

  // ---------------------------------------------------------------------------
  // Queries
  // ---------------------------------------------------------------------------

  /** The index of the step with an id, or the number of steps. */
  function FindStep(steps: seq<StepRow>, id: string): (i: nat)
    ensures i <= |steps|
    ensures i < |steps| ==> steps[i].id == id
    ensures forall j :: 0 <= j < i ==> steps[j].id != id
  {
    if steps == [] || steps[0].id == id then 0 else 1 + FindStep(steps[1..], id)
  }

  predicate HasStep(steps: seq<StepRow>, id: string) {
    FindStep(steps, id) < |steps|
  }

  /** The sum of one counter over the steps of an execution. */
  function StepSum(steps: seq<StepRow>, e: string, f: Field): int {
    if steps == [] then 0 else
    var last := steps[|steps| - 1];
    StepSum(steps[..|steps| - 1], e, f) + (if last.executionId == e then Get(last.counters, f) else 0)
  }

  function CallSum(rows: seq<LlmRow>, e: string, f: Field): int {
    if rows == [] then 0 else
    var last := rows[|rows| - 1];
    CallSum(rows[..|rows| - 1], e, f) +
      (if last.executionId == e then Get(CallTotals(last.usage, last.tokens), f) else 0)
  }

  function ToolSum(rows: seq<ToolRow>, e: string, f: Field): int {
    if rows == [] then 0 else
    var last := rows[|rows| - 1];
    ToolSum(rows[..|rows| - 1], e, f) + (if last.executionId == e then Get(ONE_TOOL_CALL, f) else 0)
  }

  /** The same sum recomputed from the call rows. */
  function RowSum(llm: seq<LlmRow>, tools: seq<ToolRow>, e: string, f: Field): int {
    CallSum(llm, e, f) + ToolSum(tools, e, f)
  }

  function Recomputed(llm: seq<LlmRow>, tools: seq<ToolRow>, e: string): (r: Totals)
    ensures forall f :: Get(r, f) == RowSum(llm, tools, e, f)
  {
    Totals(RowSum(llm, tools, e, LlmCalls), RowSum(llm, tools, e, ToolCalls), RowSum(llm, tools, e, Tokens),
           RowSum(llm, tools, e, CacheRead), RowSum(llm, tools, e, CacheWrite), RowSum(llm, tools, e, Reasoning),
           RowSum(llm, tools, e, ReasoningChars), RowSum(llm, tools, e, PromptChars), RowSum(llm, tools, e, ResponseChars))
  }

  function PromptTokens(rows: seq<LlmRow>, e: string): int {
    if rows == [] then 0 else
    var last := rows[|rows| - 1];
    PromptTokens(rows[..|rows| - 1], e) + (if last.executionId == e then last.usage.prompt else 0)
  }

  function CompletionTokens(rows: seq<LlmRow>, e: string): int {
    if rows == [] then 0 else
    var last := rows[|rows| - 1];
    CompletionTokens(rows[..|rows| - 1], e) + (if last.executionId == e then last.usage.completion else 0)
  }

  function CountSteps(steps: seq<StepRow>, e: string, counted: set<StepStatus>): nat {
    if steps == [] then 0 else
    var last := steps[|steps| - 1];
    CountSteps(steps[..|steps| - 1], e, counted) + (if last.executionId == e && last.status in counted then 1 else 0)
  }

  const ANY_STATUS := {StepPending, StepCompleted, StepFailed, StepSkipped}

  // ---------------------------------------------------------------------------
  // One event
  // ---------------------------------------------------------------------------

  const NEW_EXECUTION := Execution(ExecPending, 0, 0, 0, 0, 0, NOTHING)

  /** `_get_or_create_execution` */
  function WithExecution(t: Tables, e: string): Tables {
    if e in t.executions then t else t.(executions := t.executions[e := NEW_EXECUTION])
  }

  /** `_get_or_create_step` */
  function WithStep(t: Tables, e: string, id: string): Tables {
    if HasStep(t.steps, id) then t else t.(steps := t.steps + [StepRow(id, e, StepPending, NOTHING)])
  }

  /** `refresh_execution_aggregates` over the rows that queries see. */
  function Refreshed(x: Execution, steps: seq<StepRow>, llm: seq<LlmRow>, tools: seq<ToolRow>, e: string): Execution {
    Execution(x.status,
              CountSteps(steps, e, ANY_STATUS),
              CountSteps(steps, e, {StepCompleted}),
              CountSteps(steps, e, {StepFailed}),
              PromptTokens(llm, e), CompletionTokens(llm, e),
              Recomputed(llm, tools, e))
  }

  function Refresh(t: Tables, e: string): Tables {
    if e in t.executions
    then t.(executions := t.executions[e := Refreshed(t.executions[e], t.steps, t.llm, t.tools, e)])
    else t
  }

  function OrElse(reported: Option<int>, current: int): int {
    match reported
    case Some(v) => v
    case None => current
  }

  /** The fields a worker reports, before the refresh that follows. */
  function Reported(x: Execution, outcome: ExecutionStatus, m: Metrics): Execution {
    Execution(outcome,
              OrElse(m.totalSteps, x.totalSteps),
              OrElse(m.completedSteps, x.completedSteps),
              OrElse(m.failedSteps, x.failedSteps),
              OrElse(m.promptTokens, x.promptTokens),
              OrElse(m.completionTokens, x.completionTokens),
              x.totals.(tokens := OrElse(m.totalTokens, x.totals.tokens),
                        llmCalls := OrElse(m.llmCalls, x.totals.llmCalls),
                        toolCalls := OrElse(m.toolCalls, x.totals.toolCalls)))
  }

  /** Adds to the counters of a step, if there is one with that id. */
  function Count(steps: seq<StepRow>, id: string, amount: Totals): seq<StepRow> {
    var i := FindStep(steps, id);
    if i < |steps| then steps[i := steps[i].(counters := Plus(steps[i].counters, amount))] else steps
  }

  function SetStatus(steps: seq<StepRow>, id: string, status: StepStatus): seq<StepRow> {
    var i := FindStep(steps, id);
    if i < |steps| then steps[i := steps[i].(status := status)] else steps
  }

  /** The step that a runtime call without a step id is counted under. */
  function RuntimeStepId(e: string): string {
    "step-runtime-" + (if |e| <= 16 then e else e[..16])
  }

  function EffectiveStep(e: string, stepId: string): string {
    if stepId != "" then stepId else RuntimeStepId(e)
  }

  function EffectiveTokens(u: Usage, reported: int): int {
    if reported != 0 then reported else TokenSum(u)
  }

  /** A runtime call without a step id makes its execution and its step, if they are missing. */
  function Prepared(t: Tables, e: string, stepId: string): Tables {
    if stepId != "" || HasStep(t.steps, RuntimeStepId(e)) then t
    else WithStep(WithExecution(t, e), e, RuntimeStepId(e))
  }

  /** `_upsert_from_event` */
  function Apply(t: Tables, event: Event): Tables {
    match event
    case ExecutionStarted(e) => WithExecution(t, e)
    case ExecutionEnded(e, outcome, metrics) =>
      if e in t.executions
      then Refresh(t.(executions := t.executions[e := Reported(t.executions[e], outcome, metrics)]), e)
      else t
    case StepStarted(e, id) => if id != "" then WithStep(t, e, id) else t
    case StepEnded(id, outcome) => if id != "" then t.(steps := SetStatus(t.steps, id, outcome)) else t
    case LlmCallCompleted(e, id, u) =>
      if id == "" then t else
      t.(llm := t.llm + [LlmRow(e, id, u, TokenSum(u))],
         steps := Count(t.steps, id, CallTotals(u, TokenSum(u))))
    case RuntimeLlmCall(e, id, u, reported) =>
      var tokens := EffectiveTokens(u, reported);
      if tokens == 0 then t else
      var p := Prepared(t, e, id);
      var step := EffectiveStep(e, id);
      var counted := p.(steps := Count(p.steps, step, CallTotals(u, tokens)));
      Refresh(counted, e).(llm := p.llm + [LlmRow(e, step, u, tokens)])
    case ToolCall(e, id) =>
      if id == "" then t else
      t.(tools := t.tools + [ToolRow(e, id)], steps := Count(t.steps, id, ONE_TOOL_CALL))
  }

  function Run(events: seq<Event>): Tables {
    if events == [] then EMPTY else Apply(Run(events[..|events| - 1]), events[|events| - 1])
  }
}
