/** What the trace tables show, told by the events alone: which executions and steps there are, how
    they ended, and what their calls add up to. */
module TraceHistory {
  import opened Wrappers
  import opened TraceTables
  import opened TraceTotals

  /** A step and the execution that it was made for. */
  datatype Birth = Birth(id: string, executionId: string)

  predicate Among(births: seq<Birth>, id: string) {
    exists i :: 0 <= i < |births| && births[i].id == id
  }

  /** The tokens of a runtime call: what was reported, or else the sum of its parts. */
  function TokensOf(u: Usage, reported: int): int {
    if reported != 0 then reported else u.prompt + u.completion + u.cacheRead + u.cacheWrite + u.reasoning
  }

  /** The step an event needs: the one that starts, or the runtime step of a call that names none. */
  function Needed(e: Event): Option<Birth> {
    match e
    case StepStarted(x, id) => if id == "" then None else Some(Birth(id, x))
    case RuntimeLlmCall(x, id, u, reported) =>
      if id != "" || TokensOf(u, reported) == 0 then None else Some(Birth(RuntimeStepId(x), x))
    case _ => None
  }

  /** The steps that were made, in order: each id by the first event that needed it. */
  function Births(events: seq<Event>): seq<Birth> {
    if events == [] then [] else
    WithBirth(Births(events[..|events| - 1]), Needed(events[|events| - 1]))
  }

  /** The executions that were made. */
  function Known(events: seq<Event>): set<string> {
    if events == [] then {} else
    var front, last := events[..|events| - 1], events[|events| - 1];
    var makes :=
      last.ExecutionStarted? || (last.RuntimeLlmCall? && Needed(last).Some? && !Among(Births(front), Needed(last).value.id));
    if makes then Known(front) + {last.executionId} else Known(front)
  }

  /** How an execution ended last, if it was known then. */
  function LastOutcome(events: seq<Event>, e: string): ExecutionStatus {
    if events == [] then ExecPending else
    var front, last := events[..|events| - 1], events[|events| - 1];
    if last.ExecutionEnded? && last.executionId == e && e in Known(front) then last.outcome else LastOutcome(front, e)
  }

  /** How a step ended last, if it had been made. */
  function LastEnd(events: seq<Event>, id: string): StepStatus {
    if events == [] then StepPending else
    var front, last := events[..|events| - 1], events[|events| - 1];
    if last.StepEnded? && last.stepId == id && id != "" && Among(Births(front), id) then last.stepOutcome
    else LastEnd(front, id)
  }

  // ---------------------------------------------------------------------------
  // The rows of the steps
  // ---------------------------------------------------------------------------

  predicate RowsOf(steps: seq<StepRow>, births: seq<Birth>) {
    |steps| == |births| && forall i :: 0 <= i < |steps| ==> steps[i].id == births[i].id && steps[i].executionId == births[i].executionId
  }

  lemma HasStepIff(steps: seq<StepRow>, births: seq<Birth>, id: string)
    requires RowsOf(steps, births)
    ensures HasStep(steps, id) <==> Among(births, id)
  {
    var i := FindStep(steps, id);
    if i < |steps| { assert births[i].id == id; }
  }

  lemma SameTokens(u: Usage, reported: int)
    ensures EffectiveTokens(u, reported) == TokensOf(u, reported)
  {
  }

  /** Rows that differ in their counters only. */
  predicate SameRows(a: seq<StepRow>, b: seq<StepRow>) {
    |a| == |b| && forall i :: 0 <= i < |a| ==>
      a[i].id == b[i].id && a[i].executionId == b[i].executionId && a[i].status == b[i].status
  }

  lemma CountKeepsRows(steps: seq<StepRow>, id: string, amount: Totals)
    ensures SameRows(Count(steps, id, amount), steps)
  {
  }

  function WithBirth(births: seq<Birth>, needed: Option<Birth>): seq<Birth> {
    match needed
    case Some(b) => if Among(births, b.id) then births else births + [b]
    case None => births
  }

  lemma StepRows(t: Tables, births: seq<Birth>, e: Event)
    requires RowsOf(t.steps, births)
    ensures RowsOf(Apply(t, e).steps, WithBirth(births, Needed(e)))
  {
    match e
    case StepStarted(x, id) => HasStepIff(t.steps, births, id);
    case LlmCallCompleted(_, id, u) => CountKeepsRows(t.steps, id, CallTotals(u, TokenSum(u)));
    case ToolCall(_, id) => CountKeepsRows(t.steps, id, ONE_TOOL_CALL);
    case RuntimeLlmCall(x, id, u, reported) => RuntimeRows(t, births, x, id, u, reported);
    case _ =>
  }

  /** The steps after a runtime call. */
  lemma RuntimeSteps(t: Tables, x: string, named: string, u: Usage, reported: int)
    ensures Apply(t, RuntimeLlmCall(x, named, u, reported)).steps ==
            if TokensOf(u, reported) == 0 then t.steps
            else Count(Prepared(t, x, named).steps, EffectiveStep(x, named), CallTotals(u, TokensOf(u, reported)))
  {
    SameTokens(u, reported);
  }

  lemma PreparedRows(t: Tables, births: seq<Birth>, x: string, named: string)
    requires RowsOf(t.steps, births)
    ensures RowsOf(Prepared(t, x, named).steps, if named == "" then WithBirth(births, Some(Birth(RuntimeStepId(x), x))) else births)
  {
    HasStepIff(t.steps, births, RuntimeStepId(x));
  }

  lemma RuntimeRows(t: Tables, births: seq<Birth>, x: string, id: string, u: Usage, reported: int)
    requires RowsOf(t.steps, births)
    ensures RowsOf(Apply(t, RuntimeLlmCall(x, id, u, reported)).steps, WithBirth(births, Needed(RuntimeLlmCall(x, id, u, reported))))
  {
    RuntimeSteps(t, x, id, u, reported);
    PreparedRows(t, births, x, id);
    CountKeepsRows(Prepared(t, x, id).steps, EffectiveStep(x, id), CallTotals(u, TokensOf(u, reported)));
  }

  lemma {:induction false} StepsAreBirths(events: seq<Event>)
    ensures RowsOf(Run(events).steps, Births(events))
  {
    if events != [] {
      StepsAreBirths(events[..|events| - 1]);
      StepRows(Run(events[..|events| - 1]), Births(events[..|events| - 1]), events[|events| - 1]);
    }
  }

  /** No two steps have the same id. */
  predicate IdsDiffer(births: seq<Birth>) {
    forall i, j :: 0 <= i < j < |births| ==> births[i].id != births[j].id
  }

  lemma {:induction false} BirthsDiffer(events: seq<Event>)
    ensures IdsDiffer(Births(events))
  {
    if events != [] { BirthsDiffer(events[..|events| - 1]); }
  }

  predicate RowIdsDiffer(steps: seq<StepRow>) {
    forall i, j :: 0 <= i < j < |steps| ==> steps[i].id != steps[j].id
  }

  /** The row that an event leaves of a step that was there. */
  lemma StatusAfter(t: Tables, e: Event, i: nat)
    requires i < |t.steps| && RowIdsDiffer(t.steps)
    ensures i < |Apply(t, e).steps| && Apply(t, e).steps[i].id == t.steps[i].id
    ensures Apply(t, e).steps[i].status ==
            if e.StepEnded? && e.stepId == t.steps[i].id && e.stepId != "" then e.stepOutcome else t.steps[i].status
  {
    match e
    case StepEnded(id, outcome) => SetAt(t.steps, id, outcome, i);
    case LlmCallCompleted(_, id, u) => CountKeepsRows(t.steps, id, CallTotals(u, TokenSum(u)));
    case ToolCall(_, id) => CountKeepsRows(t.steps, id, ONE_TOOL_CALL);
    case RuntimeLlmCall(x, id, u, reported) =>
      var p := Prepared(t, x, id);
      CountKeepsRows(p.steps, EffectiveStep(x, id), CallTotals(u, EffectiveTokens(u, reported)));
    case _ =>
  }

  lemma SetAt(steps: seq<StepRow>, id: string, outcome: StepStatus, i: nat)
    requires i < |steps| && RowIdsDiffer(steps)
    ensures |SetStatus(steps, id, outcome)| == |steps| && SetStatus(steps, id, outcome)[i].id == steps[i].id
    ensures SetStatus(steps, id, outcome)[i].status == if steps[i].id == id then outcome else steps[i].status
  {
    var k := FindStep(steps, id);
    if k < |steps| && steps[i].id == id {
      assert k == i;
    }
  }

  /** A step starts out pending. */
  lemma StatusOfNew(t: Tables, e: Event, i: nat)
    requires |t.steps| <= i < |Apply(t, e).steps|
    ensures Apply(t, e).steps[i].status == StepPending
  {
    match e
    case LlmCallCompleted(_, id, u) => CountKeepsRows(t.steps, id, CallTotals(u, TokenSum(u)));
    case ToolCall(_, id) => CountKeepsRows(t.steps, id, ONE_TOOL_CALL);
    case RuntimeLlmCall(x, id, u, reported) =>
      RuntimeSteps(t, x, id, u, reported);
      CountKeepsRows(Prepared(t, x, id).steps, EffectiveStep(x, id), CallTotals(u, TokensOf(u, reported)));
    case _ =>
  }

  lemma {:induction false} NeverMade(events: seq<Event>, id: string)
    requires !Among(Births(events), id)
    ensures LastEnd(events, id) == StepPending
  {
    if events != [] {
      var front := events[..|events| - 1];
      if Among(Births(front), id) { BirthsGrow(events, id); }
      NeverMade(front, id);
    }
  }

  lemma BirthsGrow(events: seq<Event>, id: string)
    requires events != [] && Among(Births(events[..|events| - 1]), id)
    ensures Among(Births(events), id)
  {
    var births := Births(events[..|events| - 1]);
    var i :| 0 <= i < |births| && births[i].id == id;
    assert Births(events)[i].id == id;
  }

  /** In every run each step shows how it ended last. */
  lemma {:induction false} StepShowsLastEnd(events: seq<Event>, i: nat)
    requires i < |Run(events).steps|
    ensures Run(events).steps[i].status == LastEnd(events, Run(events).steps[i].id)
  {
    var front, last := events[..|events| - 1], events[|events| - 1];
    var t := Run(front);
    StepsAreBirths(front);
    StepsAreBirths(events);
    BirthsDiffer(front);
    BirthsDiffer(events);
    if i < |t.steps| {
      StepShowsLastEnd(front, i);
      StatusAfter(t, last, i);
      assert Births(front)[i].id == t.steps[i].id;
    } else {
      StatusOfNew(t, last, i);
      NewIsNeverMade(front, last, i);
    }
  }

  lemma NewIsNeverMade(front: seq<Event>, last: Event, i: nat)
    requires |Run(front).steps| <= i < |Apply(Run(front), last).steps|
    ensures LastEnd(front, Apply(Run(front), last).steps[i].id) == StepPending
    ensures !last.StepEnded?
  {
    StepsAreBirths(front);
    StepRows(Run(front), Births(front), last);
    NeverMade(front, Apply(Run(front), last).steps[i].id);
  }

  // ---------------------------------------------------------------------------
  // The executions
  // ---------------------------------------------------------------------------

  lemma StatusOfExecution(t: Tables, e: Event, x: string)
    ensures x in t.executions ==> x in Apply(t, e).executions
    ensures var status := if e.ExecutionEnded? && e.executionId == x then e.outcome else
                          if x in t.executions then t.executions[x].status else ExecPending;
            x in t.executions ==> Apply(t, e).executions[x].status == status
    ensures x !in t.executions && x in Apply(t, e).executions ==> Apply(t, e).executions[x].status == ExecPending
  {
  }

  lemma MadeExecutions(t: Tables, births: seq<Birth>, e: Event)
    requires RowsOf(t.steps, births)
    ensures Apply(t, e).executions.Keys ==
            (if e.ExecutionStarted? || (e.RuntimeLlmCall? && Needed(e).Some? && !Among(births, Needed(e).value.id))
             then t.executions.Keys + {e.executionId} else t.executions.Keys)
  {
    if e.RuntimeLlmCall? {
      HasStepIff(t.steps, births, RuntimeStepId(e.executionId));
      SameTokens(e.usage, e.reportedTokens);
    }
  }

  lemma {:induction false} ExecutionsAreKnown(events: seq<Event>)
    ensures Run(events).executions.Keys == Known(events)
  {
    if events != [] {
      var front := events[..|events| - 1];
      ExecutionsAreKnown(front);
      StepsAreBirths(front);
      MadeExecutions(Run(front), Births(front), events[|events| - 1]);
    }
  }

  lemma {:induction false} NeverKnown(events: seq<Event>, x: string)
    requires x !in Known(events)
    ensures LastOutcome(events, x) == ExecPending
  {
    if events != [] { NeverKnown(events[..|events| - 1], x); }
  }

  /** In every run each execution shows how it ended last. */
  lemma {:induction false} ExecutionShowsLastOutcome(events: seq<Event>, x: string)
    requires x in Known(events)
    ensures x in Run(events).executions && Run(events).executions[x].status == LastOutcome(events, x)
  {
    var front, last := events[..|events| - 1], events[|events| - 1];
    ExecutionsAreKnown(front);
    ExecutionsAreKnown(events);
    StatusOfExecution(Run(front), last, x);
    if x in Known(front) {
      ExecutionShowsLastOutcome(front, x);
    } else {
      NeverKnown(front, x);
    }
  }

  // ---------------------------------------------------------------------------
  // Counts and totals
  // ---------------------------------------------------------------------------

  /** The steps made for an execution that ended last with this status. */
  function EndedAs(births: seq<Birth>, events: seq<Event>, x: string, status: StepStatus): nat {
    if births == [] then 0 else
    var last := births[|births| - 1];
    EndedAs(births[..|births| - 1], events, x, status) +
      (if last.executionId == x && LastEnd(events, last.id) == status then 1 else 0)
  }

  /** The steps made for an execution. */
  function MadeFor(births: seq<Birth>, x: string): nat {
    if births == [] then 0 else
    MadeFor(births[..|births| - 1], x) + (if births[|births| - 1].executionId == x then 1 else 0)
  }

  /** What a call adds to a counter. */
  function CallAmount(u: Usage, tokens: int, f: Field): int {
    match f
    case LlmCalls => 1
    case ToolCalls => 0
    case Tokens => tokens
    case CacheRead => u.cacheRead
    case CacheWrite => u.cacheWrite
    case Reasoning => u.reasoning
    case ReasoningChars => u.reasoningChars
    case PromptChars => u.promptChars
    case ResponseChars => u.responseChars
  }

  function Amount(e: Event, x: string, f: Field): int {
    match e
    case LlmCallCompleted(y, id, u) => if y == x && id != "" then CallAmount(u, TokensOf(u, 0), f) else 0
    case RuntimeLlmCall(y, _, u, reported) =>
      if y == x && TokensOf(u, reported) != 0 then CallAmount(u, TokensOf(u, reported), f) else 0
    case ToolCall(y, id) => if y == x && id != "" && f == ToolCalls then 1 else 0
    case _ => 0
  }

  /** The sum of a counter over the calls that the events of an execution report. */
  function Reports(events: seq<Event>, x: string, f: Field): int {
    if events == [] then 0 else
    Reports(events[..|events| - 1], x, f) + Amount(events[|events| - 1], x, f)
  }

  /** The prompt and the completion tokens of these calls. */
  function Prompted(events: seq<Event>, x: string): int {
    if events == [] then 0 else
    Prompted(events[..|events| - 1], x) + (if CallsIn(events[|events| - 1], x) then events[|events| - 1].usage.prompt else 0)
  }

  function Answered(events: seq<Event>, x: string): int {
    if events == [] then 0 else
    Answered(events[..|events| - 1], x) + (if CallsIn(events[|events| - 1], x) then events[|events| - 1].usage.completion else 0)
  }

  /** The event reports an LLM call of the execution. */
  predicate CallsIn(e: Event, x: string) {
    || (e.LlmCallCompleted? && e.executionId == x && e.stepId != "")
    || (e.RuntimeLlmCall? && e.executionId == x && TokensOf(e.usage, e.reportedTokens) != 0)
  }

  lemma AmountOfCall(row: LlmRow, f: Field)
    ensures Get(CallTotals(row.usage, row.tokens), f) == CallAmount(row.usage, row.tokens, f)
  {
  }

  /** The rows after a runtime call. */
  lemma RuntimeCallRows(t: Tables, x: string, named: string, u: Usage, reported: int)
    ensures var t' := Apply(t, RuntimeLlmCall(x, named, u, reported));
            t'.tools == t.tools &&
            t'.llm == (if TokensOf(u, reported) == 0 then t.llm
                       else t.llm + [LlmRow(x, EffectiveStep(x, named), u, TokensOf(u, reported))])
  {
    SameTokens(u, reported);
  }

  lemma EventAmount(t: Tables, e: Event, x: string, f: Field)
    ensures RowSum(Apply(t, e).llm, Apply(t, e).tools, x, f) == RowSum(t.llm, t.tools, x, f) + Amount(e, x, f)
  {
    match e
    case LlmCallCompleted(y, id, u) =>
      if id != "" {
        AddedCall(t.llm, LlmRow(y, id, u, TokenSum(u)), x, f);
        AmountOfCall(LlmRow(y, id, u, TokenSum(u)), f);
      }
    case RuntimeLlmCall(y, id, u, reported) =>
      RuntimeCallRows(t, y, id, u, reported);
      if TokensOf(u, reported) != 0 {
        var row := LlmRow(y, EffectiveStep(y, id), u, TokensOf(u, reported));
        AddedCall(t.llm, row, x, f);
        AmountOfCall(row, f);
      }
    case ToolCall(y, id) =>
      if id != "" { AddedTool(t.tools, ToolRow(y, id), x, f); }
    case _ =>
  }

  lemma {:induction false} RowsAreReports(events: seq<Event>, x: string, f: Field)
    ensures RowSum(Run(events).llm, Run(events).tools, x, f) == Reports(events, x, f)
  {
    if events != [] {
      RowsAreReports(events[..|events| - 1], x, f);
      EventAmount(Run(events[..|events| - 1]), events[|events| - 1], x, f);
    }
  }

  /** What a call adds to a counter of the step it names. */
  function Adds(e: Event, id: string, f: Field): int {
    match e
    case LlmCallCompleted(_, named, u) => if named == id && named != "" then CallAmount(u, TokensOf(u, 0), f) else 0
    case RuntimeLlmCall(x, named, u, reported) =>
      if (if named != "" then named else RuntimeStepId(x)) == id && TokensOf(u, reported) != 0
      then CallAmount(u, TokensOf(u, reported), f) else 0
    case ToolCall(_, named) => if named == id && named != "" && f == ToolCalls then 1 else 0
    case _ => 0
  }

  /** What the calls that named a step added to a counter, once it was made. */
  function Counted(events: seq<Event>, id: string, f: Field): int {
    if events == [] then 0 else
    Counted(events[..|events| - 1], id, f) + (if Among(Births(events), id) then Adds(events[|events| - 1], id, f) else 0)
  }

  lemma CountAt(steps: seq<StepRow>, id: string, amount: Totals, i: nat, f: Field)
    requires i < |steps| && RowIdsDiffer(steps)
    ensures |Count(steps, id, amount)| == |steps|
    ensures Get(Count(steps, id, amount)[i].counters, f) ==
            Get(steps[i].counters, f) + (if steps[i].id == id then Get(amount, f) else 0)
  {
    var k := FindStep(steps, id);
    if k < |steps| && steps[i].id == id {
      assert k == i;
    }
  }

  /** The counters of a step before an event; a step that it makes starts from nothing. */
  function CounterIn(steps: seq<StepRow>, i: nat, f: Field): int {
    if i < |steps| then Get(steps[i].counters, f) else 0
  }

  lemma PreparedCounter(t: Tables, x: string, named: string, i: nat, f: Field)
    requires i < |Prepared(t, x, named).steps|
    ensures Get(Prepared(t, x, named).steps[i].counters, f) == CounterIn(t.steps, i, f)
  {
  }

  lemma CountedIdsDiffer(steps: seq<StepRow>, id: string, amount: Totals)
    ensures RowIdsDiffer(Count(steps, id, amount)) <==> RowIdsDiffer(steps)
    ensures |Count(steps, id, amount)| == |steps|
  {
    CountKeepsRows(steps, id, amount);
    var counted := Count(steps, id, amount);
    assert forall i :: 0 <= i < |steps| ==> counted[i].id == steps[i].id;
  }

  lemma RuntimeCounters(t: Tables, x: string, named: string, u: Usage, reported: int, i: nat, f: Field)
    requires var e := RuntimeLlmCall(x, named, u, reported);
             i < |Apply(t, e).steps| && RowIdsDiffer(Apply(t, e).steps)
    ensures var e := RuntimeLlmCall(x, named, u, reported);
            Get(Apply(t, e).steps[i].counters, f) == CounterIn(t.steps, i, f) + Adds(e, Apply(t, e).steps[i].id, f)
  {
    RuntimeSteps(t, x, named, u, reported);
    if TokensOf(u, reported) != 0 {
      var steps, amount := Prepared(t, x, named).steps, CallTotals(u, TokensOf(u, reported));
      CountedIdsDiffer(steps, EffectiveStep(x, named), amount);
      CountKeepsRows(steps, EffectiveStep(x, named), amount);
      CountAt(steps, EffectiveStep(x, named), amount, i, f);
      PreparedCounter(t, x, named, i, f);
      AmountOfCall(LlmRow(x, named, u, TokensOf(u, reported)), f);
    }
  }

  lemma CountersAfter(t: Tables, e: Event, i: nat, f: Field)
    requires i < |Apply(t, e).steps|
    requires RowIdsDiffer(Apply(t, e).steps)
    requires RowIdsDiffer(t.steps)
    ensures Get(Apply(t, e).steps[i].counters, f) == CounterIn(t.steps, i, f) + Adds(e, Apply(t, e).steps[i].id, f)
  {
    match e
    case LlmCallCompleted(y, id, u) =>
      if id != "" {
        CountKeepsRows(t.steps, id, CallTotals(u, TokenSum(u)));
        CountAt(t.steps, id, CallTotals(u, TokenSum(u)), i, f);
        AmountOfCall(LlmRow(y, id, u, TokenSum(u)), f);
      }
    case ToolCall(_, id) =>
      CountKeepsRows(t.steps, id, ONE_TOOL_CALL);
      if id != "" { CountAt(t.steps, id, ONE_TOOL_CALL, i, f); }
    case RuntimeLlmCall(x, named, u, reported) => RuntimeCounters(t, x, named, u, reported, i, f);
    case _ =>
  }

  lemma {:induction false} NothingCounted(events: seq<Event>, id: string, f: Field)
    requires !Among(Births(events), id)
    ensures Counted(events, id, f) == 0
  {
    if events != [] {
      var front := events[..|events| - 1];
      if Among(Births(front), id) { BirthsGrow(events, id); }
      NothingCounted(front, id, f);
    }
  }

  /** In every run each counter of each step is what the calls that named it reported. */
  lemma {:induction false} StepShowsItsCalls(events: seq<Event>, i: nat, f: Field)
    requires i < |Run(events).steps|
    ensures Get(Run(events).steps[i].counters, f) == Counted(events, Run(events).steps[i].id, f)
  {
    var front, last := events[..|events| - 1], events[|events| - 1];
    StepsAreBirths(front);
    StepsAreBirths(events);
    BirthsDiffer(front);
    BirthsDiffer(events);
    assert Births(events)[i].id == Run(events).steps[i].id;
    CountersAfter(Run(front), last, i, f);
    if i < |Run(front).steps| {
      StepShowsItsCalls(front, i, f);
      StatusAfter(Run(front), last, i);
    } else {
      StepRows(Run(front), Births(front), last);
      NothingCounted(front, Run(events).steps[i].id, f);
    }
  }

  lemma PromptSnoc(rows: seq<LlmRow>, row: LlmRow, x: string)
    ensures PromptTokens(rows + [row], x) == PromptTokens(rows, x) + (if row.executionId == x then row.usage.prompt else 0)
    ensures CompletionTokens(rows + [row], x) == CompletionTokens(rows, x) + (if row.executionId == x then row.usage.completion else 0)
  {
    assert (rows + [row])[..|rows|] == rows;
  }

  lemma PromptAfter(t: Tables, e: Event, x: string)
    ensures PromptTokens(Apply(t, e).llm, x) == PromptTokens(t.llm, x) + (if CallsIn(e, x) then e.usage.prompt else 0)
    ensures CompletionTokens(Apply(t, e).llm, x) == CompletionTokens(t.llm, x) + (if CallsIn(e, x) then e.usage.completion else 0)
  {
    match e
    case LlmCallCompleted(y, id, u) => PromptSnoc(t.llm, LlmRow(y, id, u, TokenSum(u)), x);
    case RuntimeLlmCall(y, id, u, reported) =>
      RuntimeCallRows(t, y, id, u, reported);
      PromptSnoc(t.llm, LlmRow(y, EffectiveStep(y, id), u, TokensOf(u, reported)), x);
    case _ =>
  }

  lemma {:induction false} PromptsAreReports(events: seq<Event>, x: string)
    ensures PromptTokens(Run(events).llm, x) == Prompted(events, x)
    ensures CompletionTokens(Run(events).llm, x) == Answered(events, x)
  {
    if events != [] {
      PromptsAreReports(events[..|events| - 1], x);
      PromptAfter(Run(events[..|events| - 1]), events[|events| - 1], x);
    }
  }

  lemma {:induction false} CountsAreEnds(steps: seq<StepRow>, births: seq<Birth>, events: seq<Event>, x: string)
    requires RowsOf(steps, births)
    requires forall i :: 0 <= i < |steps| ==> steps[i].status == LastEnd(events, steps[i].id)
    ensures CountSteps(steps, x, ANY_STATUS) == MadeFor(births, x)
    ensures CountSteps(steps, x, {StepCompleted}) == EndedAs(births, events, x, StepCompleted)
    ensures CountSteps(steps, x, {StepFailed}) == EndedAs(births, events, x, StepFailed)
  {
    if steps != [] {
      CountsAreEnds(steps[..|steps| - 1], births[..|steps| - 1], events, x);
    }
  }

  /** What an execution shows when it ends: the outcome that was reported, how many steps were made
      for it and how many of them last completed or failed, and the sums of what its events
      reported. Nothing else matters, and no metrics. */
  lemma EndShowsHistory(events: seq<Event>, x: string, outcome: ExecutionStatus, metrics: Metrics)
    requires x in Known(events)
    ensures x in Apply(Run(events), ExecutionEnded(x, outcome, metrics)).executions
    ensures var shown := Apply(Run(events), ExecutionEnded(x, outcome, metrics)).executions[x];
            && shown.status == outcome
            && shown.totalSteps == MadeFor(Births(events), x)
            && shown.completedSteps == EndedAs(Births(events), events, x, StepCompleted)
            && shown.failedSteps == EndedAs(Births(events), events, x, StepFailed)
            && shown.promptTokens == Prompted(events, x) && shown.completionTokens == Answered(events, x)
            && shown.totals == Totals(
                 Reports(events, x, LlmCalls), Reports(events, x, ToolCalls), Reports(events, x, Tokens),
                 Reports(events, x, CacheRead), Reports(events, x, CacheWrite), Reports(events, x, Reasoning),
                 Reports(events, x, ReasoningChars), Reports(events, x, PromptChars), Reports(events, x, ResponseChars))
  {
    var t := Run(events);
    ExecutionsAreKnown(events);
    StepsAreBirths(events);
    forall i | 0 <= i < |t.steps| ensures t.steps[i].status == LastEnd(events, t.steps[i].id) {
      StepShowsLastEnd(events, i);
    }
    CountsAreEnds(t.steps, Births(events), events, x);
    PromptsAreReports(events, x);
    forall f ensures RowSum(t.llm, t.tools, x, f) == Reports(events, x, f) {
      RowsAreReports(events, x, f);
    }
  }

  /** Runtime calls of two executions without step ids share a step exactly if the executions'
      ids begin with the same sixteen characters, or are the same. */
  lemma RuntimeStepIsSharedIff(x: string, y: string)
    ensures RuntimeStepId(x) == RuntimeStepId(y) <==> x == y || (|x| >= 16 && |y| >= 16 && x[..16] == y[..16])
  {
    var a, b := if |x| <= 16 then x else x[..16], if |y| <= 16 then y else y[..16];
    SamePrefixSameRest("step-runtime-", a, b);
  }

  lemma SamePrefixSameRest(p: string, a: string, b: string)
    ensures p + a == p + b <==> a == b
  {
    assert (p + a)[|p|..] == a && (p + b)[|p|..] == b;
  }
}
