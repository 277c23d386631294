/** The trace tables as one session changes them. What a session adds becomes visible to
    queries when it is flushed; the fields of rows already loaded change at once. */
module TraceStore {
  import opened TraceTables

  class TraceStore {
    var executions: map<string, Execution>
    var steps: seq<StepRow>
    var llm: seq<LlmRow>
    var tools: seq<ToolRow>

    function View(): Tables
      reads this
    {
      Tables(executions, steps, llm, tools)
    }

    constructor ()
      ensures View() == EMPTY
    {
      executions, steps, llm, tools := map[], [], [], [];
    }

    method GetOrCreateExecution(e: string)
      modifies this`executions
      ensures View() == WithExecution(old(View()), e)
    {
      if e !in executions {
        executions := executions[e := NEW_EXECUTION];
      }
    }

    method LookUpStep(id: string) returns (i: nat)
      ensures i == FindStep(steps, id)
    {
      i := 0;
      while i < |steps| && steps[i].id != id
        invariant i <= |steps|
        invariant FindStep(steps, id) == i + FindStep(steps[i..], id)
      {
        assert steps[i..][1..] == steps[i + 1..];
        i := i + 1;
      }
    }

    method GetOrCreateStep(e: string, id: string)
      modifies this`steps
      ensures View() == WithStep(old(View()), e, id)
    {
      var i := LookUpStep(id);
      if i == |steps| {
        steps := steps + [StepRow(id, e, StepPending, NOTHING)];
      }
    }

    method AddToStep(id: string, amount: Totals)
      modifies this`steps
      ensures steps == Count(old(steps), id, amount)
    {
      var i := LookUpStep(id);
      if i < |steps| {
        steps := steps[i := steps[i].(counters := Plus(steps[i].counters, amount))];
      }
    }

    /** `refresh_execution_aggregates`; the queries see the rows in `seen` and no pending one. */
    method RefreshAggregates(e: string, seen: seq<LlmRow>)
      requires e in executions
      modifies this`executions
      ensures executions == old(executions)[e := Refreshed(old(executions)[e], steps, seen, tools, e)]
    {
      var total, completed, failed := CountStepRows(e);
      var prompt, completion, sums := SumCallRows(e, seen);
      var i := 0;
      while i < |tools|
        invariant i <= |tools|
        invariant forall f :: Get(sums, f) == RowSum(seen, tools[..i], e, f)
      {
        assert tools[..i + 1][..i] == tools[..i];
        if tools[i].executionId == e {
          sums := Plus(sums, ONE_TOOL_CALL);
        }
        i := i + 1;
      }
      assert tools[..i] == tools;
      SameTotals(sums, Recomputed(seen, tools, e));
      executions := executions[e := Execution(executions[e].status, total, completed, failed, prompt, completion, sums)];
    }

    method CountStepRows(e: string) returns (total: nat, completed: nat, failed: nat)
      ensures total == CountSteps(steps, e, ANY_STATUS)
      ensures completed == CountSteps(steps, e, {StepCompleted})
      ensures failed == CountSteps(steps, e, {StepFailed})
    {
      var i := 0;
      total, completed, failed := 0, 0, 0;
      while i < |steps|
        invariant i <= |steps|
        invariant total == CountSteps(steps[..i], e, ANY_STATUS)
        invariant completed == CountSteps(steps[..i], e, {StepCompleted})
        invariant failed == CountSteps(steps[..i], e, {StepFailed})
      {
        assert steps[..i + 1][..i] == steps[..i];
        if steps[i].executionId == e {
          total := total + 1;
          if steps[i].status == StepCompleted { completed := completed + 1; }
          if steps[i].status == StepFailed { failed := failed + 1; }
        }
        i := i + 1;
      }
      assert steps[..i] == steps;
    }

    static method SumCallRows(e: string, seen: seq<LlmRow>) returns (prompt: int, completion: int, sums: Totals)
      ensures prompt == PromptTokens(seen, e) && completion == CompletionTokens(seen, e)
      ensures forall f :: Get(sums, f) == CallSum(seen, e, f)
    {
      var i := 0;
      prompt, completion, sums := 0, 0, NOTHING;
      while i < |seen|
        invariant i <= |seen|
        invariant prompt == PromptTokens(seen[..i], e) && completion == CompletionTokens(seen[..i], e)
        invariant forall f :: Get(sums, f) == CallSum(seen[..i], e, f)
      {
        assert seen[..i + 1][..i] == seen[..i];
        var row := seen[i];
        if row.executionId == e {
          prompt, completion := prompt + row.usage.prompt, completion + row.usage.completion;
          sums := Plus(sums, CallTotals(row.usage, row.tokens));
        }
        i := i + 1;
      }
      assert seen[..i] == seen;
    }

    /** Refreshes an execution if there is one, while the rows behind `seen` are pending. */
    method RefreshIfPresent(e: string, seen: seq<LlmRow>)
      modifies this`executions
      ensures View() == Refresh(old(View()).(llm := seen), e).(llm := llm)
    {
      if e in executions {
        RefreshAggregates(e, seen);
      }
    }

    method EndExecution(e: string, outcome: ExecutionStatus, metrics: Metrics)
      modifies this
      ensures View() == Apply(old(View()), ExecutionEnded(e, outcome, metrics))
    {
      if e in executions {
        executions := executions[e := Reported(executions[e], outcome, metrics)];
        RefreshAggregates(e, llm);
      }
    }

    /** The step a runtime call is counted under, made if the call names none. */
    method RuntimeStep(e: string, stepId: string) returns (step: string)
      modifies this
      ensures View() == Prepared(old(View()), e, stepId) && step == EffectiveStep(e, stepId)
    {
      if stepId != "" { return stepId; }
      step := RuntimeStepId(e);
      var i := LookUpStep(step);
      if i == |steps| {
        GetOrCreateExecution(e);
        GetOrCreateStep(e, step);
      }
    }

    /** A call that a runtime reports. */
    method RecordRuntimeCall(e: string, stepId: string, u: Usage, reported: int)
      modifies this
      ensures View() == Apply(old(View()), RuntimeLlmCall(e, stepId, u, reported))
    {
      var tokens := if reported != 0 then reported else TokenSum(u);
      if tokens == 0 { return; }
      var step := RuntimeStep(e, stepId);
      CountRuntimeCall(e, step, u, tokens);
    }

    /** The row of the call stays pending while the totals are refreshed. */
    method CountRuntimeCall(e: string, step: string, u: Usage, tokens: int)
      modifies this
      ensures var counted := old(View()).(steps := Count(old(steps), step, CallTotals(u, tokens)));
              View() == Refresh(counted, e).(llm := old(llm) + [LlmRow(e, step, u, tokens)])
    {
      var flushed := llm;
      llm := llm + [LlmRow(e, step, u, tokens)];
      AddToStep(step, CallTotals(u, tokens));
      RefreshIfPresent(e, flushed);
    }

    /** `_upsert_from_event` */
    method UpsertFromEvent(event: Event)
      modifies this
      ensures View() == Apply(old(View()), event)
    {
      match event
      case ExecutionStarted(e) =>
        GetOrCreateExecution(e);
      case ExecutionEnded(e, outcome, metrics) =>
        EndExecution(e, outcome, metrics);
      case StepStarted(e, id) =>
        if id != "" { GetOrCreateStep(e, id); }
      case StepEnded(id, outcome) =>
        if id != "" {
          var i := LookUpStep(id);
          if i < |steps| { steps := steps[i := steps[i].(status := outcome)]; }
        }
      case LlmCallCompleted(e, id, u) =>
        if id != "" {
          llm := llm + [LlmRow(e, id, u, TokenSum(u))];
          AddToStep(id, CallTotals(u, TokenSum(u)));
        }
      case RuntimeLlmCall(e, id, u, reported) =>
        RecordRuntimeCall(e, id, u, reported);
      case ToolCall(e, id) =>
        if id != "" {
          tools := tools + [ToolRow(e, id)];
          AddToStep(id, ONE_TOOL_CALL);
        }
    }
  }

  /** Totals with the same fields are the same. */
  lemma SameTotals(a: Totals, b: Totals)
    requires forall f :: Get(a, f) == Get(b, f)
    ensures a == b
  {
    assert Get(a, LlmCalls) == Get(b, LlmCalls) && Get(a, ToolCalls) == Get(b, ToolCalls) && Get(a, Tokens) == Get(b, Tokens);
    assert Get(a, CacheRead) == Get(b, CacheRead) && Get(a, CacheWrite) == Get(b, CacheWrite) && Get(a, Reasoning) == Get(b, Reasoning);
    assert Get(a, ReasoningChars) == Get(b, ReasoningChars);
    assert Get(a, PromptChars) == Get(b, PromptChars) && Get(a, ResponseChars) == Get(b, ResponseChars);
  }
}
