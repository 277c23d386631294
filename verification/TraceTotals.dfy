/** Incremental counters against totals recomputed from the rows. */
module TraceTotals {
  import opened TraceTables

  /** For every execution each counter of its steps adds up to what its call rows say. */
  ghost predicate Balanced(t: Tables) {
    forall e, f :: StepSum(t.steps, e, f) == RowSum(t.llm, t.tools, e, f)
  }

  predicate OwnsStep(steps: seq<StepRow>, e: string, id: string) {
    var i := FindStep(steps, id);
    i < |steps| && steps[i].executionId == e
  }

  /** A call event names a step that exists and belongs to its execution; a runtime call
      without a step id may also be the first of its execution's runtime step. */
  predicate NamesOwnStep(t: Tables, event: Event) {
    match event
    case LlmCallCompleted(e, id, _) => id == "" || OwnsStep(t.steps, e, id)
    case ToolCall(e, id) => id == "" || OwnsStep(t.steps, e, id)
    case RuntimeLlmCall(e, id, u, reported) =>
      EffectiveTokens(u, reported) == 0 || OwnsStep(Prepared(t, e, id).steps, e, EffectiveStep(e, id))
    case _ => true
  }

  lemma {:induction false} ChangedStep(steps: seq<StepRow>, i: nat, row: StepRow, e: string, f: Field)
    requires i < |steps| && row.executionId == steps[i].executionId
    ensures StepSum(steps[i := row], e, f) ==
            StepSum(steps, e, f) + (if row.executionId == e then Get(row.counters, f) - Get(steps[i].counters, f) else 0)
  {
    var n := |steps| - 1;
    var steps' := steps[i := row];
    if i == n {
      assert steps'[..n] == steps[..n];
    } else {
      assert steps'[..n] == steps[..n][i := row];
      ChangedStep(steps[..n], i, row, e, f);
    }
  }

  lemma AddedStep(steps: seq<StepRow>, row: StepRow, e: string, f: Field)
    ensures StepSum(steps + [row], e, f) == StepSum(steps, e, f) + (if row.executionId == e then Get(row.counters, f) else 0)
  {
    assert (steps + [row])[..|steps|] == steps;
  }

  lemma AddedCall(llm: seq<LlmRow>, row: LlmRow, e: string, f: Field)
    ensures CallSum(llm + [row], e, f) ==
            CallSum(llm, e, f) + (if row.executionId == e then Get(CallTotals(row.usage, row.tokens), f) else 0)
  {
    assert (llm + [row])[..|llm|] == llm;
  }

  lemma AddedTool(tools: seq<ToolRow>, row: ToolRow, e: string, f: Field)
    ensures ToolSum(tools + [row], e, f) == ToolSum(tools, e, f) + (if row.executionId == e then Get(ONE_TOOL_CALL, f) else 0)
  {
    assert (tools + [row])[..|tools|] == tools;
  }

  /** Where counting puts an amount. */
  lemma Counted(steps: seq<StepRow>, id: string, amount: Totals, e: string, f: Field)
    ensures StepSum(Count(steps, id, amount), e, f) ==
            StepSum(steps, e, f) + (if OwnsStep(steps, e, id) then Get(amount, f) else 0)
  {
    var i := FindStep(steps, id);
    if i < |steps| {
      ChangedStep(steps, i, steps[i].(counters := Plus(steps[i].counters, amount)), e, f);
    }
  }

  /** `t'` has one more call row for `e`, of this amount. */
  ghost predicate RowAdded(t: Tables, t': Tables, e: string, amount: Totals) {
    forall x, f :: RowSum(t'.llm, t'.tools, x, f) == RowSum(t.llm, t.tools, x, f) + (if x == e then Get(amount, f) else 0)
  }

  /** A call that names its own step keeps the balance; one that does not destroys it. */
  lemma CallBalance(t: Tables, t': Tables, e: string, id: string, amount: Totals)
    requires Balanced(t) && (Get(amount, LlmCalls) != 0 || Get(amount, ToolCalls) != 0)
    requires t'.steps == Count(t.steps, id, amount) && RowAdded(t, t', e, amount)
    ensures Balanced(t') <==> OwnsStep(t.steps, e, id)
  {
    forall x, f ensures StepSum(t'.steps, x, f) ==
      StepSum(t.steps, x, f) + (if OwnsStep(t.steps, x, id) then Get(amount, f) else 0)
    {
      Counted(t.steps, id, amount, x, f);
    }
    if !OwnsStep(t.steps, e, id) {
      var f := if Get(amount, LlmCalls) != 0 then LlmCalls else ToolCalls;
      assert StepSum(t'.steps, e, f) != RowSum(t'.llm, t'.tools, e, f);
    }
  }

  lemma CallRowAdded(t: Tables, t': Tables, row: LlmRow)
    requires t'.llm == t.llm + [row] && t'.tools == t.tools
    ensures RowAdded(t, t', row.executionId, CallTotals(row.usage, row.tokens))
  {
    forall x, f ensures RowSum(t'.llm, t'.tools, x, f) == RowSum(t.llm, t.tools, x, f) +
      (if x == row.executionId then Get(CallTotals(row.usage, row.tokens), f) else 0)
    {
      AddedCall(t.llm, row, x, f);
    }
  }

  lemma ToolRowAdded(t: Tables, t': Tables, row: ToolRow)
    requires t'.llm == t.llm && t'.tools == t.tools + [row]
    ensures RowAdded(t, t', row.executionId, ONE_TOOL_CALL)
  {
    forall x, f ensures RowSum(t'.llm, t'.tools, x, f) == RowSum(t.llm, t.tools, x, f) +
      (if x == row.executionId then Get(ONE_TOOL_CALL, f) else 0)
    {
      AddedTool(t.tools, row, x, f);
    }
  }

  lemma NewStepBalance(t: Tables, e: string, id: string)
    requires Balanced(t)
    ensures Balanced(WithStep(t, e, id))
  {
    forall x, f ensures StepSum(WithStep(t, e, id).steps, x, f) == StepSum(t.steps, x, f) {
      AddedStep(t.steps, StepRow(id, e, StepPending, NOTHING), x, f);
    }
  }

  lemma StatusBalance(t: Tables, id: string, status: StepStatus)
    requires Balanced(t)
    ensures Balanced(t.(steps := SetStatus(t.steps, id, status)))
  {
    var i := FindStep(t.steps, id);
    if i < |t.steps| {
      forall x, f ensures StepSum(SetStatus(t.steps, id, status), x, f) == StepSum(t.steps, x, f) {
        ChangedStep(t.steps, i, t.steps[i].(status := status), x, f);
      }
    }
  }

  lemma RuntimeCallBalance(t: Tables, e: string, id: string, u: Usage, reported: int)
    requires Balanced(t) && EffectiveTokens(u, reported) != 0
    ensures var t' := Apply(t, RuntimeLlmCall(e, id, u, reported));
            Balanced(t') <==> OwnsStep(Prepared(t, e, id).steps, e, EffectiveStep(e, id))
  {
    var t' := Apply(t, RuntimeLlmCall(e, id, u, reported));
    var p := Prepared(t, e, id);
    NewStepBalance(WithExecution(t, e), e, RuntimeStepId(e));
    var tokens := EffectiveTokens(u, reported);
    CallRowAdded(p, t', LlmRow(e, EffectiveStep(e, id), u, tokens));
    CallBalance(p, t', e, EffectiveStep(e, id), CallTotals(u, tokens));
  }

  /** Exactly the events that name no foreign or missing step keep the balance. */
  lemma StepKeepsBalanceIff(t: Tables, event: Event)
    requires Balanced(t)
    ensures Balanced(Apply(t, event)) <==> NamesOwnStep(t, event)
  {
    var t' := Apply(t, event);
    match event
    case ExecutionStarted(_) =>
    case ExecutionEnded(_, _, _) =>
    case StepStarted(e, id) => NewStepBalance(t, e, id);
    case StepEnded(id, outcome) => StatusBalance(t, id, outcome);
    case LlmCallCompleted(e, id, u) =>
      if id != "" {
        CallRowAdded(t, t', LlmRow(e, id, u, TokenSum(u)));
        CallBalance(t, t', e, id, CallTotals(u, TokenSum(u)));
      }
    case RuntimeLlmCall(e, id, u, reported) =>
      if EffectiveTokens(u, reported) != 0 {
        RuntimeCallBalance(t, e, id, u, reported);
      }
    case ToolCall(e, id) =>
      if id != "" {
        ToolRowAdded(t, t', ToolRow(e, id));
        CallBalance(t, t', e, id, ONE_TOOL_CALL);
      }
  }

  /** A run in which every call names a step of its own execution. */
  predicate AllOwned(events: seq<Event>) {
    events == [] ||
    (AllOwned(events[..|events| - 1]) && NamesOwnStep(Run(events[..|events| - 1]), events[|events| - 1]))
  }

  lemma {:induction false} OwnedRunsBalance(events: seq<Event>)
    requires AllOwned(events)
    ensures Balanced(Run(events))
  {
    if events != [] {
      OwnedRunsBalance(events[..|events| - 1]);
      StepKeepsBalanceIff(Run(events[..|events| - 1]), events[|events| - 1]);
    }
  }

  lemma EndedTotals(t: Tables, e: string, outcome: ExecutionStatus, metrics: Metrics, f: Field)
    requires Balanced(t) && e in t.executions
    ensures var t' := Apply(t, ExecutionEnded(e, outcome, metrics));
            Get(t'.executions[e].totals, f) == StepSum(t'.steps, e, f) == RowSum(t'.llm, t'.tools, e, f)
  {
  }

  /** What the worker reported at the end makes no difference to the tables. */
  lemma MetricsAreOverwritten(t: Tables, e: string, outcome: ExecutionStatus, metrics: Metrics, other: Metrics)
    ensures Apply(t, ExecutionEnded(e, outcome, metrics)) == Apply(t, ExecutionEnded(e, outcome, other))
  {
    if e in t.executions {
      var a := t.(executions := t.executions[e := Reported(t.executions[e], outcome, metrics)]);
      var b := t.(executions := t.executions[e := Reported(t.executions[e], outcome, other)]);
      assert Refreshed(a.executions[e], t.steps, t.llm, t.tools, e) == Refreshed(b.executions[e], t.steps, t.llm, t.tools, e);
    }
  }

  /** At the end of an execution its stored totals are the sums of its steps' counters and of
      its call rows, whatever the worker reported. */
  lemma TotalsAtExecutionEnd(events: seq<Event>, e: string, outcome: ExecutionStatus, metrics: Metrics, f: Field)
    requires AllOwned(events) && e in Run(events).executions
    ensures var t := Apply(Run(events), ExecutionEnded(e, outcome, metrics));
            Get(t.executions[e].totals, f) == StepSum(t.steps, e, f) == RowSum(t.llm, t.tools, e, f)
  {
    OwnedRunsBalance(events);
    EndedTotals(Run(events), e, outcome, metrics, f);
  }

  /** The refresh inside a runtime call does not see the row of that call: right after it the
      totals of the execution lack exactly this call. */
  lemma RuntimeCallLags(t: Tables, e: string, id: string, u: Usage, reported: int, f: Field)
    requires e in t.executions && EffectiveTokens(u, reported) != 0
    ensures var t' := Apply(t, RuntimeLlmCall(e, id, u, reported));
            RowSum(t'.llm, t'.tools, e, f) ==
            Get(t'.executions[e].totals, f) + Get(CallTotals(u, EffectiveTokens(u, reported)), f)
  {
    var row := LlmRow(e, EffectiveStep(e, id), u, EffectiveTokens(u, reported));
    AddedCall(t.llm, row, e, f);
    var p := Prepared(t, e, id);
    assert p.llm == t.llm && p.tools == t.tools && e in p.executions;
  }

  // ---------------------------------------------------------------------------
  // Step counts
  // ---------------------------------------------------------------------------

  lemma {:induction false} EndedStepsAreSteps(steps: seq<StepRow>, e: string)
    ensures CountSteps(steps, e, {StepCompleted}) + CountSteps(steps, e, {StepFailed}) <= CountSteps(steps, e, ANY_STATUS)
  {
    if steps != [] {
      EndedStepsAreSteps(steps[..|steps| - 1], e);
    }
  }

  predicate CountsAgree(x: Execution) {
    0 <= x.completedSteps && 0 <= x.failedSteps && x.completedSteps + x.failedSteps <= x.totalSteps
  }

  ghost predicate StepCountsAgree(t: Tables) {
    forall e :: e in t.executions ==> CountsAgree(t.executions[e])
  }

  lemma RefreshAgrees(t: Tables, e: string)
    requires forall x :: x in t.executions && x != e ==> CountsAgree(t.executions[x])
    ensures StepCountsAgree(Refresh(t, e))
  {
    EndedStepsAreSteps(t.steps, e);
  }

  lemma ApplyAgrees(t: Tables, event: Event)
    requires StepCountsAgree(t)
    ensures StepCountsAgree(Apply(t, event))
  {
    match event
    case ExecutionEnded(e, outcome, metrics) =>
      if e in t.executions {
        RefreshAgrees(t.(executions := t.executions[e := Reported(t.executions[e], outcome, metrics)]), e);
      }
    case RuntimeLlmCall(e, id, u, reported) =>
      var p := Prepared(t, e, id);
      assert StepCountsAgree(p);
      RefreshAgrees(p.(steps := Count(p.steps, EffectiveStep(e, id), CallTotals(u, EffectiveTokens(u, reported)))), e);
    case _ =>
  }

  /** In every run, whatever the workers report, no execution shows more completed and failed
      steps than steps. */
  lemma {:induction false} StepCountsAlwaysAgree(events: seq<Event>)
    ensures StepCountsAgree(Run(events))
  {
    if events != [] {
      StepCountsAlwaysAgree(events[..|events| - 1]);
      ApplyAgrees(Run(events[..|events| - 1]), events[|events| - 1]);
    }
  }
}
