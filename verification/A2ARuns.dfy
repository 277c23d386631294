/** What holds in every interleaving of sends, streams, gets and purges. */
module A2ARuns {
  import opened Wrappers
  import opened PythonText
  import opened Wording
  import opened A2ATask
  import opened A2AProtocol

  lemma RunConcat(start: State, a: seq<Event>, b: seq<Event>)
    ensures Run(start, a + b) == Run(Run(start, a), b)
    ensures Valid(start, a + b) <==> Valid(start, a) && Valid(Run(start, a), b)
  {
    if b == [] {
      assert a + b == a;
    } else {
      var init := b[..|b| - 1];
      RunConcat(start, a, init);
      assert (a + b)[..|a + b| - 1] == a + init;
    }
  }

  /** Single flight, WORKING while in flight, artifacts that mirror the text, unique message
      ids: in every reachable state. And from any of them onwards, contexts stay, histories
      grow only at the end, and what was touched within the retention time is still found. */
  lemma {:induction false} RunKeepsInv(start: State, events: seq<Event>)
    requires Inv(start) && Valid(start, events)
    ensures Inv(Run(start, events))
    ensures Advances(start, Run(start, events))
  {
    if events != [] {
      var init := events[..|events| - 1];
      RunKeepsInv(start, init);
      StepKeepsInv(Run(start, init), events[|events| - 1]);
      AdvancesIsTransitive(start, Run(start, init), Run(start, events));
    }
  }

  lemma ReachableInv(retention: nat, now: int, events: seq<Event>)
    requires Valid(Init(retention, now), events)
    ensures Inv(Run(Init(retention, now), events))
  {
    RunKeepsInv(Init(retention, now), events);
  }

  /** The only state in which the gateway takes another message for a task. */
  lemma AdmittedOnlyWhenInterrupted(s: State, k: TaskKey, contextId: string)
    requires Inv(s)
    ensures Admit(Contents(s), k, contextId) == Accepted <==>
            k in s.stored && s.tasks[k].status.state == AuthRequired
            && (contextId == "" || contextId == s.tasks[k].contextId)
    ensures Admit(Contents(s), k, contextId) == Accepted ==> Idle(s, k) && s.tasks[k].artifactText == ""
  {
    if k in s.stored && k in s.tasks {
      assert Settled(s.tasks[k]);
      assert Contents(s)[k] == s.tasks[k];
    }
  }

  // ---------------------------------------------------------------------------
  // Tasks that nothing changes any more
  // ---------------------------------------------------------------------------

  /** No invocation on it, and not waiting for the caller. Such a task has completed,
      failed or been rejected, or its stream fell silent and left it WORKING. */
  ghost predicate Finished(s: State, k: TaskKey) {
    k in s.tasks && Idle(s, k) && s.tasks[k].status.state != AuthRequired
  }

  lemma TerminalIsFinished(s: State, k: TaskKey)
    requires Inv(s) && k in s.tasks && Terminal(s.tasks[k].status.state)
    ensures Finished(s, k)
  {
  }

  lemma StartLeavesOthers(s: State, j: TaskKey, streaming: bool, messageId: string, text: string, k: TaskKey)
    requires j in s.tasks && k != j && k in s.tasks && Idle(s, k)
    ensures Idle(Start(s, j, streaming, messageId, text), k) && k in Start(s, j, streaming, messageId, text).tasks
    ensures Start(s, j, streaming, messageId, text).tasks[k] == s.tasks[k]
  {
  }

  /** A message for the task is taken. */
  predicate TakesMessage(s: State, e: Event, k: TaskKey) {
    e.SendExisting? && e.key == k && Admit(Contents(Purge(s)), k, e.contextId) == Accepted
  }

  /** A task without an invocation is changed by nothing else. */
  lemma IdleStep(s: State, e: Event, k: TaskKey)
    requires Inv(s) && Enabled(s, e) && k in s.tasks && Idle(s, k) && !TakesMessage(s, e, k)
    ensures k in Apply(s, e).tasks && Idle(Apply(s, e), k) && Apply(s, e).tasks[k] == s.tasks[k]
  {
    var p := Purge(s);
    match e
    case SendNew(j, streaming, contextId, references, freshContext, threadId, messageId, text) =>
      var context := ResolveContext(Contents(p), j, contextId, references, freshContext);
      StartLeavesOthers(Create(p, j, context, threadId), j, streaming, messageId, text, k);
    case SendExisting(j, streaming, contextId, messageId, text) =>
      if Admit(Contents(p), j, contextId) == Accepted {
        StartLeavesOthers(p, j, streaming, messageId, text, k);
      }
    case Handle(c, action) => ActShape(s, c, action); CallsShrink(s, c, action);
    case _ =>
  }

  lemma FinishedStep(s: State, e: Event, k: TaskKey)
    requires Inv(s) && Enabled(s, e) && Finished(s, k)
    ensures Finished(Apply(s, e), k) && Apply(s, e).tasks[k] == s.tasks[k]
  {
    PurgeKeepsInv(s);
    if e.SendExisting? {
      AdmittedOnlyWhenInterrupted(Purge(s), k, e.contextId);
    }
    IdleStep(s, e, k);
  }

  /** COMPLETED, FAILED and REJECTED are final: status, history, text and context of the
      record never change again, whatever else happens. The same goes for a task that was
      left WORKING with no invocation on it. */
  lemma {:induction false} FinishedForever(s: State, events: seq<Event>, k: TaskKey)
    requires Inv(s) && Valid(s, events) && Finished(s, k)
    ensures Finished(Run(s, events), k) && Run(s, events).tasks[k] == s.tasks[k]
  {
    if events != [] {
      var init := events[..|events| - 1];
      FinishedForever(s, init, k);
      RunKeepsInv(s, init);
      FinishedStep(Run(s, init), events[|events| - 1], k);
    }
  }

  // ---------------------------------------------------------------------------
  // Streamed text
  // ---------------------------------------------------------------------------

  /** The deltas an invocation received, in order. */
  function DeltasOf(events: seq<Event>, c: nat): seq<string> {
    if events == [] then [] else
    var last := events[|events| - 1];
    DeltasOf(events[..|events| - 1], c) +
      (if last.Handle? && last.call == c && last.action.DeltaRead? then [last.action.delta] else [])
  }

  /** The text of an invocation: what the record holds, or what is about to be written. */
  function TextOf(s: State, c: nat): string
    requires c in s.calls && s.calls[c].key in s.tasks
  {
    if s.calls[c].pending.Some? then s.calls[c].pending.value else s.tasks[s.calls[c].key].artifactText
  }

  ghost predicate TextIsDeltas(s: State, events: seq<Event>) {
    && (forall c :: c in s.calls && s.calls[c].streaming && s.calls[c].key in s.tasks ==>
          TextOf(s, c) == Concat(DeltasOf(events, c)))
    && (forall c: nat :: c >= s.nextCall ==> DeltasOf(events, c) == [])
  }

  /** An invocation starts without text. */
  lemma StartHasNoText(s: State, k: TaskKey, streaming: bool, messageId: string, text: string, events: seq<Event>)
    requires AlmostInv(s, k) && k in s.tasks && Idle(s, k) && s.tasks[k].artifactText == ""
    requires TextIsDeltas(s, events)
    ensures TextIsDeltas(Start(s, k, streaming, messageId, text), events)
  {
    BeginWorkSettles(s.tasks[k], messageId, text, s.now);
    StoreAdvances(s, k, BeginWork(s.tasks[k], messageId, text, s.now));
    var s' := Start(s, k, streaming, messageId, text);
    assert s'.tasks[k].artifactText == "";
    forall c | c in s'.calls && s'.calls[c].streaming && s'.calls[c].key in s'.tasks
      ensures TextOf(s', c) == Concat(DeltasOf(events, c))
    {
      if c != s.nextCall {
        assert s'.calls[c] == s.calls[c] && s'.tasks[s.calls[c].key] == s.tasks[s.calls[c].key];
        assert TextOf(s', c) == TextOf(s, c);
      }
    }
  }

  lemma CreateKeepsTexts(s: State, k: TaskKey, contextId: string, threadId: string, events: seq<Event>)
    requires Inv(s) && k !in s.tasks && TextIsDeltas(s, events)
    ensures TextIsDeltas(Create(s, k, contextId, threadId), events)
    ensures Create(s, k, contextId, threadId).tasks[k].artifactText == ""
  {
    var s' := Create(s, k, contextId, threadId);
    forall c | c in s'.calls && s'.calls[c].streaming
      ensures TextOf(s', c) == Concat(DeltasOf(events, c))
    {
      assert s'.calls[c] == s.calls[c] && s'.tasks[s.calls[c].key] == s.tasks[s.calls[c].key];
      assert TextOf(s', c) == TextOf(s, c);
    }
  }

  lemma DeltasSnoc(events: seq<Event>, e: Event, c: nat)
    ensures DeltasOf(events + [e], c) == DeltasOf(events, c) +
              (if e.Handle? && e.call == c && e.action.DeltaRead? then [e.action.delta] else [])
  {
    assert (events + [e])[..|events + [e]| - 1] == events;
  }

  /** The texts of the other invocations are on other records. */
  lemma ActKeepsOtherText(s: State, c: nat, action: Action, events: seq<Event>, d: nat)
    requires Inv(s) && c in s.calls && Ready(s.calls[c], action) && TextIsDeltas(s, events)
    requires d != c && d in s.calls && s.calls[d].streaming
    ensures s.calls[d].key in Act(s, c, action).tasks && d in Act(s, c, action).calls
    ensures TextOf(Act(s, c, action), d) == Concat(DeltasOf(events + [Handle(c, action)], d))
  {
    ActShape(s, c, action);
    CallsShrink(s, c, action);
    DeltasSnoc(events, Handle(c, action), d);
    assert s.calls[d].key != s.calls[c].key;
    assert TextOf(Act(s, c, action), d) == TextOf(s, d);
    assert DeltasOf(events, d) + [] == DeltasOf(events, d);
  }

  /** The acting invocation appends its delta or writes what it computed. */
  lemma ActExtendsOwnText(s: State, c: nat, action: Action, events: seq<Event>)
    requires Inv(s) && c in s.calls && Ready(s.calls[c], action) && TextIsDeltas(s, events)
    requires s.calls[c].streaming && c in Act(s, c, action).calls
    ensures s.calls[c].key in Act(s, c, action).tasks && Act(s, c, action).calls[c].key == s.calls[c].key
    ensures TextOf(Act(s, c, action), c) == Concat(DeltasOf(events + [Handle(c, action)], c))
  {
    var s' := Act(s, c, action);
    ActShape(s, c, action);
    DeltasSnoc(events, Handle(c, action), c);
    if action.DeltaRead? {
      ConcatSnoc(DeltasOf(events, c), action.delta);
      assert TextOf(s, c) == s.tasks[s.calls[c].key].artifactText;
      assert TextOf(s', c) == TextOf(s, c) + action.delta;
    } else {
      assert action.DeltaWrite?;
      assert s'.tasks[s.calls[c].key].artifactText == s.calls[c].pending.value;
      assert DeltasOf(events, c) + [] == DeltasOf(events, c);
    }
  }

  lemma ActKeepsTexts(s: State, c: nat, action: Action, events: seq<Event>)
    requires Inv(s) && c in s.calls && Ready(s.calls[c], action) && TextIsDeltas(s, events)
    ensures TextIsDeltas(Act(s, c, action), events + [Handle(c, action)])
  {
    var s' := Act(s, c, action);
    var events' := events + [Handle(c, action)];
    CallsShrink(s, c, action);
    forall d | d in s'.calls && s'.calls[d].streaming && s'.calls[d].key in s'.tasks
      ensures TextOf(s', d) == Concat(DeltasOf(events', d))
    {
      if d != c {
        ActKeepsOtherText(s, c, action, events, d);
      } else {
        ActExtendsOwnText(s, c, action, events);
      }
    }
    forall d: nat | d >= s'.nextCall ensures DeltasOf(events', d) == [] {
      ActShape(s, c, action);
      DeltasSnoc(events, Handle(c, action), d);
    }
  }

  lemma OtherEventsKeepDeltas(s: State, events: seq<Event>, e: Event)
    requires TextIsDeltas(s, events) && !e.Handle?
    ensures TextIsDeltas(s, events + [e])
  {
    forall c: nat ensures DeltasOf(events + [e], c) == DeltasOf(events, c) {
      DeltasSnoc(events, e, c);
    }
  }

  lemma PurgeKeepsTexts(s: State, events: seq<Event>)
    requires Inv(s) && TextIsDeltas(s, events)
    ensures TextIsDeltas(Purge(s), events)
  {
    forall c | c in s.calls && s.calls[c].streaming
      ensures TextOf(Purge(s), c) == Concat(DeltasOf(events, c))
    {
      assert TextOf(Purge(s), c) == TextOf(s, c);
    }
  }

  lemma TextStep(s: State, e: Event, events: seq<Event>)
    requires Inv(s) && Enabled(s, e) && TextIsDeltas(s, events)
    ensures TextIsDeltas(Apply(s, e), events + [e])
  {
    var p := Purge(s);
    PurgeKeepsInv(s);
    PurgeKeepsTexts(s, events);
    match e
    case Tick(elapsed) =>
      var s' := s.(now := s.now + elapsed);
      assert forall c :: c in s.calls && s.calls[c].key in s.tasks ==> TextOf(s', c) == TextOf(s, c);
      OtherEventsKeepDeltas(s', events, e);
    case Get(_) => OtherEventsKeepDeltas(p, events, e);
    case SendNew(k, streaming, contextId, references, freshContext, threadId, messageId, text) =>
      var context := ResolveContext(Contents(p), k, contextId, references, freshContext);
      CreateAlmostInv(p, k, context, threadId);
      CreateKeepsTexts(p, k, context, threadId, events);
      StartHasNoText(Create(p, k, context, threadId), k, streaming, messageId, text, events);
      OtherEventsKeepDeltas(Apply(s, e), events, e);
    case SendExisting(k, streaming, contextId, messageId, text) =>
      AdmittedOnlyWhenInterrupted(p, k, contextId);
      if Admit(Contents(p), k, contextId) == Accepted {
        StartHasNoText(p, k, streaming, messageId, text, events);
      }
      OtherEventsKeepDeltas(Apply(s, e), events, e);
    case Handle(c, action) => ActKeepsTexts(s, c, action, events);
  }

  lemma {:induction false} TextsAreDeltas(retention: nat, now: int, events: seq<Event>)
    requires Valid(Init(retention, now), events)
    ensures TextIsDeltas(Run(Init(retention, now), events), events)
  {
    if events != [] {
      var init := events[..|events| - 1];
      TextsAreDeltas(retention, now, init);
      ReachableInv(retention, now, init);
      TextStep(Run(Init(retention, now), init), events[|events| - 1], init);
      assert events == init + [events[|events| - 1]];
    }
  }

  /** A streamed task that ends COMPLETED carries the concatenation of all its deltas, in its
      text and in its artifact, then and after any continuation of the run. */
  lemma StreamedTextIsLossless(retention: nat, now: int, events: seq<Event>, c: nat, status: string, replyId: string, more: seq<Event>)
    requires var s := Run(Init(retention, now), events);
             Valid(Init(retention, now), events) && Enabled(s, Handle(c, StreamCompleted(status, replyId))) &&
             Valid(Apply(s, Handle(c, StreamCompleted(status, replyId))), more)
    requires Spells(status, "completed")
    ensures var s := Run(Init(retention, now), events);
            var end := Run(Apply(s, Handle(c, StreamCompleted(status, replyId))), more);
            && s.calls[c].key in end.tasks
            && end.tasks[s.calls[c].key].artifactText == Concat(DeltasOf(events, c))
            && end.tasks[s.calls[c].key].artifacts == NonEmpty(Concat(DeltasOf(events, c)))
            && end.tasks[s.calls[c].key].status == Status(Completed, None)
            && s.calls[c].key in s.tasks
            && (Concat(DeltasOf(events, c)) != "" && !HasMessage(s.tasks[s.calls[c].key].history, replyId) ==>
                end.tasks[s.calls[c].key].history ==
                s.tasks[s.calls[c].key].history + [Message(replyId, Agent, Concat(DeltasOf(events, c)))])
  {
    WordsTell(status);
    var s := Run(Init(retention, now), events);
    var e := Handle(c, StreamCompleted(status, replyId));
    ReachableInv(retention, now, events);
    TextsAreDeltas(retention, now, events);
    StepKeepsInv(s, e);
    var k := s.calls[c].key;
    assert k in s.tasks;
    ActShape(s, c, e.action);
    CompleteStreamSettles(s.tasks[k], status, replyId, s.now);
    var s' := Apply(s, e);
    assert TextOf(s, c) == s.tasks[k].artifactText;
    TerminalIsFinished(s', k);
    FinishedForever(s', more, k);
    assert Settled(s'.tasks[k]);
  }

  /** What an invocation leaves in a final state is there after any continuation. */
  lemma OutcomeIsFinal(s: State, c: nat, action: Action, more: seq<Event>)
    requires Inv(s) && Enabled(s, Handle(c, action)) && Valid(Apply(s, Handle(c, action)), more)
    requires Terminal(Written(s, c, action).status.state)
    ensures var k := s.calls[c].key;
            var end := Run(Apply(s, Handle(c, action)), more);
            k in end.tasks && end.tasks[k] == Written(s, c, action)
  {
    StepKeepsInv(s, Handle(c, action));
    ActShape(s, c, action);
    var s' := Apply(s, Handle(c, action));
    TerminalIsFinished(s', s.calls[c].key);
    FinishedForever(s', more, s.calls[c].key);
  }

  /** The answer of a completed invocation stays: as text, as artifact, and as the last message
      of the agent behind the history that was there. */
  lemma ReplyIsKept(s: State, c: nat, status: string, response: string, replyId: string, more: seq<Event>)
    requires Inv(s) && Enabled(s, Handle(c, Reply(status, response, replyId)))
    requires Valid(Apply(s, Handle(c, Reply(status, response, replyId))), more)
    requires Spells(status, "completed")
    ensures var k := s.calls[c].key;
            var end := Run(Apply(s, Handle(c, Reply(status, response, replyId))), more);
            && k in end.tasks
            && end.tasks[k].status == Status(Completed, None)
            && end.tasks[k].artifactText == Strip(response)
            && end.tasks[k].artifacts == NonEmpty(Strip(response))
            && (Strip(response) != "" && !HasMessage(s.tasks[k].history, replyId) ==>
                end.tasks[k].history == s.tasks[k].history + [Message(replyId, Agent, Strip(response))])
  {
    WordsTell(status);
    OutcomeIsFinal(s, c, Reply(status, response, replyId), more);
  }

  /** A failed invocation leaves its error and no text, for good. */
  lemma FailureIsKept(s: State, c: nat, error: string, replyId: string, stores: bool, more: seq<Event>)
    requires Inv(s) && Enabled(s, Handle(c, Fail(error, replyId, stores)))
    requires Valid(Apply(s, Handle(c, Fail(error, replyId, stores))), more)
    ensures var k := s.calls[c].key;
            var end := Run(Apply(s, Handle(c, Fail(error, replyId, stores))), more);
            && k in end.tasks
            && end.tasks[k].status == Status(Failed, NonEmpty(error))
            && end.tasks[k].artifactText == "" && end.tasks[k].artifacts == None
            && (!HasMessage(s.tasks[k].history, replyId) ==>
                end.tasks[k].history == s.tasks[k].history + [Message(replyId, Agent, error)])
  {
    OutcomeIsFinal(s, c, Fail(error, replyId, stores), more);
  }

  lemma WorkingRefuses(s: State, k: TaskKey, contextId: string)
    requires k in s.tasks && s.tasks[k].status.state == Working
    ensures Admit(Contents(s), k, contextId) in {NotFound, ContextMismatch, StillProcessing}
  {
  }

  predicate EndsInvocation(action: Action) {
    !action.DeltaRead? && !action.DeltaWrite?
  }

  /** The ways to end an invocation without a result: silently, or with a status that the
      gateway does not know. */
  ghost predicate LeavesWorking(action: Action) {
    || action.Abandon?
    || ((action.StreamCompleted? || action.Reply?) && Unknown(action.status))
  }

  /** WORKING with no invocation on it: every message is refused. */
  ghost predicate Stuck(s: State, k: TaskKey) {
    && Finished(s, k)
    && s.tasks[k].status.state == Working
    && forall contextId :: Admit(Contents(s), k, contextId) in {NotFound, ContextMismatch, StillProcessing}
  }

  /** What the record shows after the end of an invocation. */
  lemma EndedState(s: State, c: nat, action: Action)
    requires Inv(s) && Enabled(s, Handle(c, action)) && EndsInvocation(action)
    ensures Written(s, c, action).status.state ==
            match action
            case Fail(_, _, _) => Failed
            case StreamCompleted(status, _) => StateFromInvokeStatus(status)
            case Reply(status, _, _) => StateFromInvokeStatus(status)
            case _ => Working
  {
    assert s.tasks[s.calls[c].key].status.state == Working;
  }

  lemma EndedIsIdle(s: State, c: nat, action: Action)
    requires Inv(s) && Enabled(s, Handle(c, action)) && EndsInvocation(action)
    ensures Idle(Apply(s, Handle(c, action)), s.calls[c].key)
    ensures s.calls[c].key in Apply(s, Handle(c, action)).tasks
    ensures Apply(s, Handle(c, action)).tasks[s.calls[c].key] == Written(s, c, action)
  {
    ActShape(s, c, action);
    CallsShrink(s, c, action);
    var s' := Act(s, c, action);
    assert forall d :: d in s'.calls ==> d in s.calls && d != c && s'.calls[d].key == s.calls[d].key;
  }

  /** An end of an invocation leaves its task stuck exactly in these cases. */
  lemma EndLeavesStuckIff(s: State, c: nat, action: Action)
    requires Inv(s) && Enabled(s, Handle(c, action)) && EndsInvocation(action)
    ensures Stuck(Apply(s, Handle(c, action)), s.calls[c].key) <==> LeavesWorking(action)
  {
    var s' := Apply(s, Handle(c, action));
    var k := s.calls[c].key;
    EndedState(s, c, action);
    EndedIsIdle(s, c, action);
    if action.StreamCompleted? || action.Reply? { WordsTell(action.status); }
    if LeavesWorking(action) {
      forall contextId ensures Admit(Contents(s'), k, contextId) in {NotFound, ContextMismatch, StillProcessing} {
        WorkingRefuses(s', k, contextId);
      }
    }
  }

  /** In every continuation the task is stuck. */
  ghost predicate StuckForever(s: State, k: TaskKey) {
    forall more :: Valid(s, more) ==> Stuck(Run(s, more), k)
  }

  /** A task is stuck for good after an invocation on it exactly if that ended silently or with
      a status that the gateway does not know. */
  lemma SilentEndIsStuck(s: State, c: nat, action: Action)
    requires Inv(s) && Enabled(s, Handle(c, action)) && EndsInvocation(action)
    ensures StuckForever(Apply(s, Handle(c, action)), s.calls[c].key) <==> LeavesWorking(action)
  {
    var s' := Apply(s, Handle(c, action));
    var k := s.calls[c].key;
    EndLeavesStuckIff(s, c, action);
    if LeavesWorking(action) {
      StepKeepsInv(s, Handle(c, action));
      forall more | Valid(s', more) ensures Stuck(Run(s', more), k) {
        FinishedForever(s', more, k);
        forall contextId ensures Admit(Contents(Run(s', more)), k, contextId) in {NotFound, ContextMismatch, StillProcessing} {
          WorkingRefuses(Run(s', more), k, contextId);
        }
      }
    } else {
      assert Valid(s', []) && Run(s', []) == s';
    }
  }

  /** A stored task that is stuck is found exactly until the retention time has passed since
      its last change; the first look at the store after that purges it, and it is gone. */
  lemma StuckUntilPurged(s: State, k: TaskKey, more: seq<Event>, j: TaskKey)
    requires Inv(s) && Stuck(s, k) && k in s.stored && Valid(s, more)
    ensures var end := Run(s, more);
            k in Contents(Apply(end, Get(j))) <==> end.now <= s.tasks[k].updatedAt + s.retention
  {
    var end := Run(s, more);
    FinishedForever(s, more, k);
    RunKeepsInv(s, more);
    GetFindsFresh(end, k);
    assert Apply(end, Get(j)) == Apply(end, Get(k));
  }

  /** What was purged is never found again. */
  lemma PurgedForever(s: State, k: TaskKey, more: seq<Event>)
    requires Inv(s) && Stuck(s, k) && k !in s.stored && Valid(s, more)
    ensures k !in Contents(Run(s, more))
  {
    GoneForever(s, k, more);
  }

  lemma {:induction false} GoneForever(s: State, k: TaskKey, more: seq<Event>)
    requires Inv(s) && Finished(s, k) && k !in s.stored && Valid(s, more)
    ensures k !in Run(s, more).stored && Finished(Run(s, more), k)
  {
    if more != [] {
      var init := more[..|more| - 1];
      GoneForever(s, k, init);
      RunKeepsInv(s, init);
      FinishedStep(Run(s, init), more[|more| - 1], k);
      GoneStep(Run(s, init), k, more[|more| - 1]);
    }
  }

  lemma GoneStep(s: State, k: TaskKey, e: Event)
    requires Inv(s) && Finished(s, k) && k !in s.stored && Enabled(s, e)
    ensures k !in Apply(s, e).stored
  {
  }

  /** A lookup finds exactly the stored records that were touched within the retention time. */
  lemma GetFindsFresh(s: State, k: TaskKey)
    requires Inv(s)
    ensures k in Contents(Apply(s, Get(k))) <==> k in s.stored && s.now <= s.tasks[k].updatedAt + s.retention
    ensures k in Contents(Apply(s, Get(k))) ==> Contents(Apply(s, Get(k)))[k] == s.tasks[k]
  {
    PurgeKeepsInv(s);
  }

  /** Reading and writing under two acquisitions is lossless only because of single flight:
      in any state with two invocations on one task, the first of two overlapping deltas is
      overwritten by the second. */
  lemma SharedTaskWouldLoseText(s: State, c: nat, d: nat, first: string, second: string)
    requires c != d && c in s.calls && d in s.calls && s.calls[c].key == s.calls[d].key && s.calls[c].key in s.tasks
    ensures var k := s.calls[c].key;
            var s1 := Apply(s, Handle(c, DeltaRead(first)));
            var s2 := Apply(s1, Handle(d, DeltaRead(second)));
            var s3 := Apply(s2, Handle(c, DeltaWrite));
            var s4 := Apply(s3, Handle(d, DeltaWrite));
            k in s4.tasks && s4.tasks[k].artifactText == s.tasks[k].artifactText + second
  {
    var s1 := Act(s, c, DeltaRead(first));
    assert s1.tasks[s.calls[c].key] == s.tasks[s.calls[c].key];
    var s2 := Act(s1, d, DeltaRead(second));
    var s3 := Act(s2, c, DeltaWrite);
    assert s3.calls[d] == s2.calls[d];
  }
}
