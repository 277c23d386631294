/** What a caller sees of a task, told by what was sent and what the runtime reported. */
module A2AOutcomes {
  import opened Wrappers
  import opened PythonText
  import opened Wording
  import opened A2ATask
  import opened A2AProtocol
  import opened A2ARuns

  /** An invocation ends with a status that the runtime reports as this word. */
  ghost predicate EndsWith(action: Action, word: string) {
    (action.Reply? || action.StreamCompleted?) && Spells(action.status, word)
  }

  // ---------------------------------------------------------------------------
  // Waiting for approval
  // ---------------------------------------------------------------------------

  /** No message names the task. */
  predicate Unasked(events: seq<Event>, k: TaskKey) {
    forall e :: e in events ==> !(e.SendExisting? && e.key == k)
  }

  lemma {:induction false} UnaskedStays(s: State, events: seq<Event>, k: TaskKey)
    requires Inv(s) && Valid(s, events) && k in s.tasks && Idle(s, k) && Unasked(events, k)
    ensures k in Run(s, events).tasks && Idle(Run(s, events), k) && Run(s, events).tasks[k] == s.tasks[k]
  {
    if events != [] {
      var init, last := events[..|events| - 1], events[|events| - 1];
      assert last in events;
      UnaskedStays(s, init, k);
      RunKeepsInv(s, init);
      IdleStep(Run(s, init), last, k);
    }
  }

  /** A message for the task in this state starts an invocation on it. */
  ghost predicate Answered(s: State, k: TaskKey, streaming: bool, contextId: string, messageId: string, text: string) {
    var s' := Apply(s, SendExisting(k, streaming, contextId, messageId, text));
    && s'.calls == s.calls[s.nextCall := Call(k, streaming, None)]
    && k in s'.tasks && s'.tasks[k].status.state == Working
  }

  /** After `approval_pending` the task waits, and the next message for it goes on with it exactly
      if the task is still kept and the message names its context or none. */
  lemma ApprovalAdmitsTheAnswer(s: State, c: nat, action: Action, more: seq<Event>,
                                streaming: bool, contextId: string, messageId: string, text: string)
    requires Inv(s) && Enabled(s, Handle(c, action)) && EndsWith(action, "approval_pending")
    requires Valid(Apply(s, Handle(c, action)), more) && Unasked(more, s.calls[c].key)
    ensures var k := s.calls[c].key;
            var end := Run(Apply(s, Handle(c, action)), more);
            && k in end.tasks && end.tasks[k].status.state == AuthRequired
            && end.tasks[k].contextId == s.tasks[k].contextId && end.tasks[k].updatedAt == s.now
            && end.tasks[k].artifactText == ""
            && (Answered(end, k, streaming, contextId, messageId, text) <==>
                k in end.stored && end.now <= s.now + s.retention && (contextId == "" || contextId == s.tasks[k].contextId))
  {
    WordsTell(action.status);
    var s', k := Apply(s, Handle(c, action)), s.calls[c].key;
    EndedState(s, c, action);
    EndedIsIdle(s, c, action);
    StepKeepsInv(s, Handle(c, action));
    UnaskedStays(s', more, k);
    RunKeepsInv(s', more);
    WaitingIsAnswered(Run(s', more), k, streaming, contextId, messageId, text);
  }

  lemma WaitingIsAnswered(s: State, k: TaskKey, streaming: bool, contextId: string, messageId: string, text: string)
    requires Inv(s) && k in s.tasks && Idle(s, k) && s.tasks[k].status.state == AuthRequired
    ensures Answered(s, k, streaming, contextId, messageId, text) <==>
            k in s.stored && s.now <= s.tasks[k].updatedAt + s.retention && (contextId == "" || contextId == s.tasks[k].contextId)
  {
    PurgeKeepsInv(s);
    AdmittedOnlyWhenInterrupted(Purge(s), k, contextId);
    GetFindsFresh(s, k);
  }

  // ---------------------------------------------------------------------------
  // Final outcomes
  // ---------------------------------------------------------------------------

  /** After `blocked` the task is REJECTED for good, and no message for it is ever taken. */
  lemma BlockedIsRejected(s: State, c: nat, action: Action, more: seq<Event>, contextId: string)
    requires Inv(s) && Enabled(s, Handle(c, action)) && EndsWith(action, "blocked")
    requires Valid(Apply(s, Handle(c, action)), more)
    ensures var k := s.calls[c].key;
            var end := Run(Apply(s, Handle(c, action)), more);
            && k in end.tasks && end.tasks[k].status.state == Rejected && end.tasks[k].artifactText == ""
            && Idle(end, k) && Admit(Contents(end), k, contextId) != Accepted
  {
    WordsTell(action.status);
    EndedState(s, c, action);
    OutcomeIsFinal(s, c, action, more);
    var s' := Apply(s, Handle(c, action));
    StepKeepsInv(s, Handle(c, action));
    RunKeepsInv(s', more);
    var end := Run(s', more);
    TerminalIsFinished(end, s.calls[c].key);
    AdmittedOnlyWhenInterrupted(end, s.calls[c].key, contextId);
  }

  /** After `completed` the task is COMPLETED for good, and no message for it is ever taken. */
  lemma CompletedIsFinal(s: State, c: nat, action: Action, more: seq<Event>, contextId: string)
    requires Inv(s) && Enabled(s, Handle(c, action)) && EndsWith(action, "completed")
    requires Valid(Apply(s, Handle(c, action)), more)
    ensures var k := s.calls[c].key;
            var end := Run(Apply(s, Handle(c, action)), more);
            && k in end.tasks && end.tasks[k].status == Status(Completed, None)
            && Idle(end, k) && Admit(Contents(end), k, contextId) != Accepted
  {
    WordsTell(action.status);
    EndedState(s, c, action);
    OutcomeIsFinal(s, c, action, more);
    var s' := Apply(s, Handle(c, action));
    StepKeepsInv(s, Handle(c, action));
    RunKeepsInv(s', more);
    var end := Run(s', more);
    TerminalIsFinished(end, s.calls[c].key);
    AdmittedOnlyWhenInterrupted(end, s.calls[c].key, contextId);
  }

  /** After any other word the task is stuck for good. */
  lemma OtherWordIsStuck(s: State, c: nat, action: Action)
    requires Inv(s) && Enabled(s, Handle(c, action)) && (action.Reply? || action.StreamCompleted?)
    requires !Spells(action.status, "completed") && !Spells(action.status, "approval_pending") && !Spells(action.status, "blocked")
    ensures StuckForever(Apply(s, Handle(c, action)), s.calls[c].key)
  {
    SilentEndIsStuck(s, c, action);
  }

  /** Unless it is completed, a task shows the reply as its status message, or the reported status
      if the reply is blank; a reply that is not blank is also the last message. */
  lemma UnfinishedReplyIsShown(s: State, c: nat, status: string, response: string, replyId: string)
    requires Inv(s) && Enabled(s, Handle(c, Reply(status, response, replyId))) && !Spells(status, "completed")
    ensures var k := s.calls[c].key;
            var s' := Apply(s, Handle(c, Reply(status, response, replyId)));
            && k in s'.tasks
            && s'.tasks[k].status.message == NonEmpty(if Strip(response) == "" then status else Strip(response))
            && s'.tasks[k].artifactText == "" && s'.tasks[k].artifacts == None
            && (Strip(response) != "" && !HasMessage(s.tasks[k].history, replyId) ==>
                s'.tasks[k].history == s.tasks[k].history + [Message(replyId, Agent, Strip(response))])
            && (Strip(response) == "" ==> s'.tasks[k].history == s.tasks[k].history)
  {
    WordsTell(status);
    EndedIsIdle(s, c, Reply(status, response, replyId));
  }

  /** The same for a stream, with the text that was streamed. */
  lemma UnfinishedStreamIsShown(s: State, c: nat, status: string, replyId: string)
    requires Inv(s) && Enabled(s, Handle(c, StreamCompleted(status, replyId))) && !Spells(status, "completed")
    ensures var k := s.calls[c].key;
            var s' := Apply(s, Handle(c, StreamCompleted(status, replyId)));
            && k in s.tasks && k in s'.tasks
            && s'.tasks[k].status.message == NonEmpty(if s.tasks[k].artifactText == "" then status else s.tasks[k].artifactText)
            && s'.tasks[k].artifactText == "" && s'.tasks[k].artifacts == None
            && (s.tasks[k].artifactText != "" && !HasMessage(s.tasks[k].history, replyId) ==>
                s'.tasks[k].history == s.tasks[k].history + [Message(replyId, Agent, s.tasks[k].artifactText)])
            && (s.tasks[k].artifactText == "" ==> s'.tasks[k].history == s.tasks[k].history)
  {
    WordsTell(status);
    EndedIsIdle(s, c, StreamCompleted(status, replyId));
  }

  /** Every step of a handler that changes its task leaves it in the store, with the time of the
      step, so that it is found for the retention time from then on; only a failure may be left to
      the record that the handler holds. */
  lemma ResultIsStored(s: State, c: nat, action: Action)
    requires Inv(s) && Enabled(s, Handle(c, action))
    requires action.DeltaWrite? || action.Reply? || action.StreamCompleted? || (action.Fail? && action.stores)
    ensures var k := s.calls[c].key;
            var s' := Apply(s, Handle(c, action));
            k in s'.stored && k in s'.tasks && s'.tasks[k].updatedAt == s.now && s'.now == s.now
  {
    ActShape(s, c, action);
  }

  // ---------------------------------------------------------------------------
  // What was sent
  // ---------------------------------------------------------------------------

  /** The message that opens a task stays the first of its history. */
  lemma FirstMessageIsKept(s: State, e: Event, more: seq<Event>)
    requires Inv(s) && Enabled(s, e) && e.SendNew? && Valid(Apply(s, e), more)
    ensures var end := Run(Apply(s, e), more);
            e.key in end.tasks && end.tasks[e.key].history != [] &&
            end.tasks[e.key].history[0] == Message(e.messageId, User, e.text)
  {
    StepKeepsInv(s, e);
    NewTaskIsAsAsked(s, e);
    RunKeepsInv(Apply(s, e), more);
    assert Evolves(Apply(s, e).tasks[e.key], Run(Apply(s, e), more).tasks[e.key], Run(Apply(s, e), more).now);
  }

  /** A new task is WORKING on the message, in the context that was named, or else in that of the
      first task referred to that is still kept, or else in a fresh one. */
  lemma NewTaskIsAsAsked(s: State, e: Event)
    requires Inv(s) && Enabled(s, e) && e.SendNew?
    ensures var s' := Apply(s, e);
            && e.key in s'.tasks && e.key in s'.stored
            && s'.tasks[e.key].status == Status(Working, None)
            && s'.tasks[e.key].history == [Message(e.messageId, User, e.text)]
            && s'.tasks[e.key].artifactText == "" && s'.tasks[e.key].updatedAt == s.now
            && s'.calls == s.calls[s.nextCall := Call(e.key, e.streaming, None)]
            && (e.contextId != "" ==> s'.tasks[e.key].contextId == e.contextId)
            && (e.contextId == "" ==>
                InContextOf(Contents(Purge(s)), e.key, e.references, e.freshContext, s'.tasks[e.key].contextId))
            && s'.tasks[e.key].threadId == (if e.threadId != "" then e.threadId else s'.tasks[e.key].contextId)
  {
    ContextOfReference(Contents(Purge(s)), e.key, e.references, e.freshContext);
  }

  /** `context` is that of the first referenced task that is kept, if it has one, and fresh if none
      is kept. */
  predicate InContextOf(contents: map<TaskKey, Task>, k: TaskKey, references: seq<string>, newContext: string, context: string) {
    || (context == newContext && forall i :: 0 <= i < |references| ==> k.(taskId := references[i]) !in contents)
    || (exists i :: 0 <= i < |references| && FirstKept(contents, k, references, i) &&
          context == (var named := contents[k.(taskId := references[i])].contextId; if named != "" then named else newContext))
  }

  predicate FirstKept(contents: map<TaskKey, Task>, k: TaskKey, references: seq<string>, i: nat)
    requires i < |references|
  {
    && k.(taskId := references[i]) in contents
    && forall j :: 0 <= j < i ==> k.(taskId := references[j]) !in contents
  }

  lemma {:induction false} ContextOfReference(contents: map<TaskKey, Task>, k: TaskKey, references: seq<string>, newContext: string)
    ensures InContextOf(contents, k, references, newContext, ResolveContext(contents, k, "", references, newContext))
  {
    if references != [] {
      if k.(taskId := references[0]) in contents {
        assert FirstKept(contents, k, references, 0);
      } else {
        var rest := references[1..];
        ContextOfReference(contents, k, rest, newContext);
        if i :| 0 <= i < |rest| && FirstKept(contents, k, rest, i) {
          assert FirstKept(contents, k, references, i + 1);
        }
      }
    }
  }

  /** A message that is taken stays in the history of its task. */
  lemma LaterMessageIsKept(s: State, e: Event, more: seq<Event>)
    requires Inv(s) && Enabled(s, e) && e.SendExisting? && TakesMessage(s, e, e.key) && Valid(Apply(s, e), more)
    ensures e.key in s.tasks && e.key in Run(Apply(s, e), more).tasks
    ensures var end := Run(Apply(s, e), more);
            var kept := s.tasks[e.key].history + [Message(e.messageId, User, e.text)];
            e.messageId == "" || !HasMessage(s.tasks[e.key].history, e.messageId) ==> kept <= end.tasks[e.key].history
  {
    StepKeepsInv(s, e);
    PurgeKeepsInv(s);
    AdmittedOnlyWhenInterrupted(Purge(s), e.key, e.contextId);
    RunKeepsInv(Apply(s, e), more);
    assert Evolves(Apply(s, e).tasks[e.key], Run(Apply(s, e), more).tasks[e.key], Run(Apply(s, e), more).now);
  }
}
