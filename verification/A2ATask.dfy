/** One A2A task record and the helpers that change it (the states are those of the
    A2A Protocol Specification 1.0, section 4.1.3). Each helper is a function from the
    record before to the record after; the class in `A2AStore` carries them out in place. */
module A2ATask {
  import opened Wrappers
  import opened PythonText
  import opened Wording

  datatype TaskState =
    | Submitted | Working | Completed | Failed | Canceled | Rejected
    | InputRequired | AuthRequired | Unspecified

  predicate Terminal(state: TaskState) {
    state in {Completed, Failed, Canceled, Rejected}
  }

  datatype Role = User | Agent

  datatype Message = Message(messageId: string, role: Role, text: string)

  datatype Status = Status(state: TaskState, message: Option<string>)

  datatype Task = Task(
    contextId: string,
    threadId: string,
    status: Status,
    history: seq<Message>,
    artifactText: string,
    artifacts: Option<string>,
    updatedAt: int)

  function NewTask(contextId: string, threadId: string, now: int): Task {
    Task(contextId, threadId, Status(Submitted, None), [], "", None, now)
  }

  /** Text that Python treats as true. */
  function NonEmpty(text: string): Option<string> {
    if text == "" then None else Some(text)
  }

  predicate HasMessage(history: seq<Message>, messageId: string) {
    exists i :: 0 <= i < |history| && history[i].messageId == messageId
  }

  /** A message whose nonempty id is already there is dropped. */
  function AppendHistory(t: Task, m: Message, now: int): Task {
    if m.messageId != "" && HasMessage(t.history, m.messageId) then t
    else t.(history := t.history + [m], updatedAt := now)
  }

  function SetArtifactText(t: Task, text: string, now: int): Task {
    t.(artifactText := text, artifacts := NonEmpty(text), updatedAt := now)
  }

  function SetStatus(t: Task, state: TaskState, messageText: string, now: int): Task {
    t.(status := Status(state, NonEmpty(messageText)), updatedAt := now)
  }

  function StateFromInvokeStatus(status: string): TaskState {
    var normalized := Lower(Strip(status));
    if normalized == "completed" then Completed
    else if normalized == "approval_pending" then AuthRequired
    else if normalized == "blocked" then Rejected
    else Working
  }

  /** The state that a reported status stands for, by the words themselves: in any case, with any
      spaces around them. */
  lemma WordsTell(status: string)
    ensures StateFromInvokeStatus(status) == Completed <==> Spells(status, "completed")
    ensures StateFromInvokeStatus(status) == AuthRequired <==> Spells(status, "approval_pending")
    ensures StateFromInvokeStatus(status) == Rejected <==> Spells(status, "blocked")
    ensures StateFromInvokeStatus(status) == Working <==> Unknown(status)
  {
    ReadsAsIff(status, "completed");
    ReadsAsIff(status, "approval_pending");
    ReadsAsIff(status, "blocked");
  }

  /** A status that the gateway does not know. */
  ghost predicate Unknown(status: string) {
    !Spells(status, "completed") && !Spells(status, "approval_pending") && !Spells(status, "blocked")
  }

  /** The reply of a plain invocation, `apply_invoke_response_to_a2a_task`. */
  function ApplyResponse(t: Task, status: string, response: string, replyId: string, now: int): Task {
    var state := StateFromInvokeStatus(status);
    var text := Strip(response);
    var t1 := if text == "" then t else AppendHistory(t, Message(replyId, Agent, text), now);
    if state == Completed then
      SetStatus(SetArtifactText(t1, text, now), state, "", now)
    else
      SetStatus(SetArtifactText(t1, "", now), state, if text != "" then text else status, now)
  }

  /** A `response.completed` event of a streamed invocation. */
  function CompleteStream(t: Task, status: string, replyId: string, now: int): Task {
    var state := StateFromInvokeStatus(status);
    var text := t.artifactText;
    var t1 := if text == "" then t else AppendHistory(t, Message(replyId, Agent, text), now);
    if state == Completed then
      SetStatus(t1, state, "", now)
    else
      SetStatus(SetArtifactText(t1, "", now), state, if text != "" then text else status, now)
  }

  function MarkFailed(t: Task, error: string, replyId: string, now: int): Task {
    SetStatus(SetArtifactText(AppendHistory(t, Message(replyId, Agent, error), now), "", now), Failed, error, now)
  }

  /** The message of the caller, followed by the switch to WORKING. */
  function BeginWork(t: Task, messageId: string, text: string, now: int): Task {
    SetStatus(AppendHistory(t, Message(messageId, User, text), now), Working, "", now)
  }

  // ---------------------------------------------------------------------------
  // What every helper keeps
  // ---------------------------------------------------------------------------

  ghost predicate UniqueIds(history: seq<Message>) {
    forall i, j :: 0 <= i < j < |history| && history[i].messageId != "" ==>
      history[i].messageId != history[j].messageId
  }

  /** From `t` to `t'` the context stayed, the history only grew at its end and without
      repeating an id, and the time stamp did not run backwards. */
  ghost predicate Evolves(t: Task, t': Task, now: int) {
    && t'.contextId == t.contextId
    && t'.threadId == t.threadId
    && t.history <= t'.history
    && (UniqueIds(t.history) ==> UniqueIds(t'.history))
    && (t.updatedAt <= now ==> t.updatedAt <= t'.updatedAt <= now)
  }

  /** The artifact entry mirrors the artifact text. */
  ghost predicate ArtifactMatches(t: Task) {
    t.artifacts == NonEmpty(t.artifactText)
  }

  /** A task outside an invocation that has not completed carries no text. */
  ghost predicate Settled(t: Task) {
    && ArtifactMatches(t)
    && UniqueIds(t.history)
    && t.status.state in {Working, Completed, Failed, Rejected, AuthRequired}
    && (t.status.state in {Failed, Rejected, AuthRequired} ==> t.artifactText == "")
  }

  lemma AppendHistoryEvolves(t: Task, m: Message, now: int)
    ensures Evolves(t, AppendHistory(t, m, now), now)
    ensures AppendHistory(t, m, now).(history := t.history, updatedAt := t.updatedAt) == t
  {
    var t' := AppendHistory(t, m, now);
    if t' != t {
      forall i, j | 0 <= i < j < |t'.history| && t'.history[i].messageId != "" && UniqueIds(t.history)
        ensures t'.history[i].messageId != t'.history[j].messageId
      {
        if j == |t.history| {
          assert t'.history[i] == t.history[i];
          assert m.messageId == "" || !HasMessage(t.history, m.messageId);
        }
      }
    }
  }

  lemma ApplyResponseSettles(t: Task, status: string, response: string, replyId: string, now: int)
    ensures Evolves(t, ApplyResponse(t, status, response, replyId, now), now)
    ensures UniqueIds(t.history) ==> Settled(ApplyResponse(t, status, response, replyId, now))
  {
    AppendHistoryEvolves(t, Message(replyId, Agent, Strip(response)), now);
  }

  lemma CompleteStreamSettles(t: Task, status: string, replyId: string, now: int)
    ensures Evolves(t, CompleteStream(t, status, replyId, now), now)
    ensures UniqueIds(t.history) && ArtifactMatches(t) ==> Settled(CompleteStream(t, status, replyId, now))
    ensures StateFromInvokeStatus(status) == Completed ==>
      CompleteStream(t, status, replyId, now).artifactText == t.artifactText &&
      CompleteStream(t, status, replyId, now).status.state == Completed
  {
    AppendHistoryEvolves(t, Message(replyId, Agent, t.artifactText), now);
  }

  lemma MarkFailedSettles(t: Task, error: string, replyId: string, now: int)
    ensures Evolves(t, MarkFailed(t, error, replyId, now), now)
    ensures UniqueIds(t.history) ==> Settled(MarkFailed(t, error, replyId, now))
  {
    AppendHistoryEvolves(t, Message(replyId, Agent, error), now);
  }

  lemma BeginWorkSettles(t: Task, messageId: string, text: string, now: int)
    ensures Evolves(t, BeginWork(t, messageId, text, now), now)
    ensures UniqueIds(t.history) && ArtifactMatches(t) ==> Settled(BeginWork(t, messageId, text, now))
    ensures BeginWork(t, messageId, text, now).artifactText == t.artifactText
    ensures BeginWork(t, messageId, text, now).status.state == Working
  {
    AppendHistoryEvolves(t, Message(messageId, User, text), now);
  }
}
