/** The task store and its records as the gateway keeps them: dictionaries changed in
    place and shared between the store and the handlers. Every method is tied to the
    step of `A2AProtocol` that it carries out, for any protocol state the objects
    represent, and says which stored objects stay the same. `A2AGateway` composes them. */
module A2AStore {
  import opened Wrappers
  import opened PythonText
  import opened A2ATask
  import P = A2AProtocol

  class TaskRecord {
    const key: P.TaskKey
    const contextId: string
    const threadId: string
    var state: TaskState
    var statusMessage: Option<string>
    var history: seq<Message>
    var artifactText: string
    var artifacts: Option<string>
    var updatedAt: int

    constructor (key: P.TaskKey, contextId: string, threadId: string, now: int)
      ensures this.key == key && View() == NewTask(contextId, threadId, now)
    {
      this.key, this.contextId, this.threadId := key, contextId, threadId;
      state, statusMessage, history := Submitted, None, [];
      artifactText, artifacts, updatedAt := "", None, now;
    }

    function View(): Task reads this {
      Task(contextId, threadId, Status(state, statusMessage), history, artifactText, artifacts, updatedAt)
    }

    /** `append_a2a_task_history` */
    method AppendMessage(m: Message, now: int)
      modifies this
      ensures View() == AppendHistory(old(View()), m, now)
    {
      if m.messageId != "" && HasMessage(history, m.messageId) {
        return;
      }
      history := history + [m];
      updatedAt := now;
    }

    /** `set_a2a_task_artifact_text` */
    method SetText(text: string, now: int)
      modifies this
      ensures View() == SetArtifactText(old(View()), text, now)
    {
      artifactText := text;
      if text != "" {
        artifacts := Some(text);
      } else {
        artifacts := None;
      }
      updatedAt := now;
    }

    /** The first half of `append_a2a_task_artifact_delta`. */
    method ReadWithDelta(delta: string) returns (text: string)
      ensures text == View().artifactText + delta
    {
      text := artifactText + delta;
    }

    /** `set_a2a_task_status` */
    method ChangeStatus(newState: TaskState, messageText: string, now: int)
      modifies this
      ensures View() == SetStatus(old(View()), newState, messageText, now)
    {
      state, statusMessage := newState, None;
      if messageText != "" {
        statusMessage := Some(messageText);
      }
      updatedAt := now;
    }

    /** `apply_invoke_response_to_a2a_task` */
    method ApplyReply(status: string, response: string, replyId: string, now: int)
      modifies this
      ensures View() == ApplyResponse(old(View()), status, response, replyId, now)
    {
      var taskState := StateFromInvokeStatus(status);
      var text := Strip(response);
      if text != "" {
        AppendMessage(Message(replyId, Agent, text), now);
      }
      if taskState == Completed {
        SetText(text, now);
        ChangeStatus(taskState, "", now);
      } else {
        SetText("", now);
        ChangeStatus(taskState, if text != "" then text else status, now);
      }
    }

    /** The `response.completed` branch of the stream handler. */
    method FinishStream(status: string, replyId: string, now: int)
      modifies this
      ensures View() == CompleteStream(old(View()), status, replyId, now)
    {
      var text := artifactText;
      var taskState := StateFromInvokeStatus(status);
      if text != "" {
        AppendMessage(Message(replyId, Agent, text), now);
      }
      if taskState == Completed {
        ChangeStatus(taskState, "", now);
      } else {
        SetText("", now);
        ChangeStatus(taskState, if text != "" then text else status, now);
      }
    }

    /** `mark_a2a_task_failed` */
    method MarkAsFailed(error: string, replyId: string, now: int)
      modifies this
      ensures View() == MarkFailed(old(View()), error, replyId, now)
    {
      AppendMessage(Message(replyId, Agent, error), now);
      SetText("", now);
      ChangeStatus(Failed, error, now);
    }

    /** What a handler's step does to its record; a delta is written from `pending`. */
    method Act(ghost call: P.Call, action: P.Action, pending: string, now: int)
      requires !action.DeltaRead? && P.Ready(call, action)
      requires action.DeltaWrite? ==> call.pending == Some(pending)
      modifies this
      ensures View() == P.Acted(old(View()), call, action, now)
    {
      match action {
        case DeltaRead(_) =>
        case DeltaWrite => SetText(pending, now);
        case StreamCompleted(status, replyId) => FinishStream(status, replyId, now);
        case Reply(status, response, replyId) => ApplyReply(status, response, replyId, now);
        case Fail(error, replyId, _) => MarkAsFailed(error, replyId, now);
        case Abandon =>
      }
    }
  }

  class TaskStore {
    const retention: nat
    var records: map<P.TaskKey, TaskRecord>

    constructor (retention: nat)
      ensures this.retention == retention && Valid() && Contents() == map[] && records == map[]
    {
      this.retention := retention;
      records := map[];
    }

    ghost predicate Valid()
      reads this, records.Values
    {
      forall k :: k in records ==> records[k].key == k
    }

    ghost function Contents(): map<P.TaskKey, Task>
      reads this, records.Values
    {
      map k | k in records :: records[k].View()
    }

    /** The store is that of the protocol state `s`. */
    ghost predicate StoreIs(s: P.State)
      reads this, records.Values
    {
      Valid() && Contents() == P.Contents(s) && s.retention == retention
    }

    /** A record that a handler holds is that of the protocol state, and the object that the
        store finds, if it finds one. */
    ghost predicate HoldsFor(s: P.State, held: TaskRecord)
      reads this`records, held
    {
      && held.key in s.tasks && held.View() == s.tasks[held.key]
      && (held.key in records ==> records[held.key] == held)
    }

    ghost predicate Represents(s: P.State, held: TaskRecord)
      reads this, records.Values, held
    {
      StoreIs(s) && HoldsFor(s, held)
    }

    /** `purge_expired_a2a_tasks` */
    method Purge(now: int)
      requires Valid()
      modifies this
      ensures Valid() && Contents() == P.Purged(old(Contents()), now, retention)
      ensures forall k :: k in records ==> k in old(records) && records[k] == old(records)[k]
    {
      var cutoff := now - retention;
      var stale := set k | k in records && records[k].updatedAt < cutoff;
      var before := records;
      while stale != {}
        invariant forall k :: k in records ==> k in before && records[k] == before[k]
        invariant forall k :: k in before && k !in records ==> before[k].updatedAt < cutoff
        invariant stale == set k | k in records && records[k].updatedAt < cutoff
        decreases stale
      {
        var k :| k in stale;
        records := records - {k};
        stale := stale - {k};
      }
      assert forall k :: k in before && before[k].updatedAt >= cutoff ==> k in records;
      forall k | k in records ensures records[k].updatedAt >= cutoff {
        assert k !in stale;
      }
    }

    /** `store_a2a_task_record` */
    method Put(record: TaskRecord, now: int)
      requires Valid()
      modifies this, record
      ensures Valid() && record.key in records && records[record.key] == record
      ensures record.View() == old(record.View()).(updatedAt := now)
      ensures Contents() == P.Purged(old(Contents()), now, retention)[record.key := record.View()]
      ensures forall j :: j in records && j != record.key ==> j in old(records) && records[j] == old(records)[j]
    {
      Purge(now);
      ghost var purged := Contents();
      record.updatedAt := now;
      records := records[record.key := record];
      PutContents(purged, record);
    }

    lemma PutContents(purged: map<P.TaskKey, Task>, record: TaskRecord)
      requires Valid() && record.key in records && records[record.key] == record
      requires purged.Keys + {record.key} == records.Keys
      requires forall k :: k in records && records[k] != record ==> records[k].View() == purged[k]
      ensures Contents() == purged[record.key := record.View()]
    {
      forall k | k in records && k != record.key ensures records[k] != record {
        assert records[k].key == k;
      }
    }

    /** `get_a2a_task_record` */
    method Get(k: P.TaskKey, now: int) returns (r: TaskRecord?)
      requires Valid()
      modifies this
      ensures Valid() && Contents() == P.Purged(old(Contents()), now, retention)
      ensures forall k :: k in records ==> k in old(records) && records[k] == old(records)[k]
      ensures r == null <==> k !in Contents()
      ensures r != null ==> r.key == k && k in records && records[k] == r && r.View() == Contents()[k]
    {
      Purge(now);
      r := null;
      if k in records {
        r := records[k];
      }
    }

    /** `infer_context_from_reference_tasks` */
    method InferContext(k: P.TaskKey, references: seq<string>, now: int) returns (context: Option<string>)
      requires Valid()
      modifies this
      ensures Valid()
      ensures Contents() == old(Contents()) || Contents() == P.Purged(old(Contents()), now, retention)
      ensures forall k :: k in records ==> k in old(records) && records[k] == old(records)[k]
      ensures context == P.InferContext(P.Purged(old(Contents()), now, retention), k, references)
    {
      ghost var purged := P.Purged(Contents(), now, retention);
      for i := 0 to |references|
        invariant Valid()
        invariant Contents() == old(Contents()) || Contents() == purged
        invariant forall k :: k in records ==> k in old(records) && records[k] == old(records)[k]
        invariant P.InferContext(purged, k, references) == P.InferContext(purged, k, references[i..])
      {
        assert references[i..][0] == references[i] && references[i..][1..] == references[i + 1..];
        var referenced := Get(k.(taskId := references[i]), now);
        assert Contents() == purged;
        if referenced != null {
          assert referenced.View() == purged[k.(taskId := references[i])];
          return NonEmpty(referenced.contextId);
        }
      }
      return None;
    }

    // -------------------------------------------------------------------------
    // The handlers, cut at their suspension points
    // -------------------------------------------------------------------------

    /** The context of a new task: the one named, that of a referenced task, or a fresh one. */
    method ResolveContext(ghost s: P.State, k: P.TaskKey, contextId: string, references: seq<string>, freshContext: string, now: int)
      returns (context: string)
      requires StoreIs(s) && s.now == now
      modifies this
      ensures Valid() && P.Purged(Contents(), now, retention) == P.Purged(P.Contents(P.Purge(s)), now, retention)
      ensures forall j :: j in records ==> j in old(records) && records[j] == old(records)[j]
      ensures context == P.ResolveContext(P.Contents(P.Purge(s)), k, contextId, references, freshContext)
    {
      context := contextId;
      PurgedContents(s);
      if context == "" {
        var inferred := InferContext(k, references, now);
        context := if inferred.Some? then inferred.value else freshContext;
      }
    }

    /** `prepare_a2a_task_for_message` without a task id, and the switch to WORKING. */
    method AcceptNew(ghost s: P.State, k: P.TaskKey, ghost streaming: bool, contextId: string, references: seq<string>,
                     freshContext: string, threadId: string, messageId: string, text: string, now: int)
      returns (record: TaskRecord)
      requires StoreIs(s) && s.now == now
      requires k !in s.tasks
      modifies this
      ensures fresh(record) && record.key == k
      ensures Represents(P.AcceptNew(s, k, streaming, contextId, references, freshContext, threadId, messageId, text), record)
      ensures forall j :: j in records && j != k ==> j in old(records) && records[j] == old(records)[j]
    {
      var context := ResolveContext(s, k, contextId, references, freshContext, now);
      record := MakeRecord(P.Purge(s), k, context, threadId, now);
      BeginOn(P.Create(P.Purge(s), k, context, threadId), record, streaming, messageId, text, now);
      SentNew(s, k, streaming, contextId, references, freshContext, threadId, messageId, text, context);
    }

    /** A new record under a key that no task has. */
    method MakeRecord(ghost p: P.State, k: P.TaskKey, contextId: string, threadId: string, now: int)
      returns (record: TaskRecord)
      requires Valid() && p.retention == retention && p.now == now && k !in p.tasks
      requires P.Purged(Contents(), now, retention) == P.Purged(P.Contents(p), now, retention)
      modifies this
      ensures fresh(record) && record.key == k
      ensures Represents(P.Create(p, k, contextId, threadId), record)
      ensures forall j :: j in records && j != k ==> j in old(records) && records[j] == old(records)[j]
    {
      record := new TaskRecord(k, contextId, if threadId != "" then threadId else contextId, now);
      ghost var t := record.View();
      Put(record, now);
      StoredContents(p, k, t);
    }

    /** The caller's message, WORKING, and the store, on a record that was found or made. */
    method BeginOn(ghost q: P.State, record: TaskRecord, ghost streaming: bool, messageId: string, text: string, now: int)
      requires Represents(q, record) && q.now == now
      modifies this, record
      ensures Represents(P.Start(q, record.key, streaming, messageId, text), record)
      ensures forall j :: j in records && j != record.key ==> j in old(records) && records[j] == old(records)[j]
      ensures record.key in records && records[record.key] == record
    {
      ghost var before := Contents();
      record.AppendMessage(Message(messageId, User, text), now);
      record.ChangeStatus(Working, "", now);
      TouchedContents(q, record, before);
      StoreHeld(P.Update(q, record.key, BeginWork(q.tasks[record.key], messageId, text, now)), record, now);
    }

    /** `prepare_a2a_task_for_message` with a task id, and the switch to WORKING. */
    method AcceptExisting(ghost s: P.State, k: P.TaskKey, ghost streaming: bool, contextId: string,
                          messageId: string, text: string, now: int)
      returns (admission: P.Admission, record: TaskRecord?)
      requires StoreIs(s) && s.now == now
      modifies this, if k in records then {records[k]} else {}
      ensures admission == P.Admit(P.Contents(P.Purge(s)), k, contextId)
      ensures var s' := P.AcceptExisting(s, k, streaming, contextId, messageId, text);
              if admission == P.Accepted then record != null && record.key == k && Represents(s', record)
              else StoreIs(s') && (k in old(records) ==> old(records)[k].View() == old(records[k].View()))
      ensures admission == P.Accepted ==> k in old(records) && record == old(records)[k]
      ensures forall j :: j in records ==> j in old(records) && records[j] == old(records)[j]
    {
      PurgedContents(s);
      record := Get(k, now);
      if record == null {
        return P.NotFound, null;
      }
      if contextId != "" && record.contextId != contextId {
        return P.ContextMismatch, record;
      }
      if Terminal(record.state) {
        return P.InTerminalState, record;
      }
      if record.state in {Submitted, Working} {
        return P.StillProcessing, record;
      }
      BeginOn(P.Purge(s), record, streaming, messageId, text, now);
      return P.Accepted, record;
    }

    /** A handler's step on the record it holds: the helpers change it, then it is stored. */
    method Perform(ghost s: P.State, ghost c: nat, action: P.Action, pending: string, record: TaskRecord, now: int)
      requires Represents(s, record) && s.now == now && c in s.calls && s.calls[c].key == record.key
      requires !action.DeltaRead? && P.Ready(s.calls[c], action)
      requires action.DeltaWrite? ==> s.calls[c].pending == Some(pending)
      modifies this, record
      ensures Represents(P.Act(s, c, action), record)
      ensures forall j :: j in records && j != record.key ==> j in old(records) && records[j] == old(records)[j]
    {
      ghost var before := Contents();
      ghost var t := P.Acted(s.tasks[record.key], s.calls[c], action, now);
      record.Act(s.calls[c], action, pending, now);
      TouchedContents(s, record, before);
      ghost var q := P.Update(s, record.key, t);
      ActedState(s, c, action);
      if action.DeltaWrite? || action.StreamCompleted? || action.Reply? || (action.Fail? && action.stores) {
        StoreHeld(q, record, now);
        q := P.Store(q, record.key);
      }
      SameStore(q, P.Act(s, c, action), record);
    }

    /** The invocations in flight are not part of the store. */
    lemma SameStore(q: P.State, s: P.State, held: TaskRecord)
      requires Represents(q, held) && s.tasks == q.tasks && s.stored == q.stored && s.retention == q.retention
      ensures Represents(s, held)
    {
    }

    /** Stores the record that a handler holds. */
    method StoreHeld(ghost s: P.State, record: TaskRecord, now: int)
      requires Represents(s, record) && s.now == now
      modifies this, record
      ensures Represents(P.Store(s, record.key), record)
      ensures forall j :: j in records && j != record.key ==> j in old(records) && records[j] == old(records)[j]
      ensures record.key in records && records[record.key] == record
    {
      ghost var t := record.View();
      Put(record, now);
      StoredContents(s, record.key, t);
      assert P.Update(s, record.key, t).tasks == s.tasks;
    }

    /** A change to one record shows in the contents under its own key only. */
    lemma TouchedContents(s: P.State, record: TaskRecord, before: map<P.TaskKey, Task>)
      requires Valid() && before == P.Contents(s) && before.Keys == records.Keys && record.key in s.tasks
      requires record.key in records ==> records[record.key] == record
      requires forall k :: k in records && records[k] != record ==> records[k].View() == before[k]
      ensures Contents() == P.Contents(P.Update(s, record.key, record.View()))
    {
      forall k | k in records && k != record.key ensures records[k] != record {
        assert records[k].key == k;
      }
    }
  }

  lemma ActedState(s: P.State, c: nat, action: P.Action)
    requires c in s.calls && s.calls[c].key in s.tasks
    ensures var k := s.calls[c].key;
            var q := P.Update(s, k, P.Acted(s.tasks[k], s.calls[c], action, s.now));
            var r := P.Act(s, c, action);
            var stored := if P.StoresRecord(action) then P.Store(q, k) else q;
            r.tasks == stored.tasks && r.stored == stored.stored && r.retention == stored.retention
  {
  }

  lemma SentNew(s: P.State, k: P.TaskKey, streaming: bool, contextId: string, references: seq<string>,
                freshContext: string, threadId: string, messageId: string, text: string, context: string)
    requires context == P.ResolveContext(P.Contents(P.Purge(s)), k, contextId, references, freshContext)
    ensures P.AcceptNew(s, k, streaming, contextId, references, freshContext, threadId, messageId, text) ==
            P.Start(P.Create(P.Purge(s), k, context, threadId), k, streaming, messageId, text)
  {
  }

  lemma PurgedContents(s: P.State)
    ensures P.Contents(P.Purge(s)) == P.Purged(P.Contents(s), s.now, s.retention)
    ensures P.Purged(P.Contents(P.Purge(s)), s.now, s.retention) == P.Contents(P.Purge(s))
  {
  }

  lemma StoredContents(s: P.State, k: P.TaskKey, t: Task)
    ensures var s' := P.Store(P.Update(s, k, t), k);
            && P.Contents(s') == P.Purged(P.Contents(P.Update(s, k, t)), s.now, s.retention)[k := t.(updatedAt := s.now)]
            && (k !in s.tasks ==> P.Contents(s') == P.Purged(P.Contents(s), s.now, s.retention)[k := t.(updatedAt := s.now)])
  {
  }
}
