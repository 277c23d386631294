/** The A2A task protocol as interleaved steps. A step is the code between two
    suspension points of a handler; appending a delta is two steps, because it reads
    the text under one acquisition of the lock and writes it under another.

    A record that was purged while a handler still holds it lives on (and comes back
    when the handler stores it), so `tasks` keeps every record ever made and `stored`
    says which of them the store can find. */
module A2AProtocol {
  import opened Wrappers
  import opened A2ATask

  datatype TaskKey = TaskKey(namespace: string, agent: string, taskId: string)

  /** An invocation in flight; `pending` is the text computed by a delta that has read
      the record and not written it yet. */
  datatype Call = Call(key: TaskKey, streaming: bool, pending: Option<string>)

  datatype State = State(
    retention: nat,
    tasks: map<TaskKey, Task>,
    stored: set<TaskKey>,
    calls: map<nat, Call>,
    nextCall: nat,
    now: int)

  /** What the handler of an invocation does next. */
  datatype Action =
    | DeltaRead(delta: string)
    | DeltaWrite
    | StreamCompleted(status: string, replyId: string)
    | Reply(status: string, response: string, replyId: string)
    | Fail(error: string, replyId: string, stores: bool)
    | Abandon

  datatype Event =
    | Tick(elapsed: nat)
    | SendNew(key: TaskKey, streaming: bool, contextId: string, references: seq<string>,
              freshContext: string, threadId: string, messageId: string, text: string)
    | SendExisting(key: TaskKey, streaming: bool, contextId: string, messageId: string, text: string)
    | Handle(call: nat, action: Action)
    | Get(key: TaskKey)

  datatype Admission = Accepted | NotFound | ContextMismatch | InTerminalState | StillProcessing

  function Init(retention: nat, now: int): State {
    State(retention, map[], {}, map[], 0, now)
  }

  predicate Fresh(t: Task, now: int, retention: nat) {
    t.updatedAt >= now - retention
  }

  /** What the store holds. */
  function Contents(s: State): map<TaskKey, Task> {
    map k | k in s.stored && k in s.tasks :: s.tasks[k]
  }

  /** `purge_expired_a2a_tasks` on the contents of the store. */
  function Purged(contents: map<TaskKey, Task>, now: int, retention: nat): map<TaskKey, Task> {
    map k | k in contents && Fresh(contents[k], now, retention) :: contents[k]
  }

  function Purge(s: State): State {
    s.(stored := Purged(Contents(s), s.now, s.retention).Keys)
  }

  /** `store_a2a_task_record`: purges, stamps the record, and puts it under its key. */
  function Store(s: State, k: TaskKey): State
    requires k in s.tasks
  {
    var p := Purge(s);
    p.(tasks := s.tasks[k := s.tasks[k].(updatedAt := s.now)], stored := p.stored + {k})
  }

  function Update(s: State, k: TaskKey, t: Task): State {
    s.(tasks := s.tasks[k := t])
  }

  /** The checks of `prepare_a2a_task_for_message` on a message that names a task. */
  function Admit(contents: map<TaskKey, Task>, k: TaskKey, contextId: string): Admission {
    if k !in contents then NotFound
    else if contextId != "" && contents[k].contextId != contextId then ContextMismatch
    else if Terminal(contents[k].status.state) then InTerminalState
    else if contents[k].status.state in {Submitted, Working} then StillProcessing
    else Accepted
  }

  /** The context of the first referenced task that is still in the store. */
  function InferContext(contents: map<TaskKey, Task>, k: TaskKey, references: seq<string>): Option<string> {
    if references == [] then None
    else if k.(taskId := references[0]) in contents then NonEmpty(contents[k.(taskId := references[0])].contextId)
    else InferContext(contents, k, references[1..])
  }

  function ResolveContext(contents: map<TaskKey, Task>, k: TaskKey, contextId: string,
                          references: seq<string>, freshContext: string): string {
    if contextId != "" then contextId
    else match InferContext(contents, k, references)
      case Some(c) => c
      case None => freshContext
  }

  /** Starts an invocation on a record: message, WORKING, store. */
  function Start(s: State, k: TaskKey, streaming: bool, messageId: string, text: string): State
    requires k in s.tasks
  {
    var s1 := Store(Update(s, k, BeginWork(s.tasks[k], messageId, text, s.now)), k);
    s1.(calls := s1.calls[s1.nextCall := Call(k, streaming, None)], nextCall := s1.nextCall + 1)
  }

  /** A handler goes on only while its invocation is in flight, and in its own order. */
  predicate Enabled(s: State, e: Event) {
    match e
    case Tick(_) => true
    case SendNew(k, _, _, _, _, _, _, _) => k !in s.tasks
    case SendExisting(_, _, _, _, _) => true
    case Get(_) => true
    case Handle(c, action) => c in s.calls && Ready(s.calls[c], action)
  }

  predicate Ready(call: Call, action: Action) {
    match action
    case DeltaRead(_) => call.streaming && call.pending.None?
    case DeltaWrite => call.pending.Some?
    case StreamCompleted(_, _) => call.streaming && call.pending.None?
    case Reply(_, _, _) => !call.streaming
    case Fail(_, _, _) => call.pending.None?
    case Abandon => call.pending.None?
  }

  /** The record after an action of the invocation on it. */
  function Acted(t: Task, call: Call, action: Action, now: int): Task {
    match action
    case DeltaRead(_) => t
    case DeltaWrite => if call.pending.Some? then SetArtifactText(t, call.pending.value, now) else t
    case StreamCompleted(status, replyId) => CompleteStream(t, status, replyId, now)
    case Reply(status, response, replyId) => ApplyResponse(t, status, response, replyId, now)
    case Fail(error, replyId, _) => MarkFailed(t, error, replyId, now)
    case Abandon => t
  }

  predicate StoresRecord(action: Action) {
    action.DeltaWrite? || action.StreamCompleted? || action.Reply? || (action.Fail? && action.stores)
  }

  /** The calls after an action: a delta keeps its invocation, everything else ends it. */
  function CallsAfter(s: State, c: nat, action: Action): map<nat, Call>
    requires c in s.calls && s.calls[c].key in s.tasks
  {
    match action
    case DeltaRead(delta) =>
      s.calls[c := s.calls[c].(pending := Some(s.tasks[s.calls[c].key].artifactText + delta))]
    case DeltaWrite => s.calls[c := s.calls[c].(pending := None)]
    case _ => s.calls - {c}
  }

  function Act(s: State, c: nat, action: Action): State
    requires c in s.calls && s.calls[c].key in s.tasks
  {
    var k := s.calls[c].key;
    var s1 := Update(s, k, Acted(s.tasks[k], s.calls[c], action, s.now));
    (if StoresRecord(action) then Store(s1, k) else s1).(calls := CallsAfter(s, c, action))
  }

  /** The record of a new task, made and stored. */
  function Create(s: State, k: TaskKey, contextId: string, threadId: string): State {
    Store(Update(s, k, NewTask(contextId, if threadId != "" then threadId else contextId, s.now)), k)
  }

  /** A message without a task id. */
  function AcceptNew(s: State, k: TaskKey, streaming: bool, contextId: string, references: seq<string>,
                     freshContext: string, threadId: string, messageId: string, text: string): State
  {
    var p := Purge(s);
    var context := ResolveContext(Contents(p), k, contextId, references, freshContext);
    Start(Create(p, k, context, threadId), k, streaming, messageId, text)
  }

  /** A message that names a task. */
  function AcceptExisting(s: State, k: TaskKey, streaming: bool, contextId: string, messageId: string, text: string): State {
    var p := Purge(s);
    if Admit(Contents(p), k, contextId) == Accepted then Start(p, k, streaming, messageId, text) else p
  }

  /** One step. */
  function Apply(s: State, e: Event): State {
    match e
    case Tick(elapsed) => s.(now := s.now + elapsed)
    case SendNew(k, streaming, contextId, references, freshContext, threadId, messageId, text) =>
      AcceptNew(s, k, streaming, contextId, references, freshContext, threadId, messageId, text)
    case SendExisting(k, streaming, contextId, messageId, text) =>
      AcceptExisting(s, k, streaming, contextId, messageId, text)
    case Get(_) => Purge(s)
    case Handle(c, action) => if c in s.calls && s.calls[c].key in s.tasks then Act(s, c, action) else s
  }

  function Run(start: State, events: seq<Event>): State {
    if events == [] then start
    else Apply(Run(start, events[..|events| - 1]), events[|events| - 1])
  }

  predicate Valid(start: State, events: seq<Event>) {
    events == [] ||
    (var init := events[..|events| - 1];
     Valid(start, init) && Enabled(Run(start, init), events[|events| - 1]))
  }

  // ---------------------------------------------------------------------------
  // Invariants of every run
  // ---------------------------------------------------------------------------

  /** An invocation in flight is on a task that is WORKING. */
  ghost predicate InFlightIsWorking(s: State) {
    forall c :: c in s.calls ==>
      c < s.nextCall && s.calls[c].key in s.tasks && s.tasks[s.calls[c].key].status.state == Working
  }

  /** No two invocations are in flight on one task. */
  ghost predicate SingleFlight(s: State) {
    forall c, d :: c in s.calls && d in s.calls && s.calls[c].key == s.calls[d].key ==> c == d
  }

  ghost predicate TasksSettled(s: State) {
    && s.stored <= s.tasks.Keys
    && forall k :: k in s.tasks ==> Settled(s.tasks[k]) && s.tasks[k].updatedAt <= s.now
  }

  ghost predicate Inv(s: State) {
    InFlightIsWorking(s) && SingleFlight(s) && TasksSettled(s)
  }

  /** Later in a run: records only evolved, none vanished, and the store still finds every
      record whose last touch before then is within the retention time. */
  ghost predicate Advances(s: State, s': State) {
    && s'.retention == s.retention
    && s.now <= s'.now
    && s.nextCall <= s'.nextCall
    && s.tasks.Keys <= s'.tasks.Keys
    && (forall k :: k in s.tasks ==> Evolves(s.tasks[k], s'.tasks[k], s'.now))
    && (forall k :: k in s.stored && k in s.tasks && Fresh(s.tasks[k], s'.now, s.retention) ==> k in s'.stored)
  }

  lemma AdvancesIsTransitive(a: State, b: State, c: State)
    requires Advances(a, b) && Advances(b, c)
    requires TasksSettled(a)
    ensures Advances(a, c)
  {
  }

  /** Everything `Inv` says except that the record at `k` may not have been started yet. */
  ghost predicate AlmostInv(s: State, k: TaskKey) {
    && InFlightIsWorking(s) && SingleFlight(s)
    && s.stored <= s.tasks.Keys
    && (forall j :: j in s.tasks ==> s.tasks[j].updatedAt <= s.now)
    && (forall j :: j in s.tasks && j != k ==> Settled(s.tasks[j]))
    && (k in s.tasks ==> ArtifactMatches(s.tasks[k]) && UniqueIds(s.tasks[k].history))
  }

  predicate Idle(s: State, k: TaskKey) {
    forall c :: c in s.calls ==> s.calls[c].key != k
  }

  lemma PurgeKeepsInv(s: State)
    requires Inv(s)
    ensures Inv(Purge(s)) && Advances(s, Purge(s))
  {
  }

  lemma StoreAdvances(s: State, k: TaskKey, t: Task)
    requires s.stored <= s.tasks.Keys && forall j :: j in s.tasks ==> s.tasks[j].updatedAt <= s.now
    requires k in s.tasks ==> Evolves(s.tasks[k], t, s.now)
    ensures Advances(s, Store(Update(s, k, t), k))
    ensures Store(Update(s, k, t), k).tasks == s.tasks[k := t.(updatedAt := s.now)]
  {
  }

  /** Starting an invocation needs a task that no invocation is working on; afterwards the
      one new invocation is on it. */
  lemma StartKeepsInv(s: State, k: TaskKey, streaming: bool, messageId: string, text: string)
    requires AlmostInv(s, k) && k in s.tasks && Idle(s, k)
    ensures Inv(Start(s, k, streaming, messageId, text))
    ensures Advances(s, Start(s, k, streaming, messageId, text))
  {
    var t := BeginWork(s.tasks[k], messageId, text, s.now);
    BeginWorkSettles(s.tasks[k], messageId, text, s.now);
    StoreAdvances(s, k, t);
    var s' := Start(s, k, streaming, messageId, text);
    assert Advances(Store(Update(s, k, t), k), s');
    OneMoreCall(s, s', k, Call(k, streaming, None));
  }

  lemma OneMoreCall(s: State, s': State, k: TaskKey, call: Call)
    requires AlmostInv(s, k) && k in s.tasks && Idle(s, k) && call.key == k
    requires s'.now == s.now && s'.nextCall == s.nextCall + 1 && s'.calls == s.calls[s.nextCall := call]
    requires k in s'.tasks && s'.tasks == s.tasks[k := s'.tasks[k]] && s'.stored <= s'.tasks.Keys
    requires Settled(s'.tasks[k]) && s'.tasks[k].status.state == Working && s'.tasks[k].updatedAt <= s.now
    ensures Inv(s')
  {
  }

  lemma CreateAlmostInv(s: State, k: TaskKey, contextId: string, threadId: string)
    requires Inv(s) && k !in s.tasks
    ensures AlmostInv(Create(s, k, contextId, threadId), k)
    ensures Idle(Create(s, k, contextId, threadId), k)
    ensures Advances(s, Create(s, k, contextId, threadId))
  {
    var t := NewTask(contextId, if threadId != "" then threadId else contextId, s.now);
    StoreAdvances(s, k, t);
    OneMoreTask(s, Create(s, k, contextId, threadId), k);
  }

  lemma OneMoreTask(s: State, s': State, k: TaskKey)
    requires Inv(s) && k !in s.tasks
    requires s'.now == s.now && s'.nextCall == s.nextCall && s'.calls == s.calls
    requires k in s'.tasks && s'.tasks == s.tasks[k := s'.tasks[k]] && s'.stored <= s'.tasks.Keys
    requires ArtifactMatches(s'.tasks[k]) && UniqueIds(s'.tasks[k].history) && s'.tasks[k].updatedAt <= s.now
    ensures AlmostInv(s', k) && Idle(s', k)
  {
  }

  lemma ActedEvolves(t: Task, call: Call, action: Action, now: int)
    requires Settled(t)
    ensures Evolves(t, Acted(t, call, action, now), now)
    ensures t.status.state == Working ==> Settled(Acted(t, call, action, now))
    ensures action.DeltaRead? || action.DeltaWrite? ==> Acted(t, call, action, now).status == t.status
  {
    match action
    case StreamCompleted(status, replyId) => CompleteStreamSettles(t, status, replyId, now);
    case Reply(status, response, replyId) => ApplyResponseSettles(t, status, response, replyId, now);
    case Fail(error, replyId, _) => MarkFailedSettles(t, error, replyId, now);
    case _ =>
  }

  /** The record after the step, with the time stamp that storing it adds. */
  function Written(s: State, c: nat, action: Action): Task
    requires c in s.calls && s.calls[c].key in s.tasks
  {
    var t := Acted(s.tasks[s.calls[c].key], s.calls[c], action, s.now);
    if StoresRecord(action) then t.(updatedAt := s.now) else t
  }

  lemma WrittenEvolves(s: State, c: nat, action: Action)
    requires Inv(s) && c in s.calls
    ensures var t' := Written(s, c, action);
            Evolves(s.tasks[s.calls[c].key], t', s.now) && Settled(t')
    ensures action.DeltaRead? || action.DeltaWrite? ==> Written(s, c, action).status == s.tasks[s.calls[c].key].status
  {
    ActedEvolves(s.tasks[s.calls[c].key], s.calls[c], action, s.now);
  }

  lemma ActShape(s: State, c: nat, action: Action)
    requires Inv(s) && c in s.calls
    ensures Act(s, c, action).tasks == s.tasks[s.calls[c].key := Written(s, c, action)]
    ensures Advances(s, Act(s, c, action))
    ensures Act(s, c, action).now == s.now && Act(s, c, action).nextCall == s.nextCall
    ensures Act(s, c, action).stored <= s.tasks.Keys
  {
    var k := s.calls[c].key;
    WrittenEvolves(s, c, action);
    ActedEvolves(s.tasks[k], s.calls[c], action, s.now);
    StoreAdvances(s, k, Acted(s.tasks[k], s.calls[c], action, s.now));
  }

  /** The calls after a step are among those before, on the same tasks; if the acting one
      is still there its task kept its status. */
  lemma CallsShrink(s: State, c: nat, action: Action)
    requires Inv(s) && c in s.calls
    ensures forall d :: d in CallsAfter(s, c, action) ==> d in s.calls && CallsAfter(s, c, action)[d].key == s.calls[d].key
    ensures c in CallsAfter(s, c, action) <==> action.DeltaRead? || action.DeltaWrite?
  {
  }

  lemma ActKeepsInv(s: State, c: nat, action: Action)
    requires Inv(s) && c in s.calls
    ensures Inv(Act(s, c, action)) && Advances(s, Act(s, c, action))
  {
    ActShape(s, c, action);
    WrittenEvolves(s, c, action);
    CallsShrink(s, c, action);
    var s' := Act(s, c, action);
    assert s'.calls == CallsAfter(s, c, action);
    CallsKeepInv(s, s', s.calls[c].key, c);
  }

  lemma CallsKeepInv(s: State, s': State, k: TaskKey, c: nat)
    requires Inv(s) && c in s.calls && s.calls[c].key == k
    requires s'.now == s.now && s'.nextCall == s.nextCall && s'.stored <= s.tasks.Keys
    requires k in s'.tasks && s'.tasks == s.tasks[k := s'.tasks[k]]
    requires Settled(s'.tasks[k]) && s'.tasks[k].updatedAt <= s.now
    requires forall d :: d in s'.calls ==> d in s.calls && s'.calls[d].key == s.calls[d].key
    requires c in s'.calls ==> s'.tasks[k].status == s.tasks[k].status
    ensures Inv(s')
  {
  }

  lemma StepKeepsInv(s: State, e: Event)
    requires Inv(s) && Enabled(s, e)
    ensures Inv(Apply(s, e)) && Advances(s, Apply(s, e))
  {
    var p := Purge(s);
    match e
    case Tick(_) =>
    case Get(_) => PurgeKeepsInv(s);
    case SendNew(k, streaming, contextId, references, freshContext, threadId, messageId, text) =>
      var context := ResolveContext(Contents(p), k, contextId, references, freshContext);
      PurgeKeepsInv(s);
      CreateAlmostInv(p, k, context, threadId);
      var q := Create(p, k, context, threadId);
      StartKeepsInv(q, k, streaming, messageId, text);
      AdvancesIsTransitive(s, p, q);
      AdvancesIsTransitive(s, q, Start(q, k, streaming, messageId, text));
    case SendExisting(k, streaming, contextId, messageId, text) =>
      PurgeKeepsInv(s);
      if Admit(Contents(p), k, contextId) == Accepted {
        StartKeepsInv(p, k, streaming, messageId, text);
        AdvancesIsTransitive(s, p, Start(p, k, streaming, messageId, text));
      }
    case Handle(c, action) => ActKeepsInv(s, c, action);
  }
}
