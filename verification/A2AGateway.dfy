/** The gateway over whole runs: the store, and each invocation in flight with the record that
    its handler holds. After any sequence of protocol steps the objects are those of the
    protocol state, so the theorems about runs are theorems about these objects. */
module A2AGateway {
  import opened Wrappers
  import opened PythonText
  import opened A2ATask
  import opened A2AStore
  import A2ARuns
  import P = A2AProtocol

  /** A handler at a suspension point; `pending` is a text computed and not written yet. */
  datatype Invocation = Invocation(record: TaskRecord, streaming: bool, pending: Option<string>)

  /** A handler's invocation is that of the protocol state, and so is the record it holds. */
  ghost predicate Handles(store: TaskStore, s: P.State, c: nat, i: Invocation)
    reads store`records, i.record
  {
    && c in s.calls && s.calls[c] == P.Call(i.record.key, i.streaming, i.pending)
    && store.HoldsFor(s, i.record)
  }

  function RecordsOf(held: map<nat, Invocation>): set<TaskRecord> {
    set c | c in held :: held[c].record
  }

  ghost predicate AllHandle(store: TaskStore, s: P.State, held: map<nat, Invocation>)
    reads store`records, RecordsOf(held)
  {
    forall c :: c in held ==> Handles(store, s, c, held[c])
  }

  /** Where a step leaves a handler; `text` is the text of its record. */
  function NextOf(i: Invocation, action: P.Action, text: string): Option<Invocation> {
    match action
    case DeltaRead(delta) => Some(i.(pending := Some(text + delta)))
    case DeltaWrite => Some(i.(pending := None))
    case _ => None
  }

  /** Handlers whose records and calls a step leaves alone go on as before. */
  lemma OthersGoOn(store: TaskStore, s: P.State, s': P.State, held: map<nat, Invocation>)
    requires AllHandle(store, s, held) && CallsKept(s, s', held.Keys)
    ensures AllHandle(store, s', held)
  {
    forall c | c in held ensures Handles(store, s', c, held[c]) {
      assert Handles(store, s, c, held[c]) && CallKept(s, s', c);
    }
  }

  class Gateway {
    const store: TaskStore
    var held: map<nat, Invocation>
    var nextCall: nat
    var now: int
    /** Every record that was made. */
    ghost var objects: set<TaskRecord>

    constructor (retention: nat, now: int)
      ensures fresh(store) && objects == {} && Represents(P.Init(retention, now))
    {
      store := new TaskStore(retention);
      held, nextCall, this.now, objects := map[], 0, now, {};
    }

    ghost predicate Knows(held: map<nat, Invocation>)
      reads this`objects, store`records
    {
      && (forall j :: j in store.records ==> store.records[j] in objects)
      && (forall c :: c in held ==> held[c].record in objects)
    }

    ghost predicate Represents(s: P.State)
      reads this, store, objects
    {
      && Knows(held)
      && store.StoreIs(s) && s.now == now && s.nextCall == nextCall
      && held.Keys == s.calls.Keys
      && AllHandle(store, s, held)
    }

    /** The store's part of a message without a task id. The handlers at work keep their records. */
    method StoreNew(ghost s: P.State, k: P.TaskKey, ghost streaming: bool, contextId: string, references: seq<string>,
                    freshContext: string, threadId: string, messageId: string, text: string) returns (record: TaskRecord)
      requires Represents(s) && k !in s.tasks
      modifies store
      ensures fresh(record) && record.key == k
      ensures forall j :: j in store.records ==> store.records[j] in objects || store.records[j] == record
      ensures AllHandle(store, s, held)
      ensures store.Represents(P.AcceptNew(s, k, streaming, contextId, references, freshContext, threadId, messageId, text), record)
    {
      record := store.AcceptNew(s, k, streaming, contextId, references, freshContext, threadId, messageId, text, now);
      forall c | c in held ensures Handles(store, s, c, held[c]) {
        assert old(Handles(store, s, c, held[c]));
      }
    }

    method SendNew(ghost s: P.State, k: P.TaskKey, streaming: bool, contextId: string, references: seq<string>,
                   freshContext: string, threadId: string, messageId: string, text: string)
      returns (record: TaskRecord)
      requires Represents(s) && P.Inv(s) && k !in s.tasks
      modifies this, store
      ensures Represents(P.AcceptNew(s, k, streaming, contextId, references, freshContext, threadId, messageId, text))
      ensures objects <= old(objects) + {record} && fresh(record)
    {
      record := StoreNew(s, k, streaming, contextId, references, freshContext, threadId, messageId, text);
      NewKeepsCalls(s, k, streaming, contextId, references, freshContext, threadId, messageId, text);
      Begin(s, P.AcceptNew(s, k, streaming, contextId, references, freshContext, threadId, messageId, text), record, streaming);
    }

    /** A handler begins on a record that the store found or made, if there is one. */
    method Begin(ghost s: P.State, ghost s': P.State, record: TaskRecord?, streaming: bool)
      requires store.StoreIs(s') && AllHandle(store, s, held)
      requires forall j :: j in store.records ==> store.records[j] in objects || store.records[j] == record
      requires forall c :: c in held ==> held[c].record in objects
      requires s.now == now && s.nextCall == nextCall && held.Keys == s.calls.Keys && nextCall !in held
      requires if record == null then NothingStarted(s, s')
               else Started(s, s', record.key, streaming) && store.HoldsFor(s', record)
      modifies this
      ensures Represents(s')
      ensures forall r :: r in objects ==> r in old(objects) || r == record
    {
      OthersGoOn(store, s, s', held);
      if record != null {
        held := held[nextCall := Invocation(record, streaming, None)];
        nextCall := nextCall + 1;
        objects := objects + {record};
      }
    }

    /** The store's part of a message that names a task: the record, if the message is accepted. */
    method StoreExisting(ghost s: P.State, k: P.TaskKey, ghost streaming: bool, contextId: string, messageId: string, text: string)
      returns (record: TaskRecord?)
      requires Represents(s)
      requires P.Admit(P.Contents(P.Purge(s)), k, contextId) == P.Accepted ==> P.Idle(s, k)
      modifies store, if k in store.records then {store.records[k]} else {}
      ensures record != null <==> P.Admit(P.Contents(P.Purge(s)), k, contextId) == P.Accepted
      ensures Knows(held) && AllHandle(store, s, held)
      ensures store.StoreIs(P.AcceptExisting(s, k, streaming, contextId, messageId, text))
      ensures record != null ==> record.key == k && record in objects &&
                                 store.HoldsFor(P.AcceptExisting(s, k, streaming, contextId, messageId, text), record)
    {
      var admission;
      admission, record := store.AcceptExisting(s, k, streaming, contextId, messageId, text, now);
      forall c | c in held ensures Handles(store, s, c, held[c]) {
        assert old(Handles(store, s, c, held[c]));
      }
      if admission != P.Accepted { record := null; }
    }

    method SendExisting(ghost s: P.State, k: P.TaskKey, streaming: bool, contextId: string, messageId: string, text: string)
      requires Represents(s) && P.Inv(s)
      modifies this, store, if k in store.records then {store.records[k]} else {}
      ensures Represents(P.AcceptExisting(s, k, streaming, contextId, messageId, text))
      ensures objects <= old(objects)
    {
      ExistingKeepsCalls(s, k, streaming, contextId, messageId, text);
      var record := StoreExisting(s, k, streaming, contextId, messageId, text);
      Begin(s, P.AcceptExisting(s, k, streaming, contextId, messageId, text), record, streaming);
    }

    /** The step of a handler on its record, and where it leaves the handler. The others keep
        their records. */
    method Work(ghost s: P.State, c: nat, action: P.Action, mine: Invocation) returns (next: Option<Invocation>)
      requires Represents(s) && c in held && held[c] == mine
      requires P.SingleFlight(s) && P.Enabled(s, P.Handle(c, action))
      modifies store, mine.record
      ensures Knows(held) && AllHandle(store, s, held - {c})
      ensures store.Represents(P.Act(s, c, action), mine.record)
      ensures next == NextOf(mine, action, s.tasks[s.calls[c].key].artifactText)
    {
      assert Handles(store, s, c, mine);
      if action.DeltaRead? {
        var text := mine.record.ReadWithDelta(action.delta);
        ReadKeepsRecords(s, c, action.delta);
        return Some(mine.(pending := Some(text)));
      }
      store.Perform(s, c, action, if mine.pending.Some? then mine.pending.value else "", mine.record, now);
      forall d | d in held && d != c ensures Handles(store, s, d, held[d]) {
        assert old(Handles(store, s, d, held[d]));
      }
      next := if action.DeltaWrite? then Some(mine.(pending := None)) else None;
    }

    /** The same, with what it means for the calls in flight. */
    method WorkOn(ghost s: P.State, c: nat, action: P.Action, mine: Invocation) returns (next: Option<Invocation>)
      requires Represents(s) && c in held && held[c] == mine
      requires P.Inv(s) && P.Enabled(s, P.Handle(c, action))
      modifies store, mine.record
      ensures Knows(held) && AllHandle(store, s, held - {c})
      ensures store.Represents(P.Act(s, c, action), mine.record)
      ensures Left(s, P.Act(s, c, action), c, next) && (next.Some? ==> next.value.record == mine.record)
    {
      assert Handles(store, s, c, mine);
      ActKeepsCalls(s, c, action, mine);
      next := Work(s, c, action, mine);
    }

    method Handle(ghost s: P.State, c: nat, action: P.Action)
      requires Represents(s) && P.Inv(s) && P.Enabled(s, P.Handle(c, action))
      modifies this, store, held[c].record
      ensures Represents(P.Act(s, c, action))
      ensures objects <= old(objects)
    {
      var next := WorkOn(s, c, action, held[c]);
      Leave(s, P.Act(s, c, action), c, next);
    }

    /** A handler waits at its next suspension point, or is done. */
    method Leave(ghost s: P.State, ghost s': P.State, c: nat, next: Option<Invocation>)
      requires c in held && store.Represents(s', held[c].record) && Left(s, s', c, next)
      requires s.now == now && s.nextCall == nextCall && s.calls.Keys == held.Keys
      requires AllHandle(store, s, held - {c}) && Knows(held)
      requires next.Some? ==> next.value.record == held[c].record
      modifies this`held
      ensures Represents(s')
    {
      OthersGoOn(store, s, s', held - {c});
      ghost var others := held - {c};
      held := if next.Some? then held[c := next.value] else held - {c};
      forall d | d in held && d != c ensures Handles(store, s', d, held[d]) {
        assert d in others && Handles(store, s', d, others[d]);
      }
    }

    method Look(ghost s: P.State, k: P.TaskKey)
      requires Represents(s)
      modifies store
      ensures Represents(P.Purge(s)) && objects == old(objects)
    {
      PurgedContents(s);
      var record := store.Get(k, now);
      forall c | c in held ensures Handles(store, P.Purge(s), c, held[c]) {
        assert old(Handles(store, s, c, held[c]));
      }
    }

    method Send(ghost s: P.State, e: P.Event)
      requires Represents(s) && P.Inv(s) && P.Enabled(s, e) && (e.SendNew? || e.SendExisting?)
      modifies this, store, objects
      ensures Represents(P.Apply(s, e)) && fresh(objects - old(objects))
    {
      if e.SendNew? {
        var record := SendNew(s, e.key, e.streaming, e.contextId, e.references, e.freshContext, e.threadId, e.messageId, e.text);
      } else {
        SendExisting(s, e.key, e.streaming, e.contextId, e.messageId, e.text);
      }
    }

    method Step(ghost s: P.State, e: P.Event)
      requires Represents(s) && P.Inv(s) && P.Enabled(s, e)
      modifies this, store, objects
      ensures Represents(P.Apply(s, e)) && fresh(objects - old(objects))
    {
      match e
      case Tick(elapsed) => now := now + elapsed;
      case Get(k) => Look(s, k);
      case Handle(c, action) => Handle(s, c, action);
      case _ => Send(s, e);
    }
  }

  /** A step leaves these calls and their records alone. */
  ghost predicate CallsKept(s: P.State, s': P.State, cs: set<nat>) {
    forall c :: c in cs ==> CallKept(s, s', c)
  }

  predicate CallKept(s: P.State, s': P.State, c: nat) {
    && c in s.calls && c in s'.calls && s'.calls[c] == s.calls[c]
    && s.calls[c].key in s.tasks && s.calls[c].key in s'.tasks && s'.tasks[s.calls[c].key] == s.tasks[s.calls[c].key]
  }

  /** One more call, on the task `k`. */
  ghost predicate Started(s: P.State, s': P.State, k: P.TaskKey, streaming: bool) {
    && CallsKept(s, s', s.calls.Keys)
    && s'.now == s.now && s'.nextCall == s.nextCall + 1
    && s'.calls == s.calls[s.nextCall := P.Call(k, streaming, None)]
  }

  ghost predicate NothingStarted(s: P.State, s': P.State) {
    CallsKept(s, s', s.calls.Keys) && s'.now == s.now && s'.nextCall == s.nextCall && s'.calls == s.calls
  }

  lemma StartKeepsCalls(s: P.State, q: P.State, k: P.TaskKey, streaming: bool, messageId: string, text: string)
    requires k in q.tasks && q.calls == s.calls && q.now == s.now && q.nextCall == s.nextCall
    requires P.Inv(s) && P.Idle(s, k) && forall j :: j in s.tasks && j != k ==> j in q.tasks && q.tasks[j] == s.tasks[j]
    ensures Started(s, P.Start(q, k, streaming, messageId, text), k, streaming)
  {
    var s' := P.Start(q, k, streaming, messageId, text);
    forall c | c in s.calls ensures CallKept(s, s', c) {
      assert s.calls[c].key != k;
    }
  }

  lemma NewKeepsCalls(s: P.State, k: P.TaskKey, streaming: bool, contextId: string, references: seq<string>,
                      freshContext: string, threadId: string, messageId: string, text: string)
    requires P.Inv(s) && k !in s.tasks
    ensures Started(s, P.AcceptNew(s, k, streaming, contextId, references, freshContext, threadId, messageId, text), k, streaming)
  {
    var p := P.Purge(s);
    var context := P.ResolveContext(P.Contents(p), k, contextId, references, freshContext);
    StartKeepsCalls(s, P.Create(p, k, context, threadId), k, streaming, messageId, text);
  }

  lemma ExistingKeepsCalls(s: P.State, k: P.TaskKey, streaming: bool, contextId: string, messageId: string, text: string)
    requires P.Inv(s)
    ensures var s' := P.AcceptExisting(s, k, streaming, contextId, messageId, text);
            if P.Admit(P.Contents(P.Purge(s)), k, contextId) == P.Accepted then Started(s, s', k, streaming) && P.Idle(s, k)
            else NothingStarted(s, s')
  {
    if P.Admit(P.Contents(P.Purge(s)), k, contextId) == P.Accepted {
      P.PurgeKeepsInv(s);
      A2ARuns.AdmittedOnlyWhenInterrupted(P.Purge(s), k, contextId);
      StartKeepsCalls(s, P.Purge(s), k, streaming, messageId, text);
    }
  }

  lemma ReadKeepsRecords(s: P.State, c: nat, delta: string)
    requires c in s.calls && s.calls[c].key in s.tasks
    ensures var s' := P.Act(s, c, P.DeltaRead(delta));
            s'.tasks == s.tasks && s'.stored == s.stored && s'.retention == s.retention
  {
  }

  /** The calls of `s'` are those of `s`, the one of `c` being where its handler is next. */
  ghost predicate Left(s: P.State, s': P.State, c: nat, next: Option<Invocation>) {
    && CallsKept(s, s', s.calls.Keys - {c})
    && s'.now == s.now && s'.nextCall == s.nextCall
    && s'.calls.Keys == (if next.Some? then s.calls.Keys + {c} else s.calls.Keys - {c})
    && (next.Some? ==> s'.calls[c] == P.Call(next.value.record.key, next.value.streaming, next.value.pending))
  }

  lemma ActKeepsCalls(s: P.State, c: nat, action: P.Action, i: Invocation)
    requires P.Inv(s) && c in s.calls && s.calls[c] == P.Call(i.record.key, i.streaming, i.pending)
    ensures Left(s, P.Act(s, c, action), c, NextOf(i, action, s.tasks[s.calls[c].key].artifactText))
  {
    P.ActShape(s, c, action);
    var s' := P.Act(s, c, action);
    assert s'.calls == P.CallsAfter(s, c, action);
    forall d | d in s.calls && d != c ensures CallKept(s, s', d) {
      assert s.calls[d].key != s.calls[c].key;
    }
  }

  /** The gateway over a whole run. */
  method Serve(retention: nat, now: int, events: seq<P.Event>) returns (g: Gateway)
    requires P.Valid(P.Init(retention, now), events)
    ensures fresh(g) && g.Represents(P.Run(P.Init(retention, now), events))
    ensures forall c, d :: c in g.held && d in g.held && g.held[c].record == g.held[d].record ==> c == d
    ensures forall c :: c in g.held ==> g.held[c].record.state == Working
    ensures forall c :: c in g.held && g.held[c].streaming ==> TextSoFar(g, c) == Concat(A2ARuns.DeltasOf(events, c))
  {
    g := new Gateway(retention, now);
    ghost var start := P.Init(retention, now);
    assert events[..0] == [];
    for i := 0 to |events|
      invariant fresh(g) && fresh(g.store) && fresh(g.objects)
      invariant P.Valid(start, events[..i]) && g.Represents(P.Run(start, events[..i]))
    {
      PrefixIsValid(start, events, i);
      A2ARuns.ReachableInv(retention, now, events[..i]);
      g.Step(P.Run(start, events[..i]), events[i]);
    }
    assert events[..|events|] == events;
    ObjectsOfRun(g, retention, now, events);
  }

  lemma PrefixIsValid(start: P.State, events: seq<P.Event>, i: nat)
    requires i < |events| && P.Valid(start, events)
    ensures P.Valid(start, events[..i + 1]) && P.Enabled(P.Run(start, events[..i]), events[i])
    ensures P.Run(start, events[..i + 1]) == P.Apply(P.Run(start, events[..i]), events[i])
  {
    assert events[..i + 1] + events[i + 1..] == events;
    A2ARuns.RunConcat(start, events[..i + 1], events[i + 1..]);
    assert events[..i + 1][..i] == events[..i];
  }

  /** What the theorems about runs say about the objects. */
  lemma ObjectsOfRun(g: Gateway, retention: nat, now: int, events: seq<P.Event>)
    requires P.Valid(P.Init(retention, now), events) && g.Represents(P.Run(P.Init(retention, now), events))
    ensures forall c, d :: c in g.held && d in g.held && g.held[c].record == g.held[d].record ==> c == d
    ensures forall c :: c in g.held ==> g.held[c].record.state == Working
    ensures forall c :: c in g.held && g.held[c].streaming ==> TextSoFar(g, c) == Concat(A2ARuns.DeltasOf(events, c))
  {
    var s := P.Run(P.Init(retention, now), events);
    A2ARuns.ReachableInv(retention, now, events);
    A2ARuns.TextsAreDeltas(retention, now, events);
    forall c | c in g.held ensures g.held[c].record.state == Working {
      assert Handles(g.store, s, c, g.held[c]);
    }
    forall c, d | c in g.held && d in g.held && g.held[c].record == g.held[d].record ensures c == d {
      assert Handles(g.store, s, c, g.held[c]) && Handles(g.store, s, d, g.held[d]);
    }
    forall c | c in g.held && g.held[c].streaming ensures TextSoFar(g, c) == Concat(A2ARuns.DeltasOf(events, c)) {
      assert Handles(g.store, s, c, g.held[c]);
      assert TextSoFar(g, c) == A2ARuns.TextOf(s, c);
    }
  }

  /** The text of a streaming invocation: what it computed last, or what its record holds. */
  function TextSoFar(g: Gateway, c: nat): string
    requires c in g.held
    reads g, g.held[c].record
  {
    if g.held[c].pending.Some? then g.held[c].pending.value else g.held[c].record.artifactText
  }
}
