/** Trigger executions over whole runs of record, update and claim. Operations carry the key
    and the status that the store's methods make of their arguments. */
module TriggerRuns {
  import opened Wrappers
  import opened Sequences
  import opened TriggerExecutions

  datatype Operation =
    | Record(key: Key, status: Status)
    | Update(id: nat, target: Status)
    | Claim(id: nat, claimedBy: string)

  function Apply(rows: seq<Row>, op: Operation): seq<Row> {
    match op
    case Record(key, status) => Recorded(rows, key, status)
    case Update(id, target) => Updated(rows, id, target)
    case Claim(id, claimer) => Claimed(rows, id, claimer)
  }

  function Run(ops: seq<Operation>): seq<Row> {
    if ops == [] then [] else Apply(Run(ops[..|ops| - 1]), ops[|ops| - 1])
  }

  // ---------------------------------------------------------------------------
  // One step
  // ---------------------------------------------------------------------------

  /** Rows stay where they are and keep their keys. */
  ghost predicate Extends(before: seq<Row>, after: seq<Row>) {
    |before| <= |after| && forall i :: 0 <= i < |before| ==> after[i].key == before[i].key
  }

  predicate KeysDiffer(rows: seq<Row>) {
    forall i, j :: 0 <= i < j < |rows| ==> rows[i].key != rows[j].key
  }

  lemma StepExtends(rows: seq<Row>, op: Operation)
    ensures Extends(rows, Apply(rows, op))
  {
  }

  lemma StepKeepsKeys(rows: seq<Row>, op: Operation)
    requires KeysDiffer(rows)
    ensures KeysDiffer(Apply(rows, op))
  {
    StepExtends(rows, op);
  }

  /** A row is left alone, or moves along the table: when it is claimed from pending, or to
      the status an update names. */
  lemma StepMoves(rows: seq<Row>, op: Operation, id: nat)
    requires id < |rows|
    ensures var after := Apply(rows, op);
            || after[id].status == rows[id].status
            || (op.Update? && after[id].status in Successors(rows[id].status))
            || (op.Claim? && op.id == id && rows[id].status == Pending && after[id].status == Queued)
  {
  }

  // ---------------------------------------------------------------------------
  // Runs
  // ---------------------------------------------------------------------------

  /** In every run no two executions answer the same event. */
  lemma {:induction false} OneExecutionPerEvent(ops: seq<Operation>)
    ensures KeysDiffer(Run(ops))
  {
    if ops != [] {
      OneExecutionPerEvent(ops[..|ops| - 1]);
      StepKeepsKeys(Run(ops[..|ops| - 1]), ops[|ops| - 1]);
    }
  }

  lemma RunLast(ops: seq<Operation>, op: Operation)
    ensures Run(ops + [op]) == Apply(Run(ops), op)
  {
    var all := ops + [op];
    assert all[..|all| - 1] == ops && all[|all| - 1] == op;
  }

  lemma RunSnoc(ops: seq<Operation>, more: seq<Operation>)
    requires more != []
    ensures Run(ops + more) == Apply(Run(ops + more[..|more| - 1]), more[|more| - 1])
  {
    LastApart(ops, more);
    RunLast(ops + more[..|more| - 1], more[|more| - 1]);
  }

  lemma {:induction false} RunExtends(ops: seq<Operation>, more: seq<Operation>)
    ensures Extends(Run(ops), Run(ops + more))
  {
    if more == [] {
      assert ops + more == ops;
    } else {
      var n := |more| - 1;
      RunSnoc(ops, more);
      RunExtends(ops, more[..n]);
      StepExtends(Run(ops + more[..n]), more[n]);
    }
  }

  /** An event recorded again, at any later time and in whatever state its execution is, gets
      the execution it already has; nothing changes. */
  lemma RecordedOnce(ops: seq<Operation>, key: Key, status: Status, more: seq<Operation>, other: Status)
    ensures var first := ops + [Record(key, status)];
            var id := LatestWith(Run(first), key);
            id < |Run(first)| &&
            Run(first + more + [Record(key, other)]) == Run(first + more) &&
            LatestWith(Run(first + more), key) == id
  {
    var first := ops + [Record(key, status)];
    RunSnoc(ops, [Record(key, status)]);
    assert ops + [] == ops;
    var id := LatestWith(Run(first), key);
    RunExtends(first, more);
    OneExecutionPerEvent(first + more);
    assert Run(first + more)[id].key == key;
    RunSnoc(first + more, [Record(key, other)]);
    assert first + more + [] == first + more;
  }

  /** Completed is final. */
  lemma {:induction false} CompletedForever(ops: seq<Operation>, more: seq<Operation>, id: nat)
    requires id < |Run(ops)| && Run(ops)[id].status == Completed
    ensures id < |Run(ops + more)| && Run(ops + more)[id].status == Completed
  {
    if more == [] {
      assert ops + more == ops;
    } else {
      var n := |more| - 1;
      RunSnoc(ops, more);
      CompletedForever(ops, more[..n], id);
      StepExtends(Run(ops + more[..n]), more[n]);
      StepMoves(Run(ops + more[..n]), more[n], id);
    }
  }

  /** The statuses an execution was seen in, one for each change, since it last became pending. */
  function SinceReplay(ops: seq<Operation>, id: nat): seq<Status> {
    if ops == [] then [] else
    var before := Run(ops[..|ops| - 1]);
    var after := Run(ops);
    var path := SinceReplay(ops[..|ops| - 1], id);
    if id >= |after| then []
    else if id >= |before| then [after[id].status]
    else if after[id].status == before[id].status then path
    else if after[id].status == Pending then [Pending]
    else path + [after[id].status]
  }

  predicate RecordsPending(ops: seq<Operation>) {
    forall op :: op in ops && op.Record? ==> op.status == Pending
  }

  /** The only ways from pending to a status. */
  predicate WayTo(path: seq<Status>, status: Status) {
    match status
    case Pending => path == [Pending]
    case Queued => path == [Pending, Queued]
    case Processing => path == [Pending, Queued, Processing]
    case Completed => path == [Pending, Queued, Processing, Completed]
    case Failed => path == [Pending, Failed] || path == [Pending, Queued, Failed] || path == [Pending, Queued, Processing, Failed]
    case DeadLetter =>
      path == [Pending, DeadLetter] || path == [Pending, Queued, DeadLetter] || path == [Pending, Queued, Processing, DeadLetter]
    case Other(_) => false
  }

  lemma WayGoesOn(path: seq<Status>, from: Status, to: Status)
    requires WayTo(path, from) && to in Successors(from) && to != Pending
    ensures WayTo(path + [to], to)
  {
  }

  /** Executions recorded as pending reach each status only along the table: since the last
      replay a completed one was pending, queued, processing and nothing else. */
  lemma {:induction false} StatusTellsTheWay(ops: seq<Operation>, id: nat)
    requires RecordsPending(ops) && id < |Run(ops)|
    ensures WayTo(SinceReplay(ops, id), Run(ops)[id].status)
  {
    var n := |ops| - 1;
    var before := Run(ops[..n]);
    assert ops[n] in ops;
    StepExtends(before, ops[n]);
    if id < |before| {
      StatusTellsTheWay(ops[..n], id);
      StepMoves(before, ops[n], id);
      var to := Run(ops)[id].status;
      if to != before[id].status && to != Pending {
        assert to in Successors(before[id].status);
        WayGoesOn(SinceReplay(ops[..n], id), before[id].status, to);
      }
    }
  }

  /** A way along the moves that starts pending and is not a replay. */
  predicate IsWay(path: seq<Status>) {
    && path != [] && path[0] == Pending
    && forall k :: 0 <= k < |path| - 1 ==> GoesOn(path, k)
  }

  predicate GoesOn(path: seq<Status>, k: nat)
    requires k + 1 < |path|
  {
    MayMove(path[k], path[k + 1]) && path[k + 1] != Pending
  }

  lemma FrontIsWay(path: seq<Status>)
    requires IsWay(path) && |path| >= 2
    ensures var n := |path| - 1;
            IsWay(path[..n]) && MayMove(path[n - 1], path[n]) && path[n] != Pending && path[n] != path[n - 1]
  {
    var n := |path| - 1;
    assert GoesOn(path, n - 1);
    forall k | 0 <= k < |path[..n]| - 1 ensures GoesOn(path[..n], k) {
      assert GoesOn(path, k);
    }
  }

  lemma WayIsWay(path: seq<Status>, status: Status)
    requires WayTo(path, status)
    ensures IsWay(path) && path[|path| - 1] == status
  {
  }

  lemma UpdateExtends(ops: seq<Operation>, id: nat, to: Status)
    requires id < |Run(ops)| && MayMove(Run(ops)[id].status, to) && to != Run(ops)[id].status
    ensures var longer := ops + [Update(id, to)];
            id < |Run(longer)| && Run(longer)[id].status == to && Run(longer)[id].claimedBy == Run(ops)[id].claimedBy &&
            SinceReplay(longer, id) == if to == Pending then [Pending] else SinceReplay(ops, id) + [to]
  {
    var longer := ops + [Update(id, to)];
    assert longer[..|longer| - 1] == ops && longer[|longer| - 1] == Update(id, to);
    MayMoveIff(Run(ops)[id].status, to);
  }

  /** `longer` goes on from `ops`, and the execution has gone this way since its last replay. */
  ghost predicate Taken(ops: seq<Operation>, longer: seq<Operation>, id: nat, path: seq<Status>) {
    && ops <= longer && RecordsPending(longer)
    && id < |Run(longer)| && path != []
    && SinceReplay(longer, id) == path && Run(longer)[id].status == path[|path| - 1]
  }

  lemma TakenFurther(ops: seq<Operation>, longer: seq<Operation>, id: nat, path: seq<Status>, to: Status)
    requires Taken(ops, longer, id, path) && MayMove(path[|path| - 1], to) && to != Pending && to != path[|path| - 1]
    ensures Taken(ops, longer + [Update(id, to)], id, path + [to])
  {
    UpdateExtends(longer, id, to);
    assert ops <= longer <= longer + [Update(id, to)];
  }

  /** From any pending execution in any run, updates lead along each way, to its end. */
  lemma {:induction false} WayIsTaken(ops: seq<Operation>, id: nat, path: seq<Status>) returns (longer: seq<Operation>)
    requires RecordsPending(ops) && id < |Run(ops)| && Run(ops)[id].status == Pending && IsWay(path)
    ensures Taken(ops, longer, id, path)
    decreases |path|
  {
    if |path| == 1 {
      longer := ops;
      StatusTellsTheWay(ops, id);
    } else {
      var front, last := path[..|path| - 1], path[|path| - 1];
      FrontIsWay(path);
      longer := WayIsTaken(ops, id, front);
      TakenFurther(ops, longer, id, front, last);
      longer := longer + [Update(id, last)];
      assert path == front + [last];
    }
  }

  /** In particular a pending execution that is claimed can be processed and completed. */
  lemma ClaimedCanComplete(ops: seq<Operation>, id: nat, claimer: string)
    requires id < |Run(ops)| && Run(ops)[id].status == Pending
    ensures var done := ops + [Claim(id, claimer)] + [Update(id, Processing)] + [Update(id, Completed)];
            id < |Run(done)| && Run(done)[id].status == Completed && Run(done)[id].claimedBy == Some(Claimer(claimer))
  {
    var claimed := ops + [Claim(id, claimer)];
    RunLast(ops, Claim(id, claimer));
    UpdateExtends(claimed, id, Processing);
    UpdateExtends(claimed + [Update(id, Processing)], id, Completed);
  }

  /** The claims of an execution that succeeded. */
  function Claims(ops: seq<Operation>, id: nat): nat {
    if ops == [] then 0 else
    var last := ops[|ops| - 1];
    Claims(ops[..|ops| - 1], id) +
      (if last.Claim? && last.id == id && Claimable(Run(ops[..|ops| - 1]), id) then 1 else 0)
  }

  /** How often an execution became pending again. */
  function Replays(ops: seq<Operation>, id: nat): nat {
    if ops == [] then 0 else
    var before := Run(ops[..|ops| - 1]);
    var after := Run(ops);
    Replays(ops[..|ops| - 1], id) +
      (if id < |before| && id < |after| && before[id].status != Pending && after[id].status == Pending then 1 else 0)
  }

  /** An execution is claimed at most once, and once more after each replay; while it is
      pending one of these claims is still open. */
  lemma {:induction false} ClaimedOncePerReplay(ops: seq<Operation>, id: nat)
    ensures Claims(ops, id) <= 1 + Replays(ops, id)
    ensures Claimable(Run(ops), id) ==> Claims(ops, id) <= Replays(ops, id)
    ensures id >= |Run(ops)| ==> Claims(ops, id) == Replays(ops, id) == 0
  {
    if ops != [] {
      var n := |ops| - 1;
      ClaimedOncePerReplay(ops[..n], id);
      StepExtends(Run(ops[..n]), ops[n]);
      if id < |Run(ops[..n])| {
        StepMoves(Run(ops[..n]), ops[n], id);
      }
    }
  }

  // ---------------------------------------------------------------------------
  // The bound is met
  // ---------------------------------------------------------------------------

  lemma Snoc(ops: seq<Operation>, op: Operation, id: nat)
    ensures Run(ops + [op]) == Apply(Run(ops), op)
    ensures Claims(ops + [op], id) == Claims(ops, id) + (if op.Claim? && op.id == id && Claimable(Run(ops), id) then 1 else 0)
    ensures var before := Run(ops);
            var after := Apply(before, op);
            Replays(ops + [op], id) == Replays(ops, id) +
              (if id < |before| && id < |after| && before[id].status != Pending && after[id].status == Pending then 1 else 0)
  {
    var all := ops + [op];
    assert all[..|all| - 1] == ops && all[|all| - 1] == op;
  }

  /** The only execution has this status after so many claims and replays. */
  predicate Reached(ops: seq<Operation>, status: Status, claims: nat, replays: nat) {
    |Run(ops)| == 1 && Run(ops)[0].status == status && Claims(ops, 0) == claims && Replays(ops, 0) == replays
  }

  lemma ReachedByUpdate(ops: seq<Operation>, from: Status, to: Status, claims: nat, replays: nat)
    requires Reached(ops, from, claims, replays) && to in Successors(from)
    ensures Reached(ops + [Update(0, to)], to, claims, if to == Pending then replays + 1 else replays)
  {
    Snoc(ops, Update(0, to), 0);
  }

  lemma ReachedByClaim(ops: seq<Operation>, claims: nat, replays: nat)
    requires Reached(ops, Pending, claims, replays)
    ensures Reached(ops + [Claim(0, "worker")], Queued, claims + 1, replays)
  {
    Snoc(ops, Claim(0, "worker"), 0);
  }

  lemma ReachedByRecord(key: Key)
    ensures Reached([Record(key, Pending)], Pending, 0, 0)
  {
    assert [] + [Record(key, Pending)] == [Record(key, Pending)];
    Snoc([], Record(key, Pending), 0);
  }

  /** No smaller bound holds: for any number of replays there is a run with one claim more. */
  lemma {:induction false} ClaimBoundIsMet(key: Key, n: nat) returns (ops: seq<Operation>)
    ensures Reached(ops, Queued, n + 1, n)
  {
    if n == 0 {
      ops := [Record(key, Pending)];
      ReachedByRecord(key);
    } else {
      ops := ClaimBoundIsMet(key, n - 1);
      ReachedByUpdate(ops, Queued, Failed, n, n - 1);
      ops := ops + [Update(0, Failed)];
      ReachedByUpdate(ops, Failed, Pending, n, n - 1);
      ops := ops + [Update(0, Pending)];
    }
    ReachedByClaim(ops, n, n);
    ops := ops + [Claim(0, "worker")];
  }
}
