/** Executions of workflow triggers: recorded once for each event, claimed by a dispatcher, and
    moved along a table of states. */
module TriggerExecutions {
  import opened Wrappers
  import opened PythonText
  import opened Wording

  datatype Status = Pending | Queued | Processing | Completed | Failed | DeadLetter | Other(text: string)

  function Named(text: string): Status {
    if text == "pending" then Pending
    else if text == "queued" then Queued
    else if text == "processing" then Processing
    else if text == "completed" then Completed
    else if text == "failed" then Failed
    else if text == "dead_letter" then DeadLetter
    else Other(text)
  }

  /** `_TRIGGER_TRANSITIONS` */
  function Successors(s: Status): set<Status> {
    match s
    case Pending => {Queued, Failed, DeadLetter}
    case Queued => {Processing, Failed, DeadLetter}
    case Processing => {Completed, Failed, DeadLetter}
    case Completed => {}
    case Failed => {Pending}
    case DeadLetter => {Pending}
    case Other(_) => {}
  }

  /** What identifies the event that an execution answers. */
  datatype Key = Key(namespace: string, trigger: string, event: string)

  datatype Row = Row(key: Key, status: Status, claimedBy: Option<string>)

  datatype UpdateError = InvalidStatus | InvalidTransition

  function NormalKey(raw: Key): Key {
    Key(NamespaceOf(raw.namespace), Strip(raw.trigger), Strip(raw.event))
  }

  /** The key is what the caller's texts mean, spaces aside; a blank namespace is the default. */
  lemma KeyIff(raw: Key, key: Key)
    ensures NormalKey(raw) == key <==>
            MeansNamespace(raw.namespace, key.namespace) && MeansName(raw.trigger, key.trigger) && MeansName(raw.event, key.event)
  {
    NamespaceIff(raw.namespace, key.namespace);
    NameIff(raw.trigger, key.trigger);
    NameIff(raw.event, key.event);
  }

  function RecordedStatus(status: string): Status {
    Named(Strip(OrElse(status, "pending")))
  }

  /** The index of the latest row with a key, or the number of rows. */
  function LatestWith(rows: seq<Row>, key: Key): (i: nat)
    ensures i <= |rows|
    ensures i < |rows| ==> rows[i].key == key
    ensures i < |rows| ==> forall j :: i < j < |rows| ==> rows[j].key != key
    ensures i == |rows| ==> forall j :: 0 <= j < |rows| ==> rows[j].key != key
  {
    if rows == [] then 0 else
    var n := |rows| - 1;
    if rows[n].key == key then n else
    var i := LatestWith(rows[..n], key);
    if i < n then i else |rows|
  }

  /** `record_trigger_execution`: the row of the key, made if there is none. */
  function Recorded(rows: seq<Row>, key: Key, status: Status): seq<Row> {
    if LatestWith(rows, key) < |rows| then rows else rows + [Row(key, status, None)]
  }

  /** `update_trigger_execution_status`; no row with the id is no error. */
  function UpdateFailure(rows: seq<Row>, id: nat, target: Status): Option<UpdateError> {
    if target.Other? then Some(InvalidStatus)
    else if id < |rows| && target !in Successors(rows[id].status) && target != rows[id].status then Some(InvalidTransition)
    else None
  }

  function Updated(rows: seq<Row>, id: nat, target: Status): seq<Row> {
    if id < |rows| && UpdateFailure(rows, id, target).None? then rows[id := rows[id].(status := target)] else rows
  }

  predicate Claimable(rows: seq<Row>, id: nat) {
    id < |rows| && rows[id].status == Pending
  }

  /** The name under which a claim is kept. */
  function Claimer(claimedBy: string): string {
    var name := Strip(OrElse(claimedBy, "unknown"));
    if |name| <= 128 then name else name[..128]
  }

  /** `claim_trigger_execution` */
  function Claimed(rows: seq<Row>, id: nat, claimedBy: string): seq<Row> {
    if Claimable(rows, id) then rows[id := rows[id].(status := Queued, claimedBy := Some(Claimer(claimedBy)))] else rows
  }

  // ---------------------------------------------------------------------------
  // What an update asks for, and when it is granted
  // ---------------------------------------------------------------------------

  predicate Known(s: Status) {
    !s.Other?
  }

  function Word(s: Status): string {
    match s
    case Pending => "pending"
    case Queued => "queued"
    case Processing => "processing"
    case Completed => "completed"
    case Failed => "failed"
    case DeadLetter => "dead_letter"
    case Other(text) => text
  }

  /** The text is the word for the status, spaces aside. */
  predicate Says(text: string, s: Status) {
    MeansName(text, Word(s))
  }

  lemma SaysIff(text: string, s: Status)
    requires Known(s)
    ensures Named(Strip(text)) == s <==> Says(text, s)
  {
    NameIff(text, Word(s));
  }

  /** A recorded execution has the status that was named; without one it is pending. */
  lemma RecordedAs(text: string, s: Status)
    requires Known(s)
    ensures RecordedStatus(text) == s <==> if text == "" then s == Pending else Says(text, s)
  {
    if text == "" {
      PendingIsPending();
    } else {
      SaysIff(text, s);
    }
  }

  lemma PendingIsPending()
    ensures Named(Strip("pending")) == Pending
  {
    assert Trimmed("pending");
  }

  /** The moves, by where they lead. */
  predicate MayMove(from: Status, to: Status) {
    match to
    case Pending => from == Failed || from == DeadLetter
    case Queued => from == Pending
    case Processing => from == Queued
    case Completed => from == Processing
    case Failed => from == Pending || from == Queued || from == Processing
    case DeadLetter => from == Pending || from == Queued || from == Processing
    case Other(_) => false
  }

  lemma MayMoveIff(from: Status, to: Status)
    ensures to in Successors(from) <==> MayMove(from, to)
  {
  }

  /** An update that says `s` for a stored row moves the row, leaves it as it is, or is an error. */
  predicate Decided(rows: seq<Row>, id: nat, s: Status, after: seq<Row>, failure: Option<UpdateError>) {
    if id >= |rows| then after == rows && failure == None
    else if MayMove(rows[id].status, s) || rows[id].status == s
    then after == rows[id := Row(rows[id].key, s, rows[id].claimedBy)] && failure == None
    else after == rows && failure == Some(InvalidTransition)
  }

  lemma UpdateIsDecided(rows: seq<Row>, id: nat, text: string, s: Status)
    requires Known(s) && Says(text, s)
    ensures Decided(rows, id, s, Updated(rows, id, Named(Strip(text))), UpdateFailure(rows, id, Named(Strip(text))))
  {
    SaysIff(text, s);
    if id < |rows| { MayMoveIff(rows[id].status, s); }
  }

  /** A text that says none of the statuses is an error without effect. */
  lemma OtherTextIsRefused(rows: seq<Row>, id: nat, text: string)
    ensures (forall s :: Known(s) ==> !Says(text, s)) <==> UpdateFailure(rows, id, Named(Strip(text))) == Some(InvalidStatus)
    ensures UpdateFailure(rows, id, Named(Strip(text))).Some? ==> Updated(rows, id, Named(Strip(text))) == rows
  {
    var named := Named(Strip(text));
    if Known(named) {
      SaysIff(text, named);
    }
    forall s | Known(s) && Says(text, s) ensures Known(named) {
      SaysIff(text, s);
    }
  }

  /** The name kept for a claim: what the caller gave without spaces around it, cut at 128
      characters; the name of an unnamed caller is unknown. */
  lemma ClaimerIs(claimedBy: string)
    ensures Claimer(claimedBy) <= (if claimedBy == "" then "unknown" else Strip(claimedBy))
    ensures |Claimer(claimedBy)| == 128 || Claimer(claimedBy) == (if claimedBy == "" then "unknown" else Strip(claimedBy))
    ensures |Claimer(claimedBy)| <= 128
  {
    assert Strip("unknown") == "unknown";
  }

  class TriggerStore {
    var rows: seq<Row>

    constructor ()
      ensures rows == []
    {
      rows := [];
    }

    /** The query for the latest row with a key. */
    method LookUp(key: Key) returns (id: nat)
      ensures id == LatestWith(rows, key)
    {
      var i := |rows|;
      while i > 0 && rows[i - 1].key != key
        invariant 0 <= i <= |rows|
        invariant forall j :: i <= j < |rows| ==> rows[j].key != key
      {
        i := i - 1;
      }
      return if i > 0 then i - 1 else |rows|;
    }

    method RecordTriggerExecution(raw: Key, status: string) returns (id: nat)
      modifies this
      ensures rows == Recorded(old(rows), NormalKey(raw), RecordedStatus(status))
      ensures id < |rows| && id == LatestWith(rows, NormalKey(raw))
    {
      var key := NormalKey(raw);
      id := LookUp(key);
      if id == |rows| {
        rows := rows + [Row(key, RecordedStatus(status), None)];
      }
    }

    method UpdateTriggerExecutionStatus(id: nat, status: string) returns (r: Result<Option<Row>, UpdateError>)
      modifies this
      ensures rows == Updated(old(rows), id, Named(Strip(status)))
      ensures match UpdateFailure(old(rows), id, Named(Strip(status)))
              case Some(e) => r == Err(e)
              case None => r == Ok(if id < |rows| then Some(rows[id]) else None)
      ensures forall s :: Known(s) && Says(status, s) ==>
                Decided(old(rows), id, s, rows, if r.Err? then Some(r.error) else None)
    {
      forall s | Known(s) && Says(status, s)
        ensures Decided(rows, id, s, Updated(rows, id, Named(Strip(status))), UpdateFailure(rows, id, Named(Strip(status))))
      {
        UpdateIsDecided(rows, id, status, s);
      }
      var target := Named(Strip(status));
      if target.Other? { return Err(InvalidStatus); }
      if id >= |rows| { return Ok(None); }
      var row := rows[id];
      if target !in Successors(row.status) && target != row.status {
        return Err(InvalidTransition);
      }
      row := row.(status := target);
      rows := rows[id := row];
      return Ok(Some(row));
    }

    method ClaimTriggerExecution(id: nat, claimedBy: string) returns (r: Option<Row>)
      modifies this
      ensures rows == Claimed(old(rows), id, claimedBy)
      ensures r == if Claimable(old(rows), id) then Some(rows[id]) else None
    {
      if id >= |rows| || rows[id].status != Pending { return None; }
      var row := rows[id].(status := Queued, claimedBy := Some(Claimer(claimedBy)));
      rows := rows[id := row];
      return Some(row);
    }
  }
}
