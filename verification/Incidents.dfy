/** Incidents: created or updated by name, and moved along a table of statuses. Every accepted
    status change and every annotation appends to the timeline of the incident. */
module Incidents {
  import opened Wrappers
  import opened PythonText
  import opened Wording

  datatype Status = Firing | Acknowledged | Diagnosing | Remediated | Resolved | Closed | Escalated

  /** `_INCIDENT_TRANSITIONS` */
  function Successors(s: Status): set<Status> {
    match s
    case Firing => {Acknowledged, Resolved, Closed, Escalated}
    case Acknowledged => {Diagnosing, Remediated, Resolved, Closed, Escalated}
    case Diagnosing => {Remediated, Resolved, Closed, Escalated}
    case Remediated => {Resolved, Closed, Escalated}
    case Resolved => {Closed}
    case Closed => {}
    case Escalated => {Acknowledged, Diagnosing, Remediated, Resolved, Closed}
  }

  function Word(s: Status): string {
    match s
    case Firing => "firing"
    case Acknowledged => "acknowledged"
    case Diagnosing => "diagnosing"
    case Remediated => "remediated"
    case Resolved => "resolved"
    case Closed => "closed"
    case Escalated => "escalated"
  }

  function Named(text: string): Option<Status> {
    if text == "firing" then Some(Firing)
    else if text == "acknowledged" then Some(Acknowledged)
    else if text == "diagnosing" then Some(Diagnosing)
    else if text == "remediated" then Some(Remediated)
    else if text == "resolved" then Some(Resolved)
    else if text == "closed" then Some(Closed)
    else if text == "escalated" then Some(Escalated)
    else None
  }

  lemma NamedWord(s: Status)
    ensures Named(Word(s)) == Some(s)
  {
  }

  datatype Key = Key(namespace: string, name: string)

  datatype Entry = Entry(at: int, event: string, message: string)

  datatype Incident = Incident(
    title: string, severity: string,
    status: Status, escalated: bool,
    acknowledgedAt: Option<int>, resolvedAt: Option<int>, closedAt: Option<int>, escalatedAt: Option<int>,
    timeline: seq<Entry>)

  datatype IncidentError = NameRequired | NotFound | InvalidTransition

  /** What a report says about an incident. */
  datatype Report = Report(title: string, severity: string, source: string)

  function NormalKey(raw: Key): Key {
    Key(NamespaceOf(raw.namespace), Strip(raw.name))
  }

  /** The key is what the caller's texts mean, spaces aside; a blank namespace is the default. */
  lemma KeyIff(raw: Key, key: Key)
    ensures NormalKey(raw) == key <==> MeansNamespace(raw.namespace, key.namespace) && MeansName(raw.name, key.name)
  {
    NamespaceIff(raw.namespace, key.namespace);
    NameIff(raw.name, key.name);
  }

  function Severity(text: string): string {
    var s := Lower(Strip(OrElse(text, "warning")));
    if s == "critical" || s == "warning" || s == "info" then s else "warning"
  }

  /** The severity that a text spells; anything else is a warning. */
  lemma SeverityReads(text: string)
    ensures Severity(text) == if Spells(text, "critical") then "critical" else if Spells(text, "info") then "info" else "warning"
  {
    if text == "" {
      BlankSpellsNothing();
      assert Lower(Strip("warning")) == "warning" by { WarningReads(); }
    } else {
      ReadsAsIff(text, "critical");
      ReadsAsIff(text, "info");
    }
  }

  lemma BlankSpellsNothing()
    ensures !Spells("", "critical") && !Spells("", "info")
  {
    ReadsAsIff("", "critical");
    ReadsAsIff("", "info");
    assert Strip("") == "" && Lower("") == "";
  }

  lemma WarningReads()
    ensures Lower(Strip("warning")) == "warning"
  {
    LowerIff("warning", "warning");
  }

  /** The text spells the status: in any case, spaces aside. */
  ghost predicate Says(text: string, s: Status) {
    Spells(text, Word(s))
  }

  lemma SaysIff(text: string, s: Status)
    ensures Named(Lower(Strip(text))) == Some(s) <==> Says(text, s)
  {
    ReadsAsIff(text, Word(s));
    NamedWord(s);
  }

  /** The moves, by where they lead. */
  predicate MayMove(from: Status, to: Status) {
    match to
    case Firing => false
    case Acknowledged => from == Firing || from == Escalated
    case Diagnosing => from == Acknowledged || from == Escalated
    case Remediated => from == Acknowledged || from == Diagnosing || from == Escalated
    case Resolved => from != Resolved && from != Closed
    case Closed => from != Closed
    case Escalated => from != Escalated && from != Resolved && from != Closed
  }

  lemma MayMoveIff(from: Status, to: Status)
    ensures to in Successors(from) <==> MayMove(from, to)
  {
  }

  function NewIncident(r: Report, now: int): Incident {
    Incident(Strip(r.title), Severity(r.severity), Firing, false, None, None, None, None,
             [Entry(now, Word(Firing), "Incident created via " + r.source)])
  }

  /** A new incident shows what was reported, and that it is firing. */
  lemma NewIncidentShows(r: Report, now: int)
    ensures var x := NewIncident(r, now);
            && x.status == Firing && !x.escalated
            && MeansName(r.title, x.title)
            && x.severity == (if Spells(r.severity, "critical") then "critical" else if Spells(r.severity, "info") then "info" else "warning")
            && x.timeline == [Entry(now, "firing", "Incident created via " + r.source)]
  {
    NameIff(r.title, Strip(r.title));
    SeverityReads(r.severity);
  }

  /** `create_incident`: an incident of that name is left as it is. */
  function Created(rows: map<Key, Incident>, key: Key, r: Report, now: int): map<Key, Incident> {
    if key in rows then rows else rows[key := NewIncident(r, now)]
  }

  /** `upsert_incident`: the description changes, the life cycle does not. */
  function Upserted(rows: map<Key, Incident>, key: Key, r: Report, now: int): map<Key, Incident> {
    if key in rows
    then rows[key := rows[key].(title := OrElse(Strip(r.title), rows[key].title), severity := Severity(r.severity))]
    else rows[key := NewIncident(r, now)]
  }

  /** An upsert puts the reported title, unless it is blank, and severity on the incident, and leaves
      the rest of it and all other incidents alone. */
  lemma UpsertShows(rows: map<Key, Incident>, key: Key, r: Report, now: int)
    requires key in rows
    ensures var after := Upserted(rows, key, r, now);
            && after.Keys == rows.Keys && (forall k :: k in rows && k != key ==> after[k] == rows[k])
            && (if AllSpace(r.title) then after[key].title == rows[key].title else MeansName(r.title, after[key].title))
            && after[key].severity == NewIncident(r, now).severity
            && after[key].(title := rows[key].title, severity := rows[key].severity) == rows[key]
  {
    BlankIff(r.title);
    NameIff(r.title, Strip(r.title));
  }

  predicate Accepts(rows: map<Key, Incident>, key: Key, target: Option<Status>) {
    key in rows && target.Some? && target.value in Successors(rows[key].status)
  }

  /** A change is accepted exactly if the text spells a status that the incident may move to. */
  lemma WhenAccepted(rows: map<Key, Incident>, key: Key, text: string)
    requires key in rows
    ensures Accepts(rows, key, Named(Lower(Strip(text)))) <==> exists s :: Says(text, s) && MayMove(rows[key].status, s)
    ensures forall s :: Says(text, s) ==> Named(Lower(Strip(text))) == Some(s)
  {
    forall s ensures Says(text, s) <==> Named(Lower(Strip(text))) == Some(s) {
      SaysIff(text, s);
    }
    forall s ensures s in Successors(rows[key].status) <==> MayMove(rows[key].status, s) {
      MayMoveIff(rows[key].status, s);
    }
  }

  function Moved(x: Incident, target: Status, message: string, now: int): Incident {
    x.(status := target,
       escalated := x.escalated || target == Escalated,
       acknowledgedAt := if target == Acknowledged then Some(now) else x.acknowledgedAt,
       resolvedAt := if target == Resolved then Some(now) else x.resolvedAt,
       closedAt := if target == Closed then Some(now) else x.closedAt,
       escalatedAt := if target == Escalated then Some(now) else x.escalatedAt,
       timeline := x.timeline + [Entry(now, Word(target), OrElse(message, "Status changed to " + Word(target)))])
  }

  /** `update_incident_status` */
  function Changed(rows: map<Key, Incident>, key: Key, target: Option<Status>, message: string, now: int): map<Key, Incident> {
    if Accepts(rows, key, target) then rows[key := Moved(rows[key], target.value, message, now)] else rows
  }

  /** `add_incident_timeline_event` */
  function Annotated(rows: map<Key, Incident>, key: Key, event: string, message: string, now: int): map<Key, Incident> {
    if key in rows
    then rows[key := rows[key].(timeline := rows[key].timeline + [Entry(now, event, message)])]
    else rows
  }

  class IncidentStore {
    var rows: map<Key, Incident>

    constructor ()
      ensures rows == map[]
    {
      rows := map[];
    }

    method CreateIncident(raw: Key, r: Report, now: int) returns (result: Result<Incident, IncidentError>)
      modifies this
      ensures var key := NormalKey(raw);
              if key.name == "" then result == Err(NameRequired) && rows == old(rows)
              else rows == Created(old(rows), key, r, now) && result == Ok(rows[key])
    {
      var key := NormalKey(raw);
      if key.name == "" { return Err(NameRequired); }
      if key !in rows {
        rows := rows[key := NewIncident(r, now)];
      }
      return Ok(rows[key]);
    }

    method UpsertIncident(raw: Key, r: Report, now: int) returns (result: Result<Incident, IncidentError>)
      modifies this
      ensures var key := NormalKey(raw);
              if key.name == "" then result == Err(NameRequired) && rows == old(rows)
              else rows == Upserted(old(rows), key, r, now) && result == Ok(rows[key])
    {
      var key := NormalKey(raw);
      if key.name == "" { return Err(NameRequired); }
      if key in rows {
        var row := rows[key];
        var title := Strip(r.title);
        if title != "" { row := row.(title := title); }
        row := row.(severity := Severity(r.severity));
        rows := rows[key := row];
      } else {
        rows := rows[key := NewIncident(r, now)];
      }
      return Ok(rows[key]);
    }

    method UpdateIncidentStatus(raw: Key, status: string, message: string, now: int)
      returns (result: Result<Incident, IncidentError>)
      modifies this
      ensures var key := NormalKey(raw);
              var target := Named(Lower(Strip(status)));
              if key.name == "" then result == Err(NameRequired) && rows == old(rows)
              else if key !in old(rows) then result == Err(NotFound) && rows == old(rows)
              else rows == Changed(old(rows), key, target, message, now) &&
                   result == (if Accepts(old(rows), key, target) then Ok(rows[key]) else Err(InvalidTransition))
      ensures var key := NormalKey(raw);
              key.name != "" && key in old(rows) ==>
                (result.Ok? <==> exists s :: Says(status, s) && MayMove(old(rows)[key].status, s)) &&
                forall s :: Says(status, s) && MayMove(old(rows)[key].status, s) ==>
                  rows == old(rows)[key := Moved(old(rows)[key], s, message, now)]
    {
      if NormalKey(raw) in rows { WhenAccepted(rows, NormalKey(raw), status); }
      var key := NormalKey(raw);
      if key.name == "" { return Err(NameRequired); }
      if key !in rows { return Err(NotFound); }
      var named := Named(Lower(Strip(status)));
      if named == None || named.value !in Successors(rows[key].status) {
        return Err(InvalidTransition);
      }
      var target := named.value;
      var row := rows[key];
      var text := if message != "" then message else "Status changed to " + Word(target);
      row := row.(status := target, timeline := row.timeline + [Entry(now, Word(target), text)]);
      match target {
        case Acknowledged => row := row.(acknowledgedAt := Some(now));
        case Resolved => row := row.(resolvedAt := Some(now));
        case Closed => row := row.(closedAt := Some(now));
        case Escalated => row := row.(escalated := true, escalatedAt := Some(now));
        case _ =>
      }
      rows := rows[key := row];
      return Ok(row);
    }

    method AddTimelineEvent(raw: Key, event: string, message: string, now: int)
      returns (result: Result<Incident, IncidentError>)
      modifies this
      ensures var key := NormalKey(raw);
              rows == Annotated(old(rows), key, event, message, now) &&
              result == if key in old(rows) then Ok(rows[key]) else Err(NotFound)
    {
      var key := NormalKey(raw);
      if key !in rows { return Err(NotFound); }
      var row := rows[key];
      row := row.(timeline := row.timeline + [Entry(now, event, message)]);
      rows := rows[key := row];
      return Ok(row);
    }
  }
}
