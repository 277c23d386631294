/** Incidents over whole runs. Operations carry the key and the status that the store's methods
    make of their arguments. */
module IncidentRuns {
  import opened Wrappers
  import opened Sequences
  import opened Incidents

  datatype Operation =
    | Create(key: Key, report: Report, now: int)
    | Upsert(key: Key, report: Report, now: int)
    | Change(key: Key, target: Option<Status>, message: string, now: int)
    | Annotate(key: Key, event: string, message: string, now: int)

  function Apply(rows: map<Key, Incident>, op: Operation): map<Key, Incident> {
    match op
    case Create(key, r, now) => Created(rows, key, r, now)
    case Upsert(key, r, now) => Upserted(rows, key, r, now)
    case Change(key, target, message, now) => Changed(rows, key, target, message, now)
    case Annotate(key, event, message, now) => Annotated(rows, key, event, message, now)
  }

  function Run(ops: seq<Operation>): map<Key, Incident> {
    if ops == [] then map[] else Apply(Run(ops[..|ops| - 1]), ops[|ops| - 1])
  }

  /** The operation changes the status of the incident, to `target`. */
  predicate Moves(rows: map<Key, Incident>, op: Operation, key: Key) {
    op.Change? && op.key == key && Accepts(rows, key, op.target)
  }

  predicate Notes(rows: map<Key, Incident>, op: Operation, key: Key) {
    op.Annotate? && op.key == key && key in rows
  }

  /** How the life cycle of an incident goes on. */
  ghost predicate Continues(x: Incident, y: Incident, op: Operation, moves: bool, notes: bool) {
    && (moves ==>
        op.Change? && op.target.Some? && op.target.value in Successors(x.status) &&
        y == Moved(x, op.target.value, op.message, op.now))
    && (!moves ==>
        y.status == x.status && y.escalated == x.escalated && y.acknowledgedAt == x.acknowledgedAt &&
        y.resolvedAt == x.resolvedAt && y.closedAt == x.closedAt && y.escalatedAt == x.escalatedAt)
    && (!moves && !notes ==> y.timeline == x.timeline)
    && (notes ==> !moves && |y.timeline| == |x.timeline| + 1 && x.timeline < y.timeline)
  }

  lemma StepContinues(rows: map<Key, Incident>, op: Operation, key: Key)
    requires key in rows
    ensures key in Apply(rows, op)
    ensures Continues(rows[key], Apply(rows, op)[key], op, Moves(rows, op, key), Notes(rows, op, key))
  {
  }

  /** What a new incident looks like. */
  predicate IsNew(x: Incident) {
    x.status == Firing && !x.escalated && x.closedAt == None && x.escalatedAt == None &&
    |x.timeline| == 1 && x.timeline[0].event == Word(Firing)
  }

  lemma StepCreates(rows: map<Key, Incident>, op: Operation, key: Key)
    requires key !in rows && key in Apply(rows, op)
    ensures IsNew(Apply(rows, op)[key])
    ensures !Moves(rows, op, key) && !Notes(rows, op, key)
  {
  }

  // ---------------------------------------------------------------------------
  // Counting status changes
  // ---------------------------------------------------------------------------

  /** The status changes of an incident that were accepted. */
  function Changes(ops: seq<Operation>, key: Key): nat {
    if ops == [] then 0 else
    var last := ops[|ops| - 1];
    Changes(ops[..|ops| - 1], key) + (if Moves(Run(ops[..|ops| - 1]), last, key) then 1 else 0)
  }

  /** Those among them that escalated it. */
  function Escalations(ops: seq<Operation>, key: Key): nat {
    if ops == [] then 0 else
    var last := ops[|ops| - 1];
    Escalations(ops[..|ops| - 1], key) +
      (if Moves(Run(ops[..|ops| - 1]), last, key) && last.target == Some(Escalated) then 1 else 0)
  }

  /** The notes added to its timeline. */
  function Annotations(ops: seq<Operation>, key: Key): nat {
    if ops == [] then 0 else
    Annotations(ops[..|ops| - 1], key) + (if Notes(Run(ops[..|ops| - 1]), ops[|ops| - 1], key) then 1 else 0)
  }

  /** How many changes can follow without another escalation. */
  function Remaining(s: Status): nat {
    match s
    case Firing => 5
    case Escalated => 5
    case Acknowledged => 4
    case Diagnosing => 3
    case Remediated => 2
    case Resolved => 1
    case Closed => 0
  }

  lemma MoveCosts(from: Status, to: Status)
    requires to in Successors(from)
    ensures to != Escalated ==> Remaining(to) < Remaining(from)
    ensures to == Escalated ==> Remaining(to) + 1 <= Remaining(from) + 4
  {
  }

  /** An incident that was escalated k times has changed its status at most 4k + 5 times, less
      what its status still leaves open. */
  lemma {:induction false} ChangesAreBounded(ops: seq<Operation>, key: Key)
    ensures key in Run(ops) ==>
              Changes(ops, key) + Remaining(Run(ops)[key].status) <= 4 * Escalations(ops, key) + 5
    ensures key !in Run(ops) ==> Changes(ops, key) == Escalations(ops, key) == Annotations(ops, key) == 0
  {
    if ops != [] {
      var before := Run(ops[..|ops| - 1]);
      var op := ops[|ops| - 1];
      ChangesAreBounded(ops[..|ops| - 1], key);
      if key in before {
        StepContinues(before, op, key);
        if Moves(before, op, key) { MoveCosts(before[key].status, op.target.value); }
      } else if key in Run(ops) {
        StepCreates(before, op, key);
      }
    }
  }

  /** The timeline has one entry for the creation, one for each change and one for each note. */
  lemma {:induction false} TimelineCounts(ops: seq<Operation>, key: Key)
    requires key in Run(ops)
    ensures |Run(ops)[key].timeline| == 1 + Changes(ops, key) + Annotations(ops, key)
  {
    var before := Run(ops[..|ops| - 1]);
    var op := ops[|ops| - 1];
    if key in before {
      TimelineCounts(ops[..|ops| - 1], key);
      StepContinues(before, op, key);
    } else {
      StepCreates(before, op, key);
      ChangesAreBounded(ops[..|ops| - 1], key);
    }
  }

  /** The escalated flag tells whether the incident was ever escalated; it is closed exactly
      when it has a closing time. */
  lemma {:induction false} FlagTellsEscalation(ops: seq<Operation>, key: Key)
    requires key in Run(ops)
    ensures Run(ops)[key].escalated <==> Escalations(ops, key) > 0
    ensures Run(ops)[key].escalatedAt.Some? <==> Escalations(ops, key) > 0
    ensures Run(ops)[key].closedAt.Some? <==> Run(ops)[key].status == Closed
  {
    var before := Run(ops[..|ops| - 1]);
    var op := ops[|ops| - 1];
    if key in before {
      FlagTellsEscalation(ops[..|ops| - 1], key);
      StepContinues(before, op, key);
    } else {
      StepCreates(before, op, key);
      ChangesAreBounded(ops[..|ops| - 1], key);
    }
  }

  // ---------------------------------------------------------------------------
  // The timeline as a path
  // ---------------------------------------------------------------------------

  /** The events name a path in the table from firing to a status. */
  predicate PathTo(timeline: seq<Entry>, status: Status) {
    var n := |timeline| - 1;
    && timeline != []
    && timeline[n].event == Word(status)
    && (if n == 0 then status == Firing else
        var previous := Named(timeline[n - 1].event);
        previous.Some? && status in Successors(previous.value) && PathTo(timeline[..n], previous.value))
  }

  lemma PathGoesOn(timeline: seq<Entry>, status: Status, entry: Entry, target: Status)
    requires PathTo(timeline, status) && target in Successors(status) && entry.event == Word(target)
    ensures PathTo(timeline + [entry], target)
  {
    NamedWord(status);
    assert (timeline + [entry])[..|timeline|] == timeline;
  }

  /** Without notes the timeline is the path that the incident took to its status. */
  lemma {:induction false} TimelineIsPath(ops: seq<Operation>, key: Key)
    requires key in Run(ops) && Annotations(ops, key) == 0
    ensures PathTo(Run(ops)[key].timeline, Run(ops)[key].status)
  {
    var before := Run(ops[..|ops| - 1]);
    var op := ops[|ops| - 1];
    if key in before {
      TimelineIsPath(ops[..|ops| - 1], key);
      StepContinues(before, op, key);
      if Moves(before, op, key) {
        var timeline := Run(ops)[key].timeline;
        PathGoesOn(before[key].timeline, before[key].status, timeline[|timeline| - 1], op.target.value);
      }
    } else {
      StepCreates(before, op, key);
    }
  }

  // ---------------------------------------------------------------------------
  // What lasts
  // ---------------------------------------------------------------------------

  /** A later state of the same incident. */
  ghost predicate Later(x: Incident, y: Incident) {
    && (x.status == Closed ==> y.status == Closed && y.closedAt == x.closedAt)
    && (x.escalated ==> y.escalated)
    && x.timeline <= y.timeline
  }

  lemma StepIsLater(rows: map<Key, Incident>, op: Operation, key: Key)
    requires key in rows
    ensures key in Apply(rows, op) && Later(rows[key], Apply(rows, op)[key])
  {
    StepContinues(rows, op, key);
  }

  lemma LaterIsTransitive(x: Incident, y: Incident, z: Incident)
    requires Later(x, y) && Later(y, z)
    ensures Later(x, z)
  {
    assert |x.timeline| <= |y.timeline| && z.timeline[..|y.timeline|] == y.timeline;
    assert x.timeline == y.timeline[..|x.timeline|] == z.timeline[..|x.timeline|];
  }

  lemma RunLast(ops: seq<Operation>, op: Operation)
    ensures Run(ops + [op]) == Apply(Run(ops), op)
  {
    var all := ops + [op];
    assert all[..|all| - 1] == ops && all[|all| - 1] == op;
  }

  /** Whatever follows, upserts included: closed stays closed, the escalated flag stays set and
      no entry of the timeline is lost or changed. */
  lemma {:induction false} WhatLasts(ops: seq<Operation>, more: seq<Operation>, key: Key)
    requires key in Run(ops)
    ensures key in Run(ops + more) && Later(Run(ops)[key], Run(ops + more)[key])
  {
    if more == [] {
      assert ops + more == ops;
    } else {
      var init, last := more[..|more| - 1], more[|more| - 1];
      WhatLasts(ops, init, key);
      LastApart(ops, more);
      RunLast(ops + init, last);
      StepIsLater(Run(ops + init), last, key);
      LaterIsTransitive(Run(ops)[key], Run(ops + init)[key], Run(ops + more)[key]);
    }
  }

  // ---------------------------------------------------------------------------
  // The bound is met
  // ---------------------------------------------------------------------------

  /** The incident has this status after `changes` changes, `escalations` of them escalations. */
  predicate Reached(ops: seq<Operation>, key: Key, status: Status, changes: nat, escalations: nat) {
    key in Run(ops) && Run(ops)[key].status == status &&
    Changes(ops, key) == changes && Escalations(ops, key) == escalations
  }

  lemma ChangeStatus(ops: seq<Operation>, key: Key, from: Status, to: Status, changes: nat, escalations: nat)
    returns (longer: seq<Operation>)
    requires Reached(ops, key, from, changes, escalations) && to in Successors(from)
    ensures Reached(longer, key, to, changes + 1, if to == Escalated then escalations + 1 else escalations)
  {
    var op := Change(key, Some(to), "", 0);
    longer := ops + [op];
    assert longer[..|longer| - 1] == ops && longer[|longer| - 1] == op;
    assert Moves(Run(ops), op, key);
    StepContinues(Run(ops), op, key);
  }

  /** Remediated for the last time after k escalations and 4k + 3 changes. */
  lemma {:induction false} LongestWay(key: Key, k: nat) returns (ops: seq<Operation>)
    ensures Reached(ops, key, Remediated, 4 * k + 3, k)
  {
    if k == 0 {
      ops := FiringIncident(key);
      ops := ChangeStatus(ops, key, Firing, Acknowledged, 0, 0);
      ops := ChangeStatus(ops, key, Acknowledged, Diagnosing, 1, 0);
      ops := ChangeStatus(ops, key, Diagnosing, Remediated, 2, 0);
    } else {
      ops := LongestWay(key, k - 1);
      ops := ChangeStatus(ops, key, Remediated, Escalated, 4 * k - 1, k - 1);
      ops := ChangeStatus(ops, key, Escalated, Acknowledged, 4 * k, k);
      ops := ChangeStatus(ops, key, Acknowledged, Diagnosing, 4 * k + 1, k);
      ops := ChangeStatus(ops, key, Diagnosing, Remediated, 4 * k + 2, k);
    }
  }

  lemma FiringIncident(key: Key) returns (ops: seq<Operation>)
    ensures Reached(ops, key, Firing, 0, 0)
  {
    var op := Create(key, Report("", "", ""), 0);
    RunLast([], op);
    ops := [op];
    assert [] + [op] == ops && ops[..0] == [];
    StepCreates(map[], op, key);
  }

  /** For every number of escalations some incident changes its status that often. */
  lemma BoundIsMet(key: Key, k: nat) returns (ops: seq<Operation>)
    ensures Reached(ops, key, Closed, 4 * k + 5, k)
  {
    ops := LongestWay(key, k);
    ops := ChangeStatus(ops, key, Remediated, Resolved, 4 * k + 3, k);
    ops := ChangeStatus(ops, key, Resolved, Closed, 4 * k + 4, k);
  }
}
