/** Which workflows are accepted, told on the steps as they were sent. */
module WorkflowAcceptance {
  import opened Wrappers
  import opened PythonText
  import opened WorkflowGraph
  import opened WorkflowValidation

  /** The step `i` names the step `j` among its dependencies, spaces aside. */
  ghost predicate DependsOn(body: seq<Step<string>>, i: nat, j: nat) {
    && i < |body| && j < |body|
    && exists d :: d in body[i].dependsOn && Strip(d) == Strip(body[j].name)
  }

  ghost predicate DependsAt(body: seq<Step<string>>, p: seq<nat>, k: int) {
    0 <= k < |p| - 1 && DependsOn(body, p[k], p[k + 1])
  }

  /** The steps at these places depend on each other in a ring. */
  ghost predicate Ring(body: seq<Step<string>>, p: seq<nat>) {
    && |p| >= 2 && p[0] == p[|p| - 1]
    && forall k :: 0 <= k < |p| - 1 ==> DependsAt(body, p, k)
  }

  ghost predicate NamedWell(body: seq<Step<string>>) {
    && (forall i :: 0 <= i < |body| ==> Strip(body[i].name) != "")
    && (forall i, j :: 0 <= i < j < |body| ==> Strip(body[i].name) != Strip(body[j].name))
  }

  ghost predicate Named(body: seq<Step<string>>, name: string) {
    exists j :: 0 <= j < |body| && Strip(body[j].name) == name
  }

  ghost predicate DependsOnSteps(body: seq<Step<string>>) {
    forall i, d :: 0 <= i < |body| && d in body[i].dependsOn && Strip(d) != "" ==> Named(body, Strip(d))
  }

  ghost predicate Acceptable(body: seq<Step<string>>) {
    NamedWell(body) && DependsOnSteps(body) && forall p :: !Ring(body, p)
  }

  lemma KeptIff(raw: seq<string>, kept: seq<string>, n: string)
    requires KeepsNonblank(raw, kept)
    ensures n in kept <==> n != "" && exists d :: d in raw && Strip(d) == n
  {
    var texts := TrimEach(raw);
    var at :| KeptAt(texts, kept, at);
    KeptEntryIff(texts, kept, at, n);
    if n in texts {
      var i :| 0 <= i < |texts| && texts[i] == n;
      assert raw[i] in raw && Strip(raw[i]) == n;
    }
    if d :| d in raw && Strip(d) == n {
      var i :| 0 <= i < |raw| && raw[i] == d;
      assert texts[i] == n;
    }
  }

  lemma KeptEntryIff(texts: seq<string>, kept: seq<string>, at: seq<nat>, n: string)
    requires KeptAt(texts, kept, at)
    ensures n in kept <==> n != "" && n in texts
  {
    if n in kept {
      var k :| 0 <= k < |kept| && kept[k] == n;
      assert KeptFrom(texts, kept, at, k);
    }
    if n != "" && n in texts {
      var i :| 0 <= i < |texts| && texts[i] == n;
      assert Hits(at, i);
      var k :| 0 <= k < |at| && at[k] == i;
      assert KeptFrom(texts, kept, at, k);
    }
  }

  lemma NamesIff(body: seq<Step<string>>, steps: seq<Step<string>>)
    requires Trims(body, steps)
    ensures NamedWell(body) <==> NamesFreshBefore(steps, |steps|)
  {
    if NamedWell(body) {
      forall i | 0 <= i < |steps| ensures NameFresh(steps, i) { }
    }
    if NamesFreshBefore(steps, |steps|) {
      forall i | 0 <= i < |body| ensures Strip(body[i].name) != "" { assert NameFresh(steps, i); }
      forall i, j | 0 <= i < j < |body| ensures Strip(body[i].name) != Strip(body[j].name) { assert NameFresh(steps, j); }
    }
  }

  lemma NamedIff(body: seq<Step<string>>, steps: seq<Step<string>>, name: string)
    requires Trims(body, steps)
    ensures Named(body, name) <==> NamesStep(steps, name)
  {
    if j :| 0 <= j < |body| && Strip(body[j].name) == name { assert steps[j].name == name; }
    if j :| 0 <= j < |steps| && steps[j].name == name { assert Strip(body[j].name) == name; }
  }

  lemma KnownIff(body: seq<Step<string>>, steps: seq<Step<string>>)
    requires Trims(body, steps)
    ensures DependsOnSteps(body) <==> DependenciesKnown(steps)
  {
    if DependsOnSteps(body) {
      forall i, d | 0 <= i < |steps| && d in steps[i].dependsOn ensures NamesStep(steps, d) {
        KeptIff(body[i].dependsOn, steps[i].dependsOn, d);
        NamedIff(body, steps, d);
      }
    }
    if DependenciesKnown(steps) {
      forall i, d | 0 <= i < |body| && d in body[i].dependsOn && Strip(d) != "" ensures Named(body, Strip(d)) {
        KeptIff(body[i].dependsOn, steps[i].dependsOn, Strip(d));
        NamedIff(body, steps, Strip(d));
      }
    }
  }

  /** With good names the graph of the steps has the dependencies between places. */
  lemma EdgeIff(body: seq<Step<string>>, steps: seq<Step<string>>, i: nat, j: nat)
    requires Trims(body, steps) && NamesFreshBefore(steps, |steps|) && i < |steps| && j < |steps|
    ensures DependsOn(body, i, j) <==> Edge(Adjacency(steps), steps[i].name, steps[j].name)
  {
    AdjacencyOfFresh(steps, i);
    AdjacencyOfFresh(steps, j);
    assert NameFresh(steps, j);
    KeptIff(body[i].dependsOn, steps[i].dependsOn, steps[j].name);
  }

  lemma NodeIsStep(steps: seq<Step<string>>, n: string)
    requires n in Adjacency(steps)
    ensures NamesStep(steps, n)
  {
    var i :| 0 <= i < |steps| && steps[i].name == n;
  }

  lemma RingIsCycle(body: seq<Step<string>>, steps: seq<Step<string>>, p: seq<nat>, names: seq<string>)
    requires Trims(body, steps) && NamesFreshBefore(steps, |steps|) && Ring(body, p) && Along(steps, p, names)
    ensures IsCycle(Adjacency(steps), names)
  {
    forall k | 0 <= k < |names| - 1 ensures EdgeAt(Adjacency(steps), names, k) {
      RingEdge(body, steps, p, names, k);
    }
  }

  lemma RingEdge(body: seq<Step<string>>, steps: seq<Step<string>>, p: seq<nat>, names: seq<string>, k: nat)
    requires Trims(body, steps) && NamesFreshBefore(steps, |steps|) && Along(steps, p, names) && k + 1 < |p|
    ensures DependsAt(body, p, k) <==> EdgeAt(Adjacency(steps), names, k)
  {
    EdgeIff(body, steps, p[k], p[k + 1]);
  }

  /** `names` are those of the steps at the places `p`. */
  predicate Along(steps: seq<Step<string>>, p: seq<nat>, names: seq<string>) {
    |names| == |p| && forall k :: 0 <= k < |p| ==> p[k] < |steps| && steps[p[k]].name == names[k]
  }

  lemma RingIsInside(body: seq<Step<string>>, p: seq<nat>)
    requires Ring(body, p)
    ensures forall k :: 0 <= k < |p| ==> p[k] < |body|
  {
    forall k | 0 <= k < |p| ensures p[k] < |body| {
      if k < |p| - 1 { assert DependsAt(body, p, k); } else { assert DependsAt(body, p, k - 1); }
    }
  }

  function NamesAt(steps: seq<Step<string>>, p: seq<nat>): (names: seq<string>)
    requires forall k :: 0 <= k < |p| ==> p[k] < |steps|
    ensures Along(steps, p, names)
  {
    if p == [] then [] else [steps[p[0]].name] + NamesAt(steps, p[1..])
  }

  /** The place of the step with this name. */
  function Place(steps: seq<Step<string>>, n: string): nat {
    if steps == [] || steps[0].name == n then 0 else 1 + Place(steps[1..], n)
  }

  lemma {:induction false} PlaceFound(steps: seq<Step<string>>, n: string)
    requires NamesStep(steps, n)
    ensures Place(steps, n) < |steps| && steps[Place(steps, n)].name == n
  {
    if steps[0].name != n {
      var j :| 0 <= j < |steps| && steps[j].name == n;
      assert steps[1..][j - 1].name == n;
      PlaceFound(steps[1..], n);
    }
  }

  function PlacesOf(steps: seq<Step<string>>, names: seq<string>): (p: seq<nat>)
    ensures |p| == |names| && forall k :: 0 <= k < |p| ==> p[k] == Place(steps, names[k])
  {
    if names == [] then [] else [Place(steps, names[0])] + PlacesOf(steps, names[1..])
  }

  lemma CycleIsInside(steps: seq<Step<string>>, names: seq<string>)
    requires IsCycle(Adjacency(steps), names)
    ensures Along(steps, PlacesOf(steps, names), names)
    ensures PlacesOf(steps, names)[0] == PlacesOf(steps, names)[|names| - 1]
  {
    forall k | 0 <= k < |names| ensures Place(steps, names[k]) < |steps| && steps[Place(steps, names[k])].name == names[k] {
      if k < |names| - 1 {
        assert EdgeAt(Adjacency(steps), names, k);
      } else {
        assert EdgeAt(Adjacency(steps), names, k - 1);
      }
      NodeIsStep(steps, names[k]);
      PlaceFound(steps, names[k]);
    }
  }

  lemma CycleIsRing(body: seq<Step<string>>, steps: seq<Step<string>>, names: seq<string>, p: seq<nat>)
    requires Trims(body, steps) && NamesFreshBefore(steps, |steps|) && IsCycle(Adjacency(steps), names)
    requires Along(steps, p, names) && p[0] == p[|p| - 1]
    ensures Ring(body, p)
  {
    forall k | 0 <= k < |p| - 1 ensures DependsAt(body, p, k) {
      assert EdgeAt(Adjacency(steps), names, k);
      RingEdge(body, steps, p, names, k);
    }
  }

  lemma AcceptableIff(body: seq<Step<string>>)
    ensures Admissible(NormalizedAll(body)) <==> Acceptable(body)
  {
    var steps := NormalizedAll(body);
    NormalizedTrims(body);
    NamesIff(body, steps);
    KnownIff(body, steps);
    if NamesFreshBefore(steps, |steps|) {
      RingsAreCycles(body, steps);
    }
  }

  lemma RingsAreCycles(body: seq<Step<string>>, steps: seq<Step<string>>)
    requires Trims(body, steps) && NamesFreshBefore(steps, |steps|)
    ensures Acyclic(Adjacency(steps)) <==> forall p :: !Ring(body, p)
  {
    if p :| Ring(body, p) {
      RingIsInside(body, p);
      RingIsCycle(body, steps, p, NamesAt(steps, p));
    }
    if names :| IsCycle(Adjacency(steps), names) {
      SomeRing(body, steps, names);
    }
  }

  lemma SomeRing(body: seq<Step<string>>, steps: seq<Step<string>>, names: seq<string>)
    requires Trims(body, steps) && NamesFreshBefore(steps, |steps|) && IsCycle(Adjacency(steps), names)
    ensures exists p :: Ring(body, p)
  {
    CycleIsInside(steps, names);
    var p := PlacesOf(steps, names);
    CycleIsRing(body, steps, names, p);
  }

  /** The schedule runs each step after all it depends on. */
  ghost predicate RunsInOrder(body: seq<Step<string>>, schedule: seq<string>) {
    forall i: nat, j: nat :: DependsOn(body, i, j) ==> Before(schedule, Strip(body[j].name), Strip(body[i].name))
  }

  ghost predicate Before(schedule: seq<string>, first: string, second: string) {
    exists a, b :: 0 <= a < b < |schedule| && schedule[a] == first && schedule[b] == second
  }

  lemma ScheduleRunsInOrder(body: seq<Step<string>>, steps: seq<Step<string>>, schedule: seq<string>)
    requires Trims(body, steps) && Admissible(steps) && IsSchedule(Adjacency(steps), schedule)
    ensures RunsInOrder(body, schedule)
  {
    forall i: nat, j: nat | DependsOn(body, i, j) ensures Before(schedule, Strip(body[j].name), Strip(body[i].name)) {
      assert NameFresh(steps, j);
      KeptIff(body[i].dependsOn, steps[i].dependsOn, steps[j].name);
      ScheduleRunsDependenciesFirst(steps, schedule, i, steps[j].name);
    }
  }

  /** `build_workflow_spec`: names, then dependencies, then cycles. A workflow is accepted if and
      only if, spaces aside, its names are nonblank and distinct, its dependencies are steps, and
      no steps depend on each other in a ring. Then the spec has the steps as they were sent,
      trimmed, and the ghost result schedules them. */
  method BuildWorkflowSpec(body: seq<Step<string>>)
    returns (r: Result<seq<Step<string>>, SpecError>, ghost schedule: seq<string>)
    ensures r.Ok? <==> Acceptable(body)
    ensures r.Ok? ==> Trims(body, r.value) && IsSchedule(Adjacency(r.value), schedule) && RunsInOrder(body, schedule)
    ensures r.Err? ==> Trims(body, NormalizedAll(body)) && RejectedFor(NormalizedAll(body), r.error)
  {
    AcceptableIff(body);
    NormalizedTrims(body);
    schedule := [];
    var names := CheckNames(body);
    if names.Err? {
      return Err(names.error), [];
    }
    var steps := NormalizedAll(body);
    var unknown := CheckDependencies(steps, names.value);
    if unknown.Some? {
      return Err(unknown.value), [];
    }
    var accepted: bool;
    ghost var order: seq<string>;
    accepted, order := DetectWorkflowCycles(steps);
    if !accepted {
      return Err(DependencyCycle), [];
    }
    ScheduleRunsInOrder(body, steps, Reverse(order));
    return Ok(steps), Reverse(order);
  }
}
