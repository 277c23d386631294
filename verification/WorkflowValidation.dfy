/** `build_workflow_spec` and `_detect_workflow_cycles`: the admission check of a
    workflow. Step names and dependencies are what the check looks at; the other
    fields of a step are copied through and are not part of this model. */
module WorkflowValidation {
  import opened Wrappers
  import opened PythonText
  import opened Sequences
  import opened WorkflowGraph

  datatype Step<N> = Step(name: N, dependsOn: seq<N>)

  /** The dictionary that the detector builds from the steps: a repeated name keeps
      its first position and takes its last value, as in Python. */
  function Adjacency<N(==,!new)>(steps: seq<Step<N>>): (g: Graph<N>)
    ensures forall n :: n in g <==> exists st :: st in steps && st.name == n
  {
    if steps == [] then map[] else
    var last := steps[|steps| - 1];
    var init := steps[..|steps| - 1];
    assert steps == init + [last];
    Adjacency(init)[last.name := last.dependsOn]
  }

  /** How often `d` is named by those of `keys` that are not yet in `done`. */
  ghost function Uses<N(!new)>(g: Graph<N>, keys: seq<N>, done: set<N>, d: N): nat
    requires forall k :: k in keys ==> k in g
  {
    if keys == [] then 0 else
    var init := keys[..|keys| - 1];
    var last := keys[|keys| - 1];
    Uses(g, init, done, d) + (if last in done then 0 else multiset(g[last])[d])
  }

  lemma {:induction false} UsesZero<N(!new)>(g: Graph<N>, keys: seq<N>, done: set<N>, d: N)
    requires forall k :: k in keys ==> k in g
    ensures Uses(g, keys, done, d) == 0 <==> forall k :: k in keys && k !in done ==> d !in g[k]
  {
    if keys != [] {
      var init := keys[..|keys| - 1];
      UsesZero(g, init, done, d);
      assert forall k :: k in keys <==> k in init || k == keys[|keys| - 1];
      assert multiset(g[keys[|keys| - 1]])[d] == 0 <==> d !in g[keys[|keys| - 1]];
    }
  }

  lemma {:induction false} UsesAfterDequeue<N(!new)>(g: Graph<N>, keys: seq<N>, done: set<N>, node: N, d: N)
    requires forall k :: k in keys ==> k in g
    requires Distinct(keys) && node in g && node !in done
    ensures Uses(g, keys, done, d)
      == Uses(g, keys, done + {node}, d) + (if node in keys then multiset(g[node])[d] else 0)
  {
    if keys != [] {
      var init := keys[..|keys| - 1];
      UsesAfterDequeue(g, init, done, node, d);
      assert node in keys <==> node in init || node == keys[|keys| - 1];
    }
  }

  /** The dictionary keys in insertion order with the dictionary itself. */
  method BuildAdjacency<N(==,!new)>(steps: seq<Step<N>>) returns (keys: seq<N>, adj: Graph<N>)
    ensures adj == Adjacency(steps)
    ensures Distinct(keys) && forall k :: k in keys <==> k in adj
  {
    keys, adj := [], map[];
    for i := 0 to |steps|
      invariant adj == Adjacency(steps[..i])
      invariant Distinct(keys) && forall k :: k in keys <==> k in adj
    {
      assert steps[..i + 1][..i] == steps[..i];
      if steps[i].name !in adj {
        keys := keys + [steps[i].name];
      }
      adj := adj[steps[i].name := steps[i].dependsOn];
    }
    assert steps[..|steps|] == steps;
  }

  /** Raises the in-degree of every node that the list names, once per mention. */
  method AddMentions<N(==,!new)>(deps: seq<N>, inDegree0: map<N, nat>) returns (inDegree: map<N, nat>)
    ensures inDegree.Keys == inDegree0.Keys
    ensures forall d :: d in inDegree ==> inDegree[d] == inDegree0[d] + multiset(deps)[d]
  {
    inDegree := inDegree0;
    for j := 0 to |deps|
      invariant inDegree.Keys == inDegree0.Keys
      invariant forall d :: d in inDegree ==> inDegree[d] == inDegree0[d] + multiset(deps[..j])[d]
    {
      assert deps[..j + 1] == deps[..j] + [deps[j]];
      if deps[j] in inDegree {
        inDegree := inDegree[deps[j] := inDegree[deps[j]] + 1];
      }
    }
    assert deps[..|deps|] == deps;
  }

  /** Counts, for every key, how often the dependency lists name it. */
  method CountInDegrees<N(==,!new)>(keys: seq<N>, adj: Graph<N>) returns (inDegree: map<N, nat>)
    requires Distinct(keys) && forall k :: k in keys <==> k in adj
    ensures inDegree.Keys == adj.Keys
    ensures forall d :: d in inDegree ==> inDegree[d] == Uses(adj, keys, {}, d)
  {
    inDegree := map k | k in adj :: 0;
    for i := 0 to |keys|
      invariant inDegree.Keys == adj.Keys
      invariant forall d :: d in inDegree ==> inDegree[d] == Uses(adj, keys[..i], {}, d)
    {
      assert keys[..i + 1][..i] == keys[..i];
      inDegree := AddMentions(adj[keys[i]], inDegree);
    }
    assert keys[..|keys|] == keys;
  }

  /** What the main loop knows between two dequeues. `order` lists the nodes dequeued
      so far: the ones whose in-degree is zero are those and the ones waiting in the queue. */
  ghost predicate Progress<N(!new)>(keys: seq<N>, adj: Graph<N>, inDegree: map<N, nat>,
                           queue: seq<N>, order: seq<N>)
    requires forall k :: k in keys <==> k in adj
  {
    && inDegree.Keys == adj.Keys
    && Distinct(order + queue)
    && (forall n :: n in order + queue ==> n in adj)
    && (forall d :: d in adj ==> inDegree[d] == Uses(adj, keys, Elements(order), d))
    && (forall d :: d in adj ==> (inDegree[d] == 0 <==> d in order || d in queue))
    && Forward(adj, order)
  }

  lemma DequeueKeepsOrder<N(!new)>(keys: seq<N>, adj: Graph<N>, inDegree: map<N, nat>,
                          queue: seq<N>, order: seq<N>)
    requires forall k :: k in keys <==> k in adj
    requires Progress(keys, adj, inDegree, queue, order) && queue != []
    ensures Forward(adj, order + [queue[0]])
    ensures queue[0] in adj && queue[0] !in order
  {
    var node := queue[0];
    assert (order + queue)[|order|] == node;
    forall i | 0 <= i < |order| ensures order[i] != node {
      assert (order + queue)[i] == order[i];
    }
    var done := Elements(order);
    UsesZero(adj, keys, done, node);
    forall j | 0 <= j < |order| ensures !Edge(adj, node, order[j]) {
      assert (order + queue)[j] == order[j];
      assert inDegree[order[j]] == 0;
      UsesZero(adj, keys, done, order[j]);
    }
  }

  lemma EmptyQueueStuck<N(!new)>(keys: seq<N>, adj: Graph<N>, inDegree: map<N, nat>, order: seq<N>, b: N)
    requires forall k :: k in keys <==> k in adj
    requires Progress(keys, adj, inDegree, [], order)
    requires b in adj && b !in order
    ensures HasPredecessorIn(adj, adj.Keys - Elements(order), b)
  {
    assert inDegree[b] != 0;
    UsesZero(adj, keys, Elements(order), b);
    var a :| a in keys && a !in Elements(order) && b in adj[a];
    assert a in adj.Keys - Elements(order) && Edge(adj, a, b);
  }

  lemma SomethingLeft<N(!new)>(keys: seq<N>, adj: Graph<N>, inDegree: map<N, nat>, order: seq<N>)
    requires forall k :: k in keys <==> k in adj
    requires Progress(keys, adj, inDegree, [], order)
    requires Elements(order) != adj.Keys && Elements(order) <= adj.Keys
    ensures !Acyclic(adj)
  {
    var stuck := adj.Keys - Elements(order);
    var left :| left in adj.Keys && left !in Elements(order);
    assert left in stuck;
    forall b | b in stuck ensures HasPredecessorIn(adj, stuck, b) {
      EmptyQueueStuck(keys, adj, inDegree, order, b);
    }
    StuckNodesHoldCycle(adj, stuck);
  }

  lemma AllDequeued<N(!new)>(keys: seq<N>, adj: Graph<N>, inDegree: map<N, nat>, order: seq<N>)
    requires forall k :: k in keys <==> k in adj
    requires Progress(keys, adj, inDegree, [], order)
    ensures |order| == |adj| ==> IsSchedule(adj, Reverse(order))
    ensures |order| != |adj| ==> !Acyclic(adj)
  {
    assert order + [] == order;
    DistinctSize(order);
    if Elements(order) == adj.Keys {
      ReversedOrderIsSchedule(adj, order);
    } else {
      SomethingLeft(keys, adj, inDegree, order);
      if |order| == |adj| {
        SubsetOfSameSize(Elements(order), adj.Keys);
      }
    }
  }

  /** `_detect_workflow_cycles`: Kahn's algorithm with a first-in first-out queue and a
      table of in-degrees. Dependencies that are no step are ignored here, repeated ones
      count as often as they are listed. It accepts exactly the acyclic graphs; the ghost
      result is the order of the dequeues. */
  method DetectWorkflowCycles<N(==,!new)>(steps: seq<Step<N>>) returns (accepted: bool, ghost order: seq<N>)
    ensures accepted <==> Acyclic(Adjacency(steps))
    ensures accepted ==> IsSchedule(Adjacency(steps), Reverse(order))
    ensures Distinct(order) && forall n :: n in order ==> n in Adjacency(steps)
  {
    var keys, adj := BuildAdjacency(steps);
    var inDegree := CountInDegrees(keys, adj);
    var queue := InitialQueue(keys, inDegree);
    var visited := 0;
    order := [];
    assert order + queue == queue;
    assert Elements(order) == {};
    while queue != []
      invariant Progress(keys, adj, inDegree, queue, order)
      invariant visited == |order|
      decreases |adj| - |order|
    {
      DequeueKeepsOrder(keys, adj, inDegree, queue, order);
      var node := queue[0];
      inDegree, queue := Release(keys, adj, inDegree, queue, order);
      order := order + [node];
      visited := visited + 1;
      OrderFits(adj, order, queue);
    }
    AllDequeued(keys, adj, inDegree, order);
    accepted := visited == |adj|;
    if accepted {
      ScheduleExcludesCycles(adj, Reverse(order));
    }
    assert order + [] == order;
  }

  lemma OrderFits<N(!new)>(adj: Graph<N>, order: seq<N>, queue: seq<N>)
    requires Distinct(order + queue) && forall n :: n in order + queue ==> n in adj
    ensures Distinct(order) && |order| <= |adj|
  {
    forall i, j | 0 <= i < j < |order| ensures order[i] != order[j] {
      assert (order + queue)[i] == order[i] && (order + queue)[j] == order[j];
    }
    DistinctSize(order);
    forall x | x in order ensures x in adj { assert x in order + queue; }
    SubsetSize(Elements(order), adj.Keys);
  }

  /** The nodes that nothing depends on, in dictionary order. */
  method InitialQueue<N(==,!new)>(keys: seq<N>, inDegree: map<N, nat>) returns (queue: seq<N>)
    requires Distinct(keys) && forall k :: k in keys <==> k in inDegree
    ensures Distinct(queue)
    ensures forall n :: n in queue <==> n in inDegree && inDegree[n] == 0
  {
    queue := [];
    for i := 0 to |keys|
      invariant Distinct(queue)
      invariant forall n :: n in queue <==> n in keys[..i] && inDegree[n] == 0
    {
      assert keys[..i + 1] == keys[..i] + [keys[i]];
      if inDegree[keys[i]] == 0 {
        queue := queue + [keys[i]];
      }
    }
    assert keys[..|keys|] == keys;
  }

  /** Lowers the in-degree of every node that the list names, once per mention, and
      queues a node when it reaches zero. */
  method DropMentions<N(==,!new)>(deps: seq<N>, inDegree0: map<N, nat>, queue0: seq<N>)
    returns (inDegree: map<N, nat>, queue: seq<N>, ghost freed: seq<N>)
    requires forall d :: d in inDegree0 ==> inDegree0[d] >= multiset(deps)[d]
    ensures inDegree.Keys == inDegree0.Keys
    ensures forall d :: d in inDegree ==> inDegree[d] + multiset(deps)[d] == inDegree0[d]
    ensures queue == queue0 + freed && Distinct(freed)
    ensures forall n :: n in freed <==> n in inDegree && inDegree0[n] > 0 && inDegree[n] == 0
  {
    inDegree, queue, freed := inDegree0, queue0, [];
    for j := 0 to |deps|
      invariant inDegree.Keys == inDegree0.Keys
      invariant forall d :: d in inDegree ==> inDegree[d] + multiset(deps[..j])[d] == inDegree0[d]
      invariant queue == queue0 + freed && Distinct(freed)
      invariant forall n :: n in freed <==> n in inDegree && inDegree0[n] > 0 && inDegree[n] == 0
    {
      MentionLeft(deps, j);
      if deps[j] in inDegree {
        inDegree := inDegree[deps[j] := inDegree[deps[j]] - 1];
        if inDegree[deps[j]] == 0 {
          queue, freed := queue + [deps[j]], freed + [deps[j]];
        }
      }
    }
    assert deps[..|deps|] == deps;
  }

  lemma MentionLeft<N(!new)>(deps: seq<N>, j: nat)
    requires j < |deps|
    ensures multiset(deps[..j + 1]) == multiset(deps[..j]) + multiset{deps[j]}
    ensures multiset(deps)[deps[j]] > multiset(deps[..j])[deps[j]]
  {
    assert deps[..j + 1] == deps[..j] + [deps[j]];
    assert deps == deps[..j + 1] + deps[j + 1..];
  }

  /** One round of the main loop: pops the head of the queue and releases everything
      it depends on. */
  method Release<N(==,!new)>(keys: seq<N>, adj: Graph<N>, inDegree0: map<N, nat>, queue0: seq<N>, ghost order: seq<N>)
    returns (inDegree: map<N, nat>, queue: seq<N>)
    requires Distinct(keys) && forall k :: k in keys <==> k in adj
    requires queue0 != [] && Progress(keys, adj, inDegree0, queue0, order)
    ensures Progress(keys, adj, inDegree, queue, order + [queue0[0]])
  {
    DequeueKeepsOrder(keys, adj, inDegree0, queue0, order);
    var node := queue0[0];
    ghost var done := Elements(order);
    ghost var done' := Elements(order + [node]);
    assert done' == done + {node};
    forall d | d in adj ensures Uses(adj, keys, done, d) == Uses(adj, keys, done', d) + multiset(adj[node])[d] {
      UsesAfterDequeue(adj, keys, done, node, d);
    }
    ghost var freed;
    inDegree, queue, freed := DropMentions(adj[node], inDegree0, queue0[1..]);
    QueueStaysDistinct(adj, inDegree0, queue0, order, freed, queue);
  }

  lemma QueueStaysDistinct<N(!new)>(adj: Graph<N>, inDegree0: map<N, nat>, queue0: seq<N>, order: seq<N>, freed: seq<N>, queue: seq<N>)
    requires queue0 != [] && Distinct(order + queue0) && Distinct(freed)
    requires queue == queue0[1..] + freed
    requires forall n :: n in order + queue0 ==> n in inDegree0 && inDegree0[n] == 0
    requires forall n :: n in freed ==> n in inDegree0 && inDegree0[n] > 0
    ensures Distinct((order + [queue0[0]]) + queue)
    ensures forall n :: n in (order + [queue0[0]]) + queue <==> n in order || n in queue0 || n in freed
    ensures forall n :: n in order + [queue0[0]] || n in queue <==> n in order || n in queue0 || n in freed
  {
    var whole := (order + [queue0[0]]) + queue;
    assert whole == (order + queue0) + freed;
    DistinctConcat(order + queue0, freed);
    assert forall n :: n in whole <==> n in order + queue0 || n in freed;
    assert queue0 == [queue0[0]] + queue0[1..];
  }

  // ---------------------------------------------------------------------------
  // build_workflow_spec
  // ---------------------------------------------------------------------------

  datatype SpecError =
    | EmptyName
    | DuplicateName(name: string)
    | UnknownDependency(step: string, dependency: string)
    | DependencyCycle

  /** The step as it enters the spec: names trimmed, blank dependencies dropped. */
  function Normalized(step: Step<string>): Step<string> {
    Step(Strip(step.name), StripAll(step.dependsOn))
  }

  function StripAll(names: seq<string>): (r: seq<string>)
    ensures forall n :: n in r <==> n != "" && exists raw :: raw in names && Strip(raw) == n
  {
    if names == [] then [] else
    var head := Strip(names[0]);
    assert names == [names[0]] + names[1..];
    (if head == "" then [] else [head]) + StripAll(names[1..])
  }

  function NormalizedAll(body: seq<Step<string>>): (r: seq<Step<string>>)
    ensures |r| == |body|
    ensures forall i :: 0 <= i < |body| ==> r[i] == Normalized(body[i])
  {
    seq(|body|, i requires 0 <= i < |body| => Normalized(body[i]))
  }

  function TrimEach(raw: seq<string>): (r: seq<string>)
    ensures |r| == |raw| && forall i :: 0 <= i < |raw| ==> r[i] == Strip(raw[i])
  {
    if raw == [] then [] else [Strip(raw[0])] + TrimEach(raw[1..])
  }

  /** At the places `at`, and only there, `texts` has a nonempty entry; `kept` are these. */
  ghost predicate KeptAt(texts: seq<string>, kept: seq<string>, at: seq<nat>) {
    && |at| == |kept|
    && (forall k :: 0 <= k < |at| ==> KeptFrom(texts, kept, at, k))
    && (forall k, l :: 0 <= k < l < |at| ==> at[k] < at[l])
    && (forall i :: 0 <= i < |texts| && texts[i] != "" ==> Hits(at, i))
  }

  predicate KeptFrom(texts: seq<string>, kept: seq<string>, at: seq<nat>, k: nat)
    requires k < |at| == |kept|
  {
    at[k] < |texts| && kept[k] == texts[at[k]] && kept[k] != ""
  }

  ghost predicate Hits(at: seq<nat>, i: int) {
    exists k :: 0 <= k < |at| && at[k] == i
  }

  /** `kept` are the nonblank entries of `raw`, trimmed, in order and with repetitions. */
  ghost predicate KeepsNonblank(raw: seq<string>, kept: seq<string>) {
    exists at :: KeptAt(TrimEach(raw), kept, at)
  }

  /** `steps` are those of `body` with names trimmed and blank dependencies dropped. */
  ghost predicate Trims(body: seq<Step<string>>, steps: seq<Step<string>>) {
    && |steps| == |body|
    && forall i :: 0 <= i < |body| ==>
         steps[i].name == Strip(body[i].name) && KeepsNonblank(body[i].dependsOn, steps[i].dependsOn)
  }

  lemma {:induction false} StripAllKeeps(raw: seq<string>) returns (at: seq<nat>)
    ensures KeptAt(TrimEach(raw), StripAll(raw), at)
  {
    if raw == [] {
      at := [];
    } else {
      var rest := StripAllKeeps(raw[1..]);
      at := OneInFront(Strip(raw[0]), TrimEach(raw[1..]), StripAll(raw[1..]), rest);
    }
  }

  lemma OneInFront(text: string, texts: seq<string>, kept: seq<string>, rest: seq<nat>) returns (at: seq<nat>)
    requires KeptAt(texts, kept, rest)
    ensures KeptAt([text] + texts, (if text == "" then [] else [text]) + kept, at)
  {
    var all := [text] + texts;
    var later := OneFurther(rest);
    AllFurther(text, texts, kept, rest, later);
    if text == "" {
      at := later;
      assert [] + kept == kept;
    } else {
      at := [0] + later;
      FirstToo(all, kept, later);
    }
  }

  /** The places in the longer list, without the new entry. */
  ghost predicate KeptBehind(all: seq<string>, kept: seq<string>, at: seq<nat>) {
    && |at| == |kept|
    && (forall k :: 0 <= k < |at| ==> KeptFrom(all, kept, at, k) && at[k] > 0)
    && (forall k, l :: 0 <= k < l < |at| ==> at[k] < at[l])
    && (forall i :: 1 <= i < |all| && all[i] != "" ==> Hits(at, i))
  }

  lemma AllFurther(text: string, texts: seq<string>, kept: seq<string>, rest: seq<nat>, later: seq<nat>)
    requires KeptAt(texts, kept, rest) && |later| == |rest| && forall k :: 0 <= k < |rest| ==> later[k] == rest[k] + 1
    ensures KeptBehind([text] + texts, kept, later)
  {
    var all := [text] + texts;
    forall k | 0 <= k < |later| ensures KeptFrom(all, kept, later, k) {
      assert KeptFrom(texts, kept, rest, k);
    }
    forall i | 1 <= i < |all| && all[i] != "" ensures Hits(later, i) {
      assert Hits(rest, i - 1);
      var k :| 0 <= k < |rest| && rest[k] == i - 1;
      assert later[k] == i;
    }
  }

  lemma FirstToo(all: seq<string>, kept: seq<string>, later: seq<nat>)
    requires KeptBehind(all, kept, later) && all != [] && all[0] != ""
    ensures KeptAt(all, [all[0]] + kept, [0] + later)
  {
    var at := [0] + later;
    forall k | 0 <= k < |at| ensures KeptFrom(all, [all[0]] + kept, at, k) {
      if k > 0 { assert KeptFrom(all, kept, later, k - 1); }
    }
    forall i | 0 <= i < |all| && all[i] != "" ensures Hits(at, i) {
      if i == 0 {
        assert at[0] == 0;
      } else {
        assert Hits(later, i);
        var k :| 0 <= k < |later| && later[k] == i;
        assert at[k + 1] == i;
      }
    }
  }

  function OneFurther(at: seq<nat>): (r: seq<nat>)
    ensures |r| == |at| && forall k :: 0 <= k < |at| ==> r[k] == at[k] + 1
  {
    if at == [] then [] else [at[0] + 1] + OneFurther(at[1..])
  }

  lemma NormalizedTrims(body: seq<Step<string>>)
    ensures Trims(body, NormalizedAll(body))
  {
    forall i | 0 <= i < |body| ensures KeepsNonblank(body[i].dependsOn, NormalizedAll(body)[i].dependsOn) {
      var at := StripAllKeeps(body[i].dependsOn);
    }
  }

  ghost predicate NameFresh(steps: seq<Step<string>>, i: int)
    requires 0 <= i < |steps|
  {
    steps[i].name != "" && forall j :: 0 <= j < i ==> steps[j].name != steps[i].name
  }

  ghost predicate NamesFreshBefore(steps: seq<Step<string>>, n: int)
    requires 0 <= n <= |steps|
  {
    forall i :: 0 <= i < n ==> NameFresh(steps, i)
  }

  ghost predicate NamesStep(steps: seq<Step<string>>, name: string) {
    exists i :: 0 <= i < |steps| && steps[i].name == name
  }

  ghost predicate DependenciesKnown(steps: seq<Step<string>>) {
    forall i :: 0 <= i < |steps| ==> forall d :: d in steps[i].dependsOn ==> NamesStep(steps, d)
  }

  /** The step at `i` is the first with a bad name, and this is what is wrong with it. */
  ghost predicate NameErrorAt(steps: seq<Step<string>>, i: int, e: SpecError)
    requires 0 <= i < |steps|
  {
    && NamesFreshBefore(steps, i)
    && !NameFresh(steps, i)
    && e == (if steps[i].name == "" then EmptyName else DuplicateName(steps[i].name))
  }

  /** The first `n` of these dependencies name steps. */
  ghost predicate NamesStepsBefore(steps: seq<Step<string>>, deps: seq<string>, n: int)
    requires 0 <= n <= |deps|
  {
    forall k :: 0 <= k < n ==> NamesStep(steps, deps[k])
  }

  ghost predicate DependenciesKnownBefore(steps: seq<Step<string>>, n: int)
    requires 0 <= n <= |steps|
  {
    forall i :: 0 <= i < n ==> NamesStepsBefore(steps, steps[i].dependsOn, |steps[i].dependsOn|)
  }

  /** The dependency `j` of the step `i` is the first that names no step. */
  ghost predicate DependencyErrorAt(steps: seq<Step<string>>, i: int, j: int, e: SpecError)
    requires 0 <= i < |steps| && 0 <= j < |steps[i].dependsOn|
  {
    var deps := steps[i].dependsOn;
    && e == UnknownDependency(steps[i].name, deps[j])
    && DependenciesKnownBefore(steps, i)
    && NamesStepsBefore(steps, deps, j)
    && !NamesStep(steps, deps[j])
  }

  ghost predicate FirstUnknown(steps: seq<Step<string>>, e: SpecError) {
    exists i, j :: 0 <= i < |steps| && 0 <= j < |steps[i].dependsOn| && DependencyErrorAt(steps, i, j, e)
  }

  /** What a workflow must be for the gateway to accept it. */
  ghost predicate Admissible(steps: seq<Step<string>>) {
    && NamesFreshBefore(steps, |steps|)
    && DependenciesKnown(steps)
    && Acyclic(Adjacency(steps))
  }

  /** Each error is raised only when every earlier check passed. */
  ghost predicate RejectedFor(steps: seq<Step<string>>, e: SpecError) {
    match e
    case EmptyName => exists i :: 0 <= i < |steps| && NameErrorAt(steps, i, e)
    case DuplicateName(_) => exists i :: 0 <= i < |steps| && NameErrorAt(steps, i, e)
    case UnknownDependency(_, _) =>
      NamesFreshBefore(steps, |steps|) && FirstUnknown(steps, e)
    case DependencyCycle =>
      NamesFreshBefore(steps, |steps|) && DependenciesKnown(steps) && !Acyclic(Adjacency(steps))
  }

  /** Exactly the names of the first `i` steps. */
  ghost predicate NamesSeen(names: set<string>, steps: seq<Step<string>>, i: nat)
    requires i <= |steps|
  {
    forall n :: n in names <==> exists j :: 0 <= j < i && steps[j].name == n
  }

  lemma OneMoreName(names: set<string>, steps: seq<Step<string>>, i: nat)
    requires i < |steps| && NamesSeen(names, steps, i)
    ensures NamesSeen(names + {steps[i].name}, steps, i + 1)
    ensures NameFresh(steps, i) <==> steps[i].name != "" && steps[i].name !in names
  {
  }

  /** The first step whose name is blank or taken, if there is one. */
  method CheckNames(body: seq<Step<string>>) returns (r: Result<set<string>, SpecError>)
    ensures r.Ok? <==> NamesFreshBefore(NormalizedAll(body), |body|)
    ensures r.Ok? ==> forall n :: n in r.value <==> NamesStep(NormalizedAll(body), n)
    ensures r.Err? ==> exists i :: 0 <= i < |body| && NameErrorAt(NormalizedAll(body), i, r.error)
  {
    ghost var steps := NormalizedAll(body);
    var names: set<string> := {};
    for i := 0 to |body|
      invariant NamesFreshBefore(steps, i)
      invariant NamesSeen(names, steps, i)
    {
      var trimmed := Strip(body[i].name);
      assert steps[i].name == trimmed;
      OneMoreName(names, steps, i);
      if trimmed == "" {
        assert NameErrorAt(steps, i, EmptyName);
        return Err(EmptyName);
      }
      if trimmed in names {
        assert NameErrorAt(steps, i, DuplicateName(trimmed));
        return Err(DuplicateName(trimmed));
      }
      names := names + {trimmed};
    }
    return Ok(names);
  }

  /** The first dependency that names no step, if there is one. */
  method CheckDependencies(steps: seq<Step<string>>, names: set<string>) returns (r: Option<SpecError>)
    requires forall n :: n in names <==> NamesStep(steps, n)
    ensures r.None? <==> DependenciesKnown(steps)
    ensures r.Some? ==> FirstUnknown(steps, r.value)
  {
    for i := 0 to |steps|
      invariant DependenciesKnownBefore(steps, i)
    {
      var deps := steps[i].dependsOn;
      for j := 0 to |deps|
        invariant NamesStepsBefore(steps, deps, j)
      {
        if deps[j] !in names {
          assert DependencyErrorAt(steps, i, j, UnknownDependency(steps[i].name, deps[j]));
          return Some(UnknownDependency(steps[i].name, deps[j]));
        }
      }
    }
    AllKnown(steps);
    return None;
  }

  lemma AllKnown(steps: seq<Step<string>>)
    requires DependenciesKnownBefore(steps, |steps|)
    ensures DependenciesKnown(steps)
  {
    forall i, d | 0 <= i < |steps| && d in steps[i].dependsOn ensures NamesStep(steps, d) {
      assert NamesStepsBefore(steps, steps[i].dependsOn, |steps[i].dependsOn|);
    }
  }

  lemma {:induction false} AdjacencyOfFresh(steps: seq<Step<string>>, i: nat)
    requires NamesFreshBefore(steps, |steps|) && i < |steps|
    ensures steps[i].name in Adjacency(steps) && Adjacency(steps)[steps[i].name] == steps[i].dependsOn
  {
    var n := |steps| - 1;
    if i < n {
      var init := steps[..n];
      forall k | 0 <= k < n ensures NameFresh(init, k) {
        assert NameFresh(steps, k);
      }
      AdjacencyOfFresh(init, i);
      assert NameFresh(steps, n);
    }
  }

  /** In the schedule of an accepted workflow every step runs after all it depends on. */
  lemma ScheduleRunsDependenciesFirst(steps: seq<Step<string>>, schedule: seq<string>, i: nat, dep: string)
    requires Admissible(steps) && IsSchedule(Adjacency(steps), schedule)
    requires i < |steps| && dep in steps[i].dependsOn
    ensures exists a, b :: 0 <= a < b < |schedule| && schedule[a] == dep && schedule[b] == steps[i].name
  {
    var g := Adjacency(steps);
    AdjacencyOfFresh(steps, i);
    assert NamesStep(steps, dep);
    assert Edge(g, steps[i].name, dep);
    assert dep in Elements(schedule) && steps[i].name in Elements(schedule);
    var a :| 0 <= a < |schedule| && schedule[a] == dep;
    var b :| 0 <= b < |schedule| && schedule[b] == steps[i].name;
    assert Edge(g, schedule[b], schedule[a]);
  }
}
