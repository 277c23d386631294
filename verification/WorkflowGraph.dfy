/** Dependency graphs of workflow steps, and what it means for one to be runnable.
    Nothing here mentions in-degrees or a queue: these are the definitions that
    the cycle detector of `WorkflowValidation` is measured against. */
module WorkflowGraph {

  /** Each step name with the names it depends on, repetitions kept. */
  type Graph<N> = map<N, seq<N>>

  ghost predicate Edge<N(!new)>(g: Graph<N>, a: N, b: N) {
    a in g && b in g && b in g[a]
  }

  ghost predicate EdgeAt<N(!new)>(g: Graph<N>, p: seq<N>, i: int) {
    0 <= i < |p| - 1 && Edge(g, p[i], p[i + 1])
  }

  ghost predicate IsWalk<N(!new)>(g: Graph<N>, p: seq<N>) {
    forall i :: 0 <= i < |p| - 1 ==> EdgeAt(g, p, i)
  }

  ghost predicate IsCycle<N(!new)>(g: Graph<N>, p: seq<N>) {
    |p| >= 2 && p[0] == p[|p| - 1] && IsWalk(g, p)
  }

  ghost predicate Acyclic<N(!new)>(g: Graph<N>) {
    forall p :: !IsCycle(g, p)
  }

  function Elements<T>(s: seq<T>): set<T> {
    set x | x in s
  }

  predicate Distinct<T(==)>(s: seq<T>) {
    forall i, j :: 0 <= i < j < |s| ==> s[i] != s[j]
  }

  /** Every node once, and every node after all the nodes it depends on. */
  ghost predicate IsSchedule<N(!new)>(g: Graph<N>, s: seq<N>) {
    && Distinct(s)
    && Elements(s) == g.Keys
    && Backward(g, s)
  }

  ghost predicate Backward<N(!new)>(g: Graph<N>, s: seq<N>) {
    forall i, j {:trigger Edge(g, s[i], s[j])} ::
      0 <= i < |s| && 0 <= j < |s| && Edge(g, s[i], s[j]) ==> j < i
  }

  ghost predicate Forward<N(!new)>(g: Graph<N>, s: seq<N>) {
    forall i, j {:trigger Edge(g, s[i], s[j])} ::
      0 <= i < |s| && 0 <= j < |s| && Edge(g, s[i], s[j]) ==> i < j
  }

  function Reverse<T(!new)>(s: seq<T>): (r: seq<T>)
    ensures |r| == |s|
    ensures forall i :: 0 <= i < |s| ==> r[i] == s[|s| - 1 - i]
    ensures forall x :: x in r <==> x in s
  {
    if s == [] then [] else
    var r := Reverse(s[1..]) + [s[0]];
    assert forall i :: 0 <= i < |s| - 1 ==> r[i] == s[1..][|s| - 2 - i];
    assert forall x :: x in s <==> x == s[0] || x in s[1..];
    r
  }

  lemma DistinctConcat<T>(a: seq<T>, b: seq<T>)
    ensures Distinct(a + b) <==> Distinct(a) && Distinct(b) && Elements(a) !! Elements(b)
  {
    var c := a + b;
    if Distinct(c) {
      forall i, j | 0 <= i < j < |a| ensures a[i] != a[j] { assert c[i] == a[i] && c[j] == a[j]; }
      forall i, j | 0 <= i < j < |b| ensures b[i] != b[j] { assert c[|a| + i] == b[i] && c[|a| + j] == b[j]; }
      forall i, j | 0 <= i < |a| && 0 <= j < |b| ensures a[i] != b[j] { assert c[i] == a[i] && c[|a| + j] == b[j]; }
    } else {
      var i, j :| 0 <= i < j < |c| && c[i] == c[j];
      assert c[i] == (if i < |a| then a[i] else b[i - |a|]);
      assert c[j] == (if j < |a| then a[j] else b[j - |a|]);
      if i < |a| <= j {
        assert a[i] in Elements(a) && b[j - |a|] in Elements(b);
      }
    }
  }

  lemma DistinctSize<T>(s: seq<T>)
    requires Distinct(s)
    ensures |Elements(s)| == |s|
  {
    if s != [] {
      var init, last := s[..|s| - 1], s[|s| - 1];
      DistinctSize(init);
      assert last !in Elements(init);
      assert Elements(s) == Elements(init) + {last};
    }
  }

  /** A sequence longer than the set its elements come from repeats an element. */
  lemma Pigeonhole<T>(s: seq<T>, pool: set<T>) returns (i: nat, j: nat)
    requires |s| > |pool|
    requires forall x :: x in s ==> x in pool
    ensures i < j < |s| && s[i] == s[j]
  {
    if Distinct(s) {
      DistinctSize(s);
      SubsetSize(Elements(s), pool);
      assert false;
    }
    i, j :| 0 <= i < j < |s| && s[i] == s[j];
  }

  lemma SubsetSize<T>(a: set<T>, b: set<T>)
    requires a <= b
    ensures |a| <= |b|
  {
    assert b == a + (b - a);
  }

  ghost predicate HasPredecessorIn<N(!new)>(g: Graph<N>, pool: set<N>, b: N) {
    exists a :: a in pool && Edge(g, a, b)
  }

  ghost predicate Stuck<N(!new)>(g: Graph<N>, pool: set<N>) {
    pool != {} && forall b :: b in pool ==> HasPredecessorIn(g, pool, b)
  }

  /** From any node of a set in which every node has a predecessor, one can walk
      backwards for as long as one likes. */
  lemma {:induction false} BackwardWalk<N(!new)>(g: Graph<N>, stuck: set<N>, n: nat) returns (p: seq<N>)
    requires Stuck(g, stuck) && n > 0
    ensures |p| == n && IsWalk(g, p)
    ensures forall x :: x in p ==> x in stuck
  {
    if n == 1 {
      var b :| b in stuck;
      p := [b];
    } else {
      var q := BackwardWalk(g, stuck, n - 1);
      assert HasPredecessorIn(g, stuck, q[0]);
      var a :| a in stuck && Edge(g, a, q[0]);
      p := [a] + q;
      forall i | 0 <= i < |p| - 1 ensures EdgeAt(g, p, i) {
        if i > 0 {
          assert EdgeAt(g, q, i - 1);
        }
      }
    }
  }

  /** Such a set therefore contains a cycle. */
  lemma StuckNodesHoldCycle<N(!new)>(g: Graph<N>, stuck: set<N>)
    requires Stuck(g, stuck)
    ensures !Acyclic(g)
  {
    var p := BackwardWalk(g, stuck, |stuck| + 1);
    var i, j := Pigeonhole(p, stuck);
    var c := p[i..j + 1];
    assert c[0] == p[i] && c[|c| - 1] == p[j];
    forall k | 0 <= k < |c| - 1 ensures EdgeAt(g, c, k) {
      assert EdgeAt(g, p, i + k);
    }
    assert IsCycle(g, c);
  }

  /** Along a walk, positions in a schedule strictly decrease. */
  lemma {:induction false} WalkDescends<N(!new)>(g: Graph<N>, s: seq<N>, p: seq<N>) returns (i: nat, j: nat)
    requires IsSchedule(g, s) && |p| >= 2 && IsWalk(g, p)
    ensures i < |s| && j < |s| && s[i] == p[0] && s[j] == p[|p| - 1] && j < i
  {
    assert EdgeAt(g, p, 0);
    assert p[0] in Elements(s) && p[1] in Elements(s);
    i :| 0 <= i < |s| && s[i] == p[0];
    if |p| == 2 {
      j :| 0 <= j < |s| && s[j] == p[1];
    } else {
      var q := p[1..];
      forall k | 0 <= k < |q| - 1 ensures EdgeAt(g, q, k) {
        assert EdgeAt(g, p, k + 1);
      }
      var i' : nat;
      i', j := WalkDescends(g, s, q);
      assert Edge(g, s[i], s[i']);
    }
  }

  /** A graph with a schedule has no cycle. */
  lemma ScheduleExcludesCycles<N(!new)>(g: Graph<N>, s: seq<N>)
    requires IsSchedule(g, s)
    ensures Acyclic(g)
  {
    forall p ensures !IsCycle(g, p) {
      if IsCycle(g, p) {
        var i, j := WalkDescends(g, s, p);
        assert false;
      }
    }
  }

  /** An order in which every edge points forward becomes a schedule when reversed. */
  lemma ReversedOrderIsSchedule<N(!new)>(g: Graph<N>, order: seq<N>)
    requires Distinct(order) && Elements(order) == g.Keys && Forward(g, order)
    ensures IsSchedule(g, Reverse(order))
  {
    var s := Reverse(order);
    forall i, j | 0 <= i < j < |s| ensures s[i] != s[j] {
      assert s[i] == order[|s| - 1 - i] && s[j] == order[|s| - 1 - j];
    }
    ReverseTurnsEdges(g, order);
  }

  lemma ReverseTurnsEdges<N(!new)>(g: Graph<N>, order: seq<N>)
    requires Forward(g, order)
    ensures Backward(g, Reverse(order)) && Elements(Reverse(order)) == Elements(order)
  {
    var s := Reverse(order);
    forall i, j | 0 <= i < |s| && 0 <= j < |s| && Edge(g, s[i], s[j]) ensures j < i {
      assert Edge(g, order[|s| - 1 - i], order[|s| - 1 - j]);
    }
  }
}
