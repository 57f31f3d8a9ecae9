/** Priorities by critical path: one pass over the vertices, last ones first. */
module CriticalPath {
  import opened TaskDag

  /** What a vertex adds to a path: its elapsed time, at least one, or one for the combination of a reduction. */
  datatype Node = TaskNode(elapsed: nat) | ReductionNode

  function Weight(n: Node): (w: nat)
    ensures w >= 1 && (n.ReductionNode? ==> w == 1)
    ensures n.TaskNode? ==> w >= n.elapsed && (w == 1 || w == n.elapsed)
  {
    match n
    case TaskNode(elapsed) => if elapsed > 1 then elapsed else 1
    case ReductionNode => 1
  }

  function PathWeight(nodes: seq<Node>, p: seq<nat>): nat
    requires forall i :: 0 <= i < |p| ==> p[i] < |nodes|
  {
    if p == [] then 0 else Weight(nodes[p[0]]) + PathWeight(nodes, p[1..])
  }

  lemma {:induction false} PathInside(g: Dag, order: seq<nat>, pos: seq<nat>, p: seq<nat>)
    requires Topological(g, order, pos) && Path(g.arcs, p) && p[0] < g.size
    ensures forall i :: 0 <= i < |p| ==> p[i] < g.size
    decreases |p|
  {
    if |p| >= 2 {
      TailPath(g.arcs, p);
      PathInside(g, order, pos, p[1..]);
      forall i | 0 <= i < |p| ensures p[i] < g.size { if i > 0 { assert p[i] == p[1..][i - 1]; } }
    }
  }

  /** The priority of `v` is that of its best successor plus its own weight; without successors, its weight less one. */
  ghost predicate LocallyBest(g: Dag, nodes: seq<Node>, priority: map<nat, int>, v: nat)
    requires v in priority && v < |nodes|
  {
    && (forall a :: a in g.arcs && a.from == v ==> a.to in priority && priority[a.to] + Weight(nodes[v]) <= priority[v])
    && (priority[v] == Weight(nodes[v]) - 1
        || exists a ::
             a in g.arcs && a.from == v && a.to in priority && priority[v] == priority[a.to] + Weight(nodes[v]))
    && priority[v] >= Weight(nodes[v]) - 1
  }

  ghost predicate Prioritized(g: Dag, nodes: seq<Node>, priority: map<nat, int>) {
    && |nodes| == g.size && (forall v: nat :: v in priority <==> v < g.size)
    && forall v: nat :: v < g.size ==> LocallyBest(g, nodes, priority, v)
  }

  /** No path weighs more than the priority of its start plus one. */
  lemma {:induction false} NoHeavierPath(g: Dag, nodes: seq<Node>, priority: map<nat, int>, order: seq<nat>,
      pos: seq<nat>, p: seq<nat>)
    requires Prioritized(g, nodes, priority) && Topological(g, order, pos) && Path(g.arcs, p) && p[0] < g.size
    ensures forall i :: 0 <= i < |p| ==> p[i] < |nodes|
    ensures PathWeight(nodes, p) <= priority[p[0]] + 1
    decreases |p|
  {
    PathInside(g, order, pos, p);
    assert LocallyBest(g, nodes, priority, p[0]);
    if |p| >= 2 {
      TailPath(g.arcs, p);
      NoHeavierPath(g, nodes, priority, order, pos, p[1..]);
      assert priority[Arc(p[0], p[1]).to] + Weight(nodes[p[0]]) <= priority[p[0]];
    } else {
      assert PathWeight(nodes, p[1..]) == 0;
    }
  }

  /** Some path weighs just that. */
  lemma {:induction false} HeaviestPath(g: Dag, nodes: seq<Node>, priority: map<nat, int>, order: seq<nat>,
      pos: seq<nat>, v: nat)
      returns (p: seq<nat>)
    requires Prioritized(g, nodes, priority) && Topological(g, order, pos) && v < g.size
    ensures Path(g.arcs, p) && p[0] == v && (forall i :: 0 <= i < |p| ==> p[i] < |nodes|)
    ensures PathWeight(nodes, p) == priority[v] + 1
    decreases g.size - pos[v]
  {
    assert LocallyBest(g, nodes, priority, v);
    if priority[v] == Weight(nodes[v]) - 1 {
      p := [v];
      assert PathWeight(nodes, p[1..]) == 0;
    } else {
      var a :| a in g.arcs && a.from == v && priority[v] == priority[a.to] + Weight(nodes[v]);
      var q := HeaviestPath(g, nodes, priority, order, pos, a.to);
      p := [v] + q;
      assert p[1..] == q;
      forall i | 0 <= i < |p| - 1 ensures Arc(p[i], p[i + 1]) in g.arcs {
        if i > 0 { assert Arc(q[i - 1], q[i - 1 + 1]) in g.arcs; }
      }
    }
  }

  /** The priority of a vertex is the weight of the heaviest path from it, less one, and it strictly decreases along
      every arc. */
  lemma PriorityIsCriticalPath(g: Dag, nodes: seq<Node>, priority: map<nat, int>, order: seq<nat>, pos: seq<nat>,
      v: nat)
    requires Prioritized(g, nodes, priority) && Topological(g, order, pos) && v < g.size
    ensures forall p: seq<nat> :: Path(g.arcs, p) && p[0] == v ==>
              (forall i :: 0 <= i < |p| ==> p[i] < |nodes|) && PathWeight(nodes, p) <= priority[v] + 1
    ensures exists p: seq<nat> :: Path(g.arcs, p) && p[0] == v
              && (forall i :: 0 <= i < |p| ==> p[i] < |nodes|) && PathWeight(nodes, p) == priority[v] + 1
    ensures forall a :: a in g.arcs && a.from == v ==> priority[a.to] < priority[v]
  {
    forall p: seq<nat> | Path(g.arcs, p) && p[0] == v
      ensures (forall i :: 0 <= i < |p| ==> p[i] < |nodes|) && PathWeight(nodes, p) <= priority[v] + 1
    {
      NoHeavierPath(g, nodes, priority, order, pos, p);
    }
    var p := HeaviestPath(g, nodes, priority, order, pos, v);
    assert LocallyBest(g, nodes, priority, v);
  }

  /** The best priority among the successors of `v`, or -1. */
  ghost predicate BestSuccessor(g: Dag, priority: map<nat, int>, v: nat, max: int) {
    && max >= -1
    && (forall a :: a in g.arcs && a.from == v ==> a.to in priority && priority[a.to] <= max)
    && (max == -1 || exists a :: a in g.arcs && a.from == v && a.to in priority && priority[a.to] == max)
  }

  method FindBestSuccessor(g: Dag, priority: map<nat, int>, v: nat) returns (max: int)
    requires Successors(g, priority, v)
    ensures BestSuccessor(g, priority, v, max)
  {
    max := -1;
    for i := 0 to |g.arcs|
      invariant max >= -1
      invariant forall j :: 0 <= j < i && g.arcs[j].from == v ==> priority[g.arcs[j].to] <= max
      invariant max == -1 || exists a :: a in g.arcs && a.from == v && priority[a.to] == max
    {
      if g.arcs[i].from == v {
        assert g.arcs[i] in g.arcs;
        var successor := priority[g.arcs[i].to];
        if successor > max {
          max := successor;
        }
      }
    }
  }

  lemma KeepsBest(g: Dag, nodes: seq<Node>, before: map<nat, int>, u: nat, v: nat, x: int)
    requires u in before && u < |nodes| && LocallyBest(g, nodes, before, u) && v !in before
    ensures LocallyBest(g, nodes, before[v := x], u)
  {
    var priority := before[v := x];
    if before[u] != Weight(nodes[u]) - 1 {
      var a :| a in g.arcs && a.from == u && a.to in before && before[u] == before[a.to] + Weight(nodes[u]);
      assert a.to in priority && priority[u] == priority[a.to] + Weight(nodes[u]);
    }
  }

  lemma NewIsBest(g: Dag, nodes: seq<Node>, before: map<nat, int>, v: nat, max: int)
    requires v < |nodes| && v !in before && BestSuccessor(g, before, v, max)
    ensures LocallyBest(g, nodes, before[v := max + Weight(nodes[v])], v)
  {
    var priority := before[v := max + Weight(nodes[v])];
    if max != -1 {
      var a :| a in g.arcs && a.from == v && a.to in before && before[a.to] == max;
      assert priority[v] == priority[a.to] + Weight(nodes[v]);
    }
  }

  /** The vertices from position `k` on have their priorities. */
  ghost predicate DoneFrom(g: Dag, nodes: seq<Node>, pos: seq<nat>, priority: map<nat, int>, k: nat) {
    && |nodes| == |pos| == g.size
    && (forall v: nat :: v in priority <==> v < g.size && pos[v] >= k)
    && (forall v: nat {:trigger LocallyBest(g, nodes, priority, v)} :: v in priority ==>
          LocallyBest(g, nodes, priority, v))
  }

  lemma DomainGrows(g: Dag, order: seq<nat>, pos: seq<nat>, k: nat, v: nat)
    requires Topological(g, order, pos) && k < g.size && v < g.size
    ensures pos[v] >= k <==> pos[v] >= k + 1 || v == order[k]
  {
    assert order[pos[v]] == v;
  }

  lemma AllBest(g: Dag, nodes: seq<Node>, priority: map<nat, int>, v: nat, max: int, u: nat)
    requires v < |nodes| && v !in priority && BestSuccessor(g, priority, v, max)
    requires u in priority[v := max + Weight(nodes[v])] && u < |nodes|
    requires u in priority ==> LocallyBest(g, nodes, priority, u)
    ensures LocallyBest(g, nodes, priority[v := max + Weight(nodes[v])], u)
  {
    if u == v {
      NewIsBest(g, nodes, priority, v, max);
    } else {
      KeepsBest(g, nodes, priority, u, v, max + Weight(nodes[v]));
    }
  }

  lemma OneMoreDone(g: Dag, nodes: seq<Node>, order: seq<nat>, pos: seq<nat>, priority: map<nat, int>, k: nat, max: int)
    requires Topological(g, order, pos) && 0 < k <= g.size && DoneFrom(g, nodes, pos, priority, k)
    requires BestSuccessor(g, priority, order[k - 1], max)
    ensures DoneFrom(g, nodes, pos, priority[order[k - 1] := max + Weight(nodes[order[k - 1]])], k - 1)
  {
    var v := order[k - 1];
    var after := priority[v := max + Weight(nodes[v])];
    assert v !in priority;
    forall u: nat | u < g.size
      ensures pos[u] >= k - 1 <==> pos[u] >= k || u == v
    {
      DomainGrows(g, order, pos, k - 1, u);
    }
    forall u: nat | u in after ensures LocallyBest(g, nodes, after, u) { AllBest(g, nodes, priority, v, max, u); }
  }

  lemma SuccessorsKnown(g: Dag, nodes: seq<Node>, order: seq<nat>, pos: seq<nat>, priority: map<nat, int>, k: nat)
    requires Topological(g, order, pos) && 0 < k <= g.size && DoneFrom(g, nodes, pos, priority, k)
    ensures order[k - 1] < g.size && Successors(g, priority, order[k - 1])
  {
    forall a | a in g.arcs && a.from == order[k - 1] ensures a.to in priority { assert pos[a.to] > k - 1; }
  }

  ghost predicate Successors(g: Dag, priority: map<nat, int>, v: nat) {
    forall a :: a in g.arcs && a.from == v ==> a.to in priority
  }

  lemma AllDone(g: Dag, nodes: seq<Node>, order: seq<nat>, pos: seq<nat>, priority: map<nat, int>)
    requires DoneFrom(g, nodes, pos, priority, 0)
    ensures Prioritized(g, nodes, priority)
  {
  }

  /** The pass over the vertices from the last to the first of a topological order. */
  method PrioritizeCriticalPath(g: Dag, nodes: seq<Node>, order: seq<nat>, ghost pos: seq<nat>)
      returns (priority: map<nat, int>)
    requires |nodes| == g.size && Topological(g, order, pos)
    ensures Prioritized(g, nodes, priority)
  {
    priority := map[];
    var k: nat := g.size;
    while k > 0
      invariant k <= g.size && DoneFrom(g, nodes, pos, priority, k)
    {
      SuccessorsKnown(g, nodes, order, pos, priority, k);
      var v := order[k - 1];
      var max := FindBestSuccessor(g, priority, v);
      OneMoreDone(g, nodes, order, pos, priority, k, max);
      priority := priority[v := max + Weight(nodes[v])];
      k := k - 1;
    }
    AllDone(g, nodes, order, pos, priority);
  }
}
