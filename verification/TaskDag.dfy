/** Acyclic task graphs, as the optimizations of the taskiter see them: before the loop is closed. */
module TaskDag {

  datatype Arc = Arc(from: nat, to: nat)

  datatype Dag = Dag(size: nat, arcs: seq<Arc>)

  /** `order` lists all vertices, `pos` says where, and every arc goes forward. */
  ghost predicate Topological(g: Dag, order: seq<nat>, pos: seq<nat>) {
    && |order| == g.size && |pos| == g.size
    && (forall i :: 0 <= i < g.size ==> order[i] < g.size && pos[order[i]] == i)
    && (forall v :: 0 <= v < g.size ==> pos[v] < g.size && order[pos[v]] == v)
    && (forall a :: a in g.arcs ==> a.from < g.size && a.to < g.size && pos[a.from] < pos[a.to])
  }

  /** A path along arcs; a single vertex is one. */
  predicate Path(arcs: seq<Arc>, p: seq<nat>) {
    p != [] && forall i :: 0 <= i < |p| - 1 ==> Arc(p[i], p[i + 1]) in arcs
  }

  predicate PathFrom(arcs: seq<Arc>, p: seq<nat>, u: nat, v: nat) {
    Path(arcs, p) && p[0] == u && p[|p| - 1] == v
  }

  /** There is a path of at least one arc. */
  ghost predicate Reaches(arcs: seq<Arc>, u: nat, v: nat) {
    exists p: seq<nat> :: |p| >= 2 && PathFrom(arcs, p, u, v)
  }

  lemma OneArc(arcs: seq<Arc>, u: nat, v: nat)
    requires Arc(u, v) in arcs
    ensures Reaches(arcs, u, v)
  {
    assert PathFrom(arcs, [u, v], u, v);
  }

  lemma Compose(arcs: seq<Arc>, u: nat, v: nat, w: nat)
    requires Reaches(arcs, u, v) && Reaches(arcs, v, w)
    ensures Reaches(arcs, u, w)
  {
    var p: seq<nat> :| |p| >= 2 && PathFrom(arcs, p, u, v);
    var q: seq<nat> :| |q| >= 2 && PathFrom(arcs, q, v, w);
    var r := p + q[1..];
    forall i | 0 <= i < |r| - 1 ensures Arc(r[i], r[i + 1]) in arcs {
      if i < |p| - 1 {
        assert Arc(p[i], p[i + 1]) in arcs;
      } else {
        assert Arc(q[i - (|p| - 1)], q[i - (|p| - 1) + 1]) in arcs;
      }
    }
    assert PathFrom(arcs, r, u, w);
  }

  /** The rest of a path after its first arc. */
  lemma TailPath(arcs: seq<Arc>, p: seq<nat>)
    requires Path(arcs, p) && |p| >= 2
    ensures Path(arcs, p[1..]) && Arc(p[0], p[1]) in arcs
  {
    assert Arc(p[0], p[0 + 1]) in arcs;
    forall i | 0 <= i < |p[1..]| - 1 ensures Arc(p[1..][i], p[1..][i + 1]) in arcs {
      assert Arc(p[i + 1], p[i + 1 + 1]) in arcs;
    }
  }

  /** A number for each vertex that grows along every arc. */
  ghost predicate Ranked(arcs: seq<Arc>, rank: nat -> int) {
    forall a :: a in arcs ==> rank(a.from) < rank(a.to)
  }

  lemma {:induction false} PathsClimb(arcs: seq<Arc>, rank: nat -> int, p: seq<nat>)
    requires Ranked(arcs, rank) && Path(arcs, p)
    ensures rank(p[0]) + |p| - 1 <= rank(p[|p| - 1])
    decreases |p|
  {
    if |p| >= 2 {
      TailPath(arcs, p);
      PathsClimb(arcs, rank, p[1..]);
    }
  }

  /** A ranked graph has no cycles. */
  lemma RankedIsAcyclic(arcs: seq<Arc>, rank: nat -> int, u: nat, v: nat)
    requires Ranked(arcs, rank) && Reaches(arcs, u, v)
    ensures rank(u) < rank(v) && u != v
  {
    var p: seq<nat> :| |p| >= 2 && PathFrom(arcs, p, u, v);
    PathsClimb(arcs, rank, p);
  }

  function OutDegree(arcs: seq<Arc>, v: nat): nat {
    if arcs == [] then 0 else OutDegree(arcs[..|arcs| - 1], v) + if arcs[|arcs| - 1].from == v then 1 else 0
  }

  function InDegree(arcs: seq<Arc>, v: nat): nat {
    if arcs == [] then 0 else InDegree(arcs[..|arcs| - 1], v) + if arcs[|arcs| - 1].to == v then 1 else 0
  }

  lemma {:induction false} ArcCounts(arcs: seq<Arc>, a: Arc)
    requires a in arcs
    ensures OutDegree(arcs, a.from) >= 1 && InDegree(arcs, a.to) >= 1
  {
    if arcs[|arcs| - 1] != a { ArcCounts(arcs[..|arcs| - 1], a); }
  }

  function Into(arcs: seq<Arc>, v: nat): set<nat> {
    set i: nat | i < |arcs| && arcs[i].to == v
  }

  function OutOf(arcs: seq<Arc>, v: nat): set<nat> {
    set i: nat | i < |arcs| && arcs[i].from == v
  }

  lemma IntoSnoc(arcs: seq<Arc>, v: nat)
    requires arcs != []
    ensures var n := |arcs| - 1; |Into(arcs, v)| == |Into(arcs[..n], v)| + if arcs[n].to == v then 1 else 0
  {
    var n := |arcs| - 1;
    assert Into(arcs, v) == Into(arcs[..n], v) + if arcs[n].to == v then {n} else {};
  }

  lemma OutOfSnoc(arcs: seq<Arc>, v: nat)
    requires arcs != []
    ensures var n := |arcs| - 1; |OutOf(arcs, v)| == |OutOf(arcs[..n], v)| + if arcs[n].from == v then 1 else 0
  {
    var n := |arcs| - 1;
    assert OutOf(arcs, v) == OutOf(arcs[..n], v) + if arcs[n].from == v then {n} else {};
  }

  /** The degrees of a vertex are the numbers of arcs into it and out of it. */
  lemma {:induction false} DegreesCount(arcs: seq<Arc>, v: nat)
    ensures InDegree(arcs, v) == |Into(arcs, v)| && OutDegree(arcs, v) == |OutOf(arcs, v)|
  {
    if arcs != [] {
      DegreesCount(arcs[..|arcs| - 1], v);
      IntoSnoc(arcs, v);
      OutOfSnoc(arcs, v);
    }
  }

  lemma {:induction false} OnlyOutArc(arcs: seq<Arc>, a: Arc, b: Arc)
    requires a in arcs && b in arcs && a.from == b.from && OutDegree(arcs, a.from) == 1
    ensures a == b
  {
    var n := |arcs| - 1;
    if arcs[n] != a && arcs[n] != b {
      ArcCounts(arcs[..n], a);
      OnlyOutArc(arcs[..n], a, b);
    } else if arcs[n] != a {
      ArcCounts(arcs[..n], a);
    } else if arcs[n] != b {
      ArcCounts(arcs[..n], b);
    }
  }

  lemma {:induction false} OnlyInArc(arcs: seq<Arc>, a: Arc, b: Arc)
    requires a in arcs && b in arcs && a.to == b.to && InDegree(arcs, a.to) == 1
    ensures a == b
  {
    var n := |arcs| - 1;
    if arcs[n] != a && arcs[n] != b {
      ArcCounts(arcs[..n], a);
      OnlyInArc(arcs[..n], a, b);
    } else if arcs[n] != a {
      ArcCounts(arcs[..n], a);
    } else if arcs[n] != b {
      ArcCounts(arcs[..n], b);
    }
  }

  /** The target of the first arc out of a vertex. */
  function OnlySuccessor(arcs: seq<Arc>, v: nat): (u: nat)
    requires OutDegree(arcs, v) == 1
    ensures Arc(v, u) in arcs
  {
    if arcs[|arcs| - 1].from == v then arcs[|arcs| - 1].to
    else OnlySuccessor(arcs[..|arcs| - 1], v)
  }

  // ---------------------------------------------------------------------------------------------
  // Grouping vertices

  /** `groups` are the vertices of the new graph, each with the vertices it stands for; `eq` says where a vertex
      went. */
  datatype Grouping = Grouping(groups: seq<seq<nat>>, eq: seq<int>)

  /** The arcs copied back: those between different groups. */
  function NewArcs(arcs: seq<Arc>, eq: seq<int>): seq<Arc>
    requires forall a :: a in arcs ==> a.from < |eq| && a.to < |eq| && eq[a.from] >= 0 && eq[a.to] >= 0
  {
    if arcs == [] then []
    else
      var a := arcs[|arcs| - 1];
      NewArcs(arcs[..|arcs| - 1], eq) + if eq[a.from] != eq[a.to] then [Arc(eq[a.from], eq[a.to])] else []
  }

  lemma {:induction false} NewArcOf(arcs: seq<Arc>, eq: seq<int>, x: Arc)
    requires forall a :: a in arcs ==> a.from < |eq| && a.to < |eq| && eq[a.from] >= 0 && eq[a.to] >= 0
    ensures x in NewArcs(arcs, eq)
            <==> exists a :: a in arcs && eq[a.from] == x.from && eq[a.to] == x.to && eq[a.from] != eq[a.to]
  {
    if arcs != [] {
      var n := |arcs| - 1;
      assert arcs == arcs[..n] + [arcs[n]];
      NewArcOf(arcs[..n], eq, x);
    }
  }

  /** Copies back the arcs between different groups. */
  method CopyArcs(old': seq<Arc>, eq: seq<int>) returns (arcs: seq<Arc>)
    requires forall a :: a in old' ==> a.from < |eq| && a.to < |eq| && eq[a.from] >= 0 && eq[a.to] >= 0
    ensures arcs == NewArcs(old', eq)
  {
    arcs := [];
    for i := 0 to |old'|
      invariant arcs == NewArcs(old'[..i], eq)
    {
      assert old'[..i + 1][..i] == old'[..i];
      var from, to := eq[old'[i].from], eq[old'[i].to];
      if from != to {
        arcs := arcs + [Arc(from, to)];
      }
    }
    assert old'[..|old'|] == old';
  }
}
