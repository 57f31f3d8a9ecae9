/** Granularity tuning by chains: a run of vertices with one way in and one way out becomes one vertex. */
module GranularityChains {
  import opened TaskDag

  /** From `u` the only way leads to `v`, and into `v` the only way comes from `u`. */
  predicate Linked(arcs: seq<Arc>, u: nat, v: nat) {
    Arc(u, v) in arcs && OutDegree(arcs, u) == 1 && InDegree(arcs, v) == 1
  }

  predicate Chain(arcs: seq<Arc>, c: seq<nat>) {
    c != [] && forall i :: 0 <= i < |c| - 1 ==> Linked(arcs, c[i], c[i + 1])
  }

  /** Every group is a chain and holds exactly the vertices that went there; a vertex that has not been visited is
      nowhere. */
  ghost predicate Grouped(g: Dag, r: Grouping) {
    && |r.eq| == g.size
    && (forall k :: 0 <= k < |r.groups| ==> Chain(g.arcs, r.groups[k]))
    && (forall k, i :: 0 <= k < |r.groups| && 0 <= i < |r.groups[k]| ==>
          r.groups[k][i] < g.size && r.eq[r.groups[k][i]] == k)
    && (forall v :: 0 <= v < g.size && r.eq[v] != -1 ==> 0 <= r.eq[v] < |r.groups| && v in r.groups[r.eq[v]])
  }

  /** All vertices have been placed. */
  ghost predicate Complete(g: Dag, r: Grouping) {
    Grouped(g, r) && forall v :: 0 <= v < g.size ==> r.eq[v] != -1
  }

  ghost predicate Tuned(g: Dag, order: seq<nat>, pos: seq<nat>, r: Grouping) {
    Topological(g, order, pos) && Complete(g, r)
  }

  lemma ArcsPlaced(g: Dag, order: seq<nat>, pos: seq<nat>, r: Grouping)
    requires Tuned(g, order, pos, r)
    ensures forall a :: a in g.arcs ==> a.from < |r.eq| && a.to < |r.eq| && r.eq[a.from] >= 0 && r.eq[a.to] >= 0
  {
  }

  // ---------------------------------------------------------------------------------------------
  // Inside a group

  lemma {:induction false} ChainReaches(arcs: seq<Arc>, c: seq<nat>, i: nat, j: nat)
    requires Chain(arcs, c) && i < j < |c|
    ensures Reaches(arcs, c[i], c[j])
    decreases j - i
  {
    assert Linked(arcs, c[j - 1], c[j - 1 + 1]);
    OneArc(arcs, c[j - 1], c[j]);
    if i < j - 1 {
      ChainReaches(arcs, c, i, j - 1);
      Compose(arcs, c[i], c[j - 1], c[j]);
    }
  }

  /** An arc inside a group leads to the next vertex of the group; an arc that leaves a group leaves from its end, and
      one that enters a group enters at its start. */
  lemma ArcsOfGroups(g: Dag, r: Grouping, a: Arc, k: nat, i: nat, l: nat, j: nat)
    requires Grouped(g, r) && a in g.arcs && k < |r.groups| && i < |r.groups[k]| && l < |r.groups| && j < |r.groups[l]|
    requires a.from == r.groups[k][i] && a.to == r.groups[l][j]
    ensures i < |r.groups[k]| - 1 ==> a.to == r.groups[k][i + 1] && l == k
    ensures j > 0 ==> a.from == r.groups[l][j - 1] && l == k
  {
    if i < |r.groups[k]| - 1 {
      assert Chain(g.arcs, r.groups[k]);
      assert Linked(g.arcs, r.groups[k][i], r.groups[k][i + 1]);
      OnlyOutArc(g.arcs, a, Arc(r.groups[k][i], r.groups[k][i + 1]));
      assert r.eq[r.groups[k][i + 1]] == k && r.eq[r.groups[l][j]] == l;
    }
    if j > 0 {
      assert Chain(g.arcs, r.groups[l]);
      assert Linked(g.arcs, r.groups[l][j - 1], r.groups[l][j - 1 + 1]);
      OnlyInArc(g.arcs, a, Arc(r.groups[l][j - 1], r.groups[l][j]));
      assert r.eq[r.groups[l][j - 1]] == l && r.eq[r.groups[k][i]] == k;
    }
  }

  function Last<T>(s: seq<T>): T
    requires s != []
  {
    s[|s| - 1]
  }

  lemma PlaceOf(g: Dag, r: Grouping, v: nat) returns (k: nat, i: nat)
    requires Complete(g, r) && v < g.size
    ensures k < |r.groups| && i < |r.groups[k]| && r.eq[v] == k && r.groups[k][i] == v
  {
    k := r.eq[v];
    i :| 0 <= i < |r.groups[k]| && r.groups[k][i] == v;
  }

  /** A new arc stands for an arc from the end of one group to the start of another. */
  lemma NewArcJoinsGroups(g: Dag, order: seq<nat>, pos: seq<nat>, r: Grouping, x: Arc)
    requires Tuned(g, order, pos, r) && (ArcsPlaced(g, order, pos, r); x in NewArcs(g.arcs, r.eq))
    ensures x.from < |r.groups| && x.to < |r.groups| && x.from != x.to
    ensures r.groups[x.from] != [] && r.groups[x.to] != [] && Arc(Last(r.groups[x.from]), r.groups[x.to][0]) in g.arcs
  {
    hide Grouped, NewArcs;
    ArcsPlaced(g, order, pos, r);
    NewArcOf(g.arcs, r.eq, x);
    var a :| a in g.arcs && r.eq[a.from] == x.from && r.eq[a.to] == x.to && r.eq[a.from] != r.eq[a.to];
    var k, i := PlaceOf(g, r, a.from);
    var l, j := PlaceOf(g, r, a.to);
    ArcsOfGroups(g, r, a, k, i, l, j);
  }

  // ---------------------------------------------------------------------------------------------
  // Reachability is kept exactly

  /** Before in the same group. */
  ghost predicate Earlier(c: seq<nat>, u: nat, v: nat) {
    exists i, j :: 0 <= i < j < |c| && c[i] == u && c[j] == v
  }

  ghost predicate After(g: Dag, order: seq<nat>, pos: seq<nat>, r: Grouping, u: nat, v: nat)
    requires Tuned(g, order, pos, r) && u < g.size && v < g.size
  {
    ArcsPlaced(g, order, pos, r);
    if r.eq[u] == r.eq[v] then Earlier(r.groups[r.eq[u]], u, v)
    else Reaches(NewArcs(g.arcs, r.eq), r.eq[u], r.eq[v])
  }

  lemma ArcIsAfter(g: Dag, order: seq<nat>, pos: seq<nat>, r: Grouping, a: Arc)
    requires Tuned(g, order, pos, r) && a in g.arcs
    ensures a.from < g.size && a.to < g.size && After(g, order, pos, r, a.from, a.to)
  {
    ArcsPlaced(g, order, pos, r);
    var k, l := r.eq[a.from], r.eq[a.to];
    if k == l {
      var i :| 0 <= i < |r.groups[k]| && r.groups[k][i] == a.from;
      var j :| 0 <= j < |r.groups[k]| && r.groups[k][j] == a.to;
      ArcsOfGroups(g, r, a, k, i, k, j);
      NotLastOrNotFirst(g, order, pos, r, a, k, i, j);
    } else {
      NewArcOf(g.arcs, r.eq, Arc(k, l));
      OneArc(NewArcs(g.arcs, r.eq), k, l);
    }
  }

  /** An arc inside a group cannot go from its end to its start. */
  lemma NotLastOrNotFirst(g: Dag, order: seq<nat>, pos: seq<nat>, r: Grouping, a: Arc, k: nat, i: nat, j: nat)
    requires Tuned(g, order, pos, r) && a in g.arcs && k < |r.groups| && i < |r.groups[k]| && j < |r.groups[k]|
    requires a.from == r.groups[k][i] && a.to == r.groups[k][j]
    ensures Earlier(r.groups[k], a.from, a.to)
  {
    var c := r.groups[k];
    assert Chain(g.arcs, c);
    ArcsOfGroups(g, r, a, k, i, k, j);
    if i < |c| - 1 {
      assert c[i + 1] == a.to;
    } else if j > 0 {
      assert c[j - 1] == a.from;
    } else if i > 0 {
      ChainForward(g, order, pos, c, 0, i);
    }
  }

  lemma {:induction false} ChainForward(g: Dag, order: seq<nat>, pos: seq<nat>, c: seq<nat>, i: nat, j: nat)
    requires Topological(g, order, pos) && Chain(g.arcs, c) && i < j < |c|
    ensures c[i] < g.size && c[j] < g.size && pos[c[i]] < pos[c[j]]
    decreases j - i
  {
    assert Linked(g.arcs, c[j - 1], c[j - 1 + 1]);
    assert Arc(c[j - 1], c[j]) in g.arcs;
    if i < j - 1 { ChainForward(g, order, pos, c, i, j - 1); }
  }

  lemma EarlierTwice(g: Dag, order: seq<nat>, pos: seq<nat>, c: seq<nat>, u: nat, v: nat, w: nat)
    requires Topological(g, order, pos) && Chain(g.arcs, c) && Earlier(c, u, v) && Earlier(c, v, w)
    ensures Earlier(c, u, w)
  {
    var i, j :| 0 <= i < j < |c| && c[i] == u && c[j] == v;
    var k, l :| 0 <= k < l < |c| && c[k] == v && c[l] == w;
    if k < j { ChainForward(g, order, pos, c, k, j); }
    assert i < l && c[l] == w;
  }

  // The new graph has no cycles

  function Rank(pos: seq<nat>, r: Grouping, k: nat): int {
    if k < |r.groups| && r.groups[k] != [] && r.groups[k][0] < |pos| then pos[r.groups[k][0]] else 0
  }

  lemma NewArcsAreRanked(g: Dag, order: seq<nat>, pos: seq<nat>, r: Grouping)
    requires Tuned(g, order, pos, r)
    ensures (ArcsPlaced(g, order, pos, r); Ranked(NewArcs(g.arcs, r.eq), (k: nat) => Rank(pos, r, k)))
  {
    ArcsPlaced(g, order, pos, r);
    forall x | x in NewArcs(g.arcs, r.eq) ensures Rank(pos, r, x.from) < Rank(pos, r, x.to) {
      NewArcJoinsGroups(g, order, pos, r, x);
      var c := r.groups[x.from];
      if |c| > 1 { ChainForward(g, order, pos, c, 0, |c| - 1); }
      assert pos[Last(c)] < pos[r.groups[x.to][0]];
    }
  }

  /** The new graph is acyclic. */
  lemma NewGraphIsAcyclic(g: Dag, order: seq<nat>, pos: seq<nat>, r: Grouping, k: nat, l: nat)
    requires Tuned(g, order, pos, r) && (ArcsPlaced(g, order, pos, r); Reaches(NewArcs(g.arcs, r.eq), k, l))
    ensures k != l
  {
    ArcsPlaced(g, order, pos, r);
    NewArcsAreRanked(g, order, pos, r);
    RankedIsAcyclic(NewArcs(g.arcs, r.eq), (k: nat) => Rank(pos, r, k), k, l);
  }

  lemma AfterTwice(g: Dag, order: seq<nat>, pos: seq<nat>, r: Grouping, u: nat, v: nat, w: nat)
    requires Tuned(g, order, pos, r) && u < g.size && v < g.size && w < g.size
    requires After(g, order, pos, r, u, v) && After(g, order, pos, r, v, w)
    ensures After(g, order, pos, r, u, w)
  {
    ArcsPlaced(g, order, pos, r);
    var arcs := NewArcs(g.arcs, r.eq);
    if r.eq[u] == r.eq[v] == r.eq[w] {
      EarlierTwice(g, order, pos, r.groups[r.eq[u]], u, v, w);
    } else if r.eq[u] != r.eq[v] && r.eq[v] != r.eq[w] {
      Compose(arcs, r.eq[u], r.eq[v], r.eq[w]);
      NewGraphIsAcyclic(g, order, pos, r, r.eq[u], r.eq[w]);
    }
  }

  lemma {:induction false} PathIsAfter(g: Dag, order: seq<nat>, pos: seq<nat>, r: Grouping, p: seq<nat>)
    requires Tuned(g, order, pos, r) && |p| >= 2 && Path(g.arcs, p)
    ensures p[0] < g.size && p[|p| - 1] < g.size && After(g, order, pos, r, p[0], p[|p| - 1])
    decreases |p|
  {
    TailPath(g.arcs, p);
    ArcIsAfter(g, order, pos, r, Arc(p[0], p[1]));
    if |p| > 2 {
      PathIsAfter(g, order, pos, r, p[1..]);
      AfterTwice(g, order, pos, r, p[0], p[1], p[|p| - 1]);
    }
  }

  lemma ReachesEnd(arcs: seq<Arc>, c: seq<nat>, i: nat)
    requires Chain(arcs, c) && i < |c|
    ensures c[i] == Last(c) || Reaches(arcs, c[i], Last(c))
    ensures c[0] == c[i] || Reaches(arcs, c[0], c[i])
  {
    if i < |c| - 1 { ChainReaches(arcs, c, i, |c| - 1); }
    if i > 0 { ChainReaches(arcs, c, 0, i); }
  }

  lemma {:induction false} NewPathIsPath(g: Dag, order: seq<nat>, pos: seq<nat>, r: Grouping, p: seq<nat>)
    requires Tuned(g, order, pos, r) && |p| >= 2 && (ArcsPlaced(g, order, pos, r); Path(NewArcs(g.arcs, r.eq), p))
    ensures p[0] < |r.groups| && p[|p| - 1] < |r.groups| && r.groups[p[0]] != [] && r.groups[p[|p| - 1]] != []
    ensures Reaches(g.arcs, Last(r.groups[p[0]]), r.groups[p[|p| - 1]][0])
    decreases |p|
  {
    hide Topological, Reaches, Linked;
    ArcsPlaced(g, order, pos, r);
    TailPath(NewArcs(g.arcs, r.eq), p);
    NewArcJoinsGroups(g, order, pos, r, Arc(p[0], p[1]));
    var from, mid := Last(r.groups[p[0]]), r.groups[p[1]];
    OneArc(g.arcs, from, mid[0]);
    if |p| > 2 {
      NewPathIsPath(g, order, pos, r, p[1..]);
      ReachesEnd(g.arcs, mid, |mid| - 1);
      if mid[0] != Last(mid) { Compose(g.arcs, from, mid[0], Last(mid)); }
      Compose(g.arcs, from, Last(mid), r.groups[p[|p| - 1]][0]);
    }
  }

  lemma AfterIsReached(g: Dag, order: seq<nat>, pos: seq<nat>, r: Grouping, u: nat, v: nat)
    requires Tuned(g, order, pos, r) && u < g.size && v < g.size && After(g, order, pos, r, u, v)
    ensures Reaches(g.arcs, u, v)
  {
    ArcsPlaced(g, order, pos, r);
    var k, l := r.eq[u], r.eq[v];
    var i :| 0 <= i < |r.groups[k]| && r.groups[k][i] == u;
    var j :| 0 <= j < |r.groups[l]| && r.groups[l][j] == v;
    assert Chain(g.arcs, r.groups[k]) && Chain(g.arcs, r.groups[l]);
    if k == l {
      var a, b :| 0 <= a < b < |r.groups[k]| && r.groups[k][a] == u && r.groups[k][b] == v;
      ChainReaches(g.arcs, r.groups[k], a, b);
    } else {
      var p: seq<nat> :| |p| >= 2 && PathFrom(NewArcs(g.arcs, r.eq), p, k, l);
      NewPathIsPath(g, order, pos, r, p);
      var end, start := Last(r.groups[k]), r.groups[l][0];
      ReachesEnd(g.arcs, r.groups[k], i);
      ReachesEnd(g.arcs, r.groups[l], j);
      if u != end { Compose(g.arcs, u, end, start); }
      if start != v { Compose(g.arcs, u, start, v); }
    }
  }

  /** Contraction keeps every dependency and adds none: one vertex reaches another if and only if it comes before it in
      the same group, or its group reaches the other's in the new graph, which is acyclic. */
  lemma ContractionKeepsOrder(g: Dag, order: seq<nat>, pos: seq<nat>, r: Grouping, u: nat, v: nat)
    requires Tuned(g, order, pos, r) && u < g.size && v < g.size
    ensures Reaches(g.arcs, u, v) <==> After(g, order, pos, r, u, v)
  {
    if Reaches(g.arcs, u, v) {
      var p: seq<nat> :| |p| >= 2 && PathFrom(g.arcs, p, u, v);
      PathIsAfter(g, order, pos, r, p);
    }
    if After(g, order, pos, r, u, v) { AfterIsReached(g, order, pos, r, u, v); }
  }

  // ---------------------------------------------------------------------------------------------
  // How far a chain goes

  /** The chain cannot be longer: it starts a chain only if its first vertex and that one's only successor may be
      grouped, and then it goes on until there is more than one way out, or more than one way into what follows. */
  ghost predicate Maximal(g: Dag, groupable: seq<bool>, c: seq<nat>) {
    c != [] &&
    if OutDegree(g.arcs, c[0]) == 1 && MayStart(g, groupable, c[0]) then
      OutDegree(g.arcs, Last(c)) == 1 ==> InDegree(g.arcs, OnlySuccessor(g.arcs, Last(c))) != 1
    else
      |c| == 1
  }

  predicate MayStart(g: Dag, groupable: seq<bool>, v: nat)
    requires OutDegree(g.arcs, v) == 1
  {
    v < |groupable| && groupable[v] && OnlySuccessor(g.arcs, v) < |groupable| && groupable[OnlySuccessor(g.arcs, v)]
  }

  ghost predicate AllMaximal(g: Dag, groupable: seq<bool>, groups: seq<seq<nat>>) {
    forall k :: 0 <= k < |groups| ==> Maximal(g, groupable, groups[k])
  }

  // ---------------------------------------------------------------------------------------------
  // Members that may not be grouped

  /** A chain whose first two vertices may be grouped, and some later one may not. */
  ghost predicate StrayChain(g: Dag, groupable: seq<bool>, c: seq<nat>) {
    && |c| >= 3 && Chain(g.arcs, c) && (forall i :: 0 <= i < |c| ==> c[i] < |groupable|)
    && groupable[c[0]] && groupable[c[1]] && exists j :: 2 <= j < |c| && !groupable[c[j]]
  }

  /** A group of several vertices with one that may not be grouped. */
  ghost predicate StrayGroup(r: Grouping, groupable: seq<bool>, k: nat) {
    && k < |r.groups| && |r.groups[k]| >= 2
    && exists i :: 0 <= i < |r.groups[k]| && r.groups[k][i] < |groupable| && !groupable[r.groups[k][i]]
  }

  /** The only successor is the next vertex of a chain. */
  lemma SuccessorInChain(g: Dag, c: seq<nat>, j: nat)
    requires Chain(g.arcs, c) && j < |c| - 1
    ensures OutDegree(g.arcs, c[j]) == 1 && OnlySuccessor(g.arcs, c[j]) == c[j + 1] && InDegree(g.arcs, c[j + 1]) == 1
  {
    assert Linked(g.arcs, c[j], c[j + 1]);
    OnlyOutArc(g.arcs, Arc(c[j], c[j + 1]), Arc(c[j], OnlySuccessor(g.arcs, c[j])));
  }

  /** A group with more than one vertex was allowed to start, and goes on as long as it can. */
  lemma LongGroupStarts(g: Dag, groupable: seq<bool>, d: seq<nat>)
    requires Chain(g.arcs, d) && Maximal(g, groupable, d) && |d| >= 2
    ensures d[0] < |groupable| && d[1] < |groupable| && groupable[d[0]] && groupable[d[1]]
    ensures OutDegree(g.arcs, Last(d)) == 1 ==> InDegree(g.arcs, OnlySuccessor(g.arcs, Last(d))) != 1
  {
    SuccessorInChain(g, d, 0);
  }

  /** A group follows every chain whose first two vertices may be grouped to its end. */
  lemma {:induction false} GroupFollowsChain(g: Dag, groupable: seq<bool>, c: seq<nat>, d: seq<nat>, i: nat, j: nat)
    requires Chain(g.arcs, c) && Chain(g.arcs, d) && Maximal(g, groupable, d) && i < |d| && d[i] == c[0]
    requires j < |c| && |c| >= 2
    requires c[0] < |groupable| && groupable[c[0]] && c[1] < |groupable| && groupable[c[1]]
    ensures i + j < |d| && d[i + j] == c[j]
  {
    if j > 0 {
      GroupFollowsChain(g, groupable, c, d, i, j - 1);
      SuccessorInChain(g, c, j - 1);
      if i + j < |d| {
        SuccessorInChain(g, d, i + j - 1);
      } else if |d| >= 2 {
        LongGroupStarts(g, groupable, d);
        assert false;
      }
    }
  }

  lemma StrayChainIsGrouped(g: Dag, order: seq<nat>, pos: seq<nat>, groupable: seq<bool>, r: Grouping, c: seq<nat>)
    requires Tuned(g, order, pos, r) && AllMaximal(g, groupable, r.groups) && StrayChain(g, groupable, c)
    ensures exists k: nat :: StrayGroup(r, groupable, k)
  {
    assert Linked(g.arcs, c[0], c[0 + 1]);
    var k: nat := r.eq[c[0]];
    var d := r.groups[k];
    var i :| 0 <= i < |d| && d[i] == c[0];
    var j: nat :| 2 <= j < |c| && !groupable[c[j]];
    assert Chain(g.arcs, d) && Maximal(g, groupable, d);
    GroupFollowsChain(g, groupable, c, d, i, j);
    assert StrayGroup(r, groupable, k);
  }

  /** Exactly when the pass puts a vertex that may not be grouped in a group with others. The condition is about the
      graph alone: some chain starts with two vertices that may be grouped and goes on to one that may not. */
  lemma StrayMembers(g: Dag, order: seq<nat>, pos: seq<nat>, groupable: seq<bool>, r: Grouping)
    requires Tuned(g, order, pos, r) && AllMaximal(g, groupable, r.groups) && |groupable| == g.size
    ensures (exists k: nat :: StrayGroup(r, groupable, k)) <==> exists c: seq<nat> :: StrayChain(g, groupable, c)
  {
    if k: nat :| StrayGroup(r, groupable, k) {
      var d := r.groups[k];
      assert Chain(g.arcs, d) && Maximal(g, groupable, d);
      LongGroupStarts(g, groupable, d);
      assert StrayChain(g, groupable, d);
    }
    if c: seq<nat> :| StrayChain(g, groupable, c) { StrayChainIsGrouped(g, order, pos, groupable, r, c); }
  }

  lemma TwoArcs()
    ensures Linked([Arc(0, 1), Arc(1, 2)], 0, 1) && Linked([Arc(0, 1), Arc(1, 2)], 1, 2)
  {
    var one, two := [Arc(0, 1)], [Arc(0, 1), Arc(1, 2)];
    assert one[..0] == [] && two[..1] == one;
    assert OutDegree(one, 0) == 1 && OutDegree(one, 1) == 0 && InDegree(one, 1) == 1 && InDegree(one, 2) == 0;
    assert OutDegree(two, 0) == 1 && OutDegree(two, 1) == 1 && InDegree(two, 1) == 1 && InDegree(two, 2) == 1;
  }

  /** In the chain of three vertices of which the last, such as a communication task, may not be grouped, it is: the
      only vertex whose permission is asked after the start is the second. */
  lemma StrayExample(order: seq<nat>, pos: seq<nat>, r: Grouping)
    requires var g := Dag(3, [Arc(0, 1), Arc(1, 2)]);
             Tuned(g, order, pos, r) && AllMaximal(g, [true, true, false], r.groups)
    ensures |r.eq| == 3 && r.eq[1] == r.eq[2]
  {
    var g, groupable, c := Dag(3, [Arc(0, 1), Arc(1, 2)]), [true, true, false], [0, 1, 2];
    TwoArcs();
    var k: nat := r.eq[0];
    var i :| 0 <= i < |r.groups[k]| && r.groups[k][i] == 0;
    assert Chain(g.arcs, c) && Chain(g.arcs, r.groups[k]) && Maximal(g, groupable, r.groups[k]);
    GroupFollowsChain(g, groupable, c, r.groups[k], i, 1);
    GroupFollowsChain(g, groupable, c, r.groups[k], i, 2);
  }

  // ---------------------------------------------------------------------------------------------
  // The pass

  /** After the vertices before position `i`: they are placed, and every group starts among them. */
  ghost predicate PlacedBefore(g: Dag, order: seq<nat>, pos: seq<nat>, r: Grouping, i: nat) {
    && Topological(g, order, pos) && Grouped(g, r)
    && (forall v :: 0 <= v < g.size && pos[v] < i ==> r.eq[v] != -1)
    && (forall k :: 0 <= k < |r.groups| ==> r.groups[k] != [] && r.groups[k][0] < g.size && pos[r.groups[k][0]] < i)
  }

  /** A vertex that follows an unplaced one in a chain is not placed either. */
  lemma SuccessorUnplaced(g: Dag, order: seq<nat>, pos: seq<nat>, r: Grouping, i: nat, u: nat, v: nat)
    requires PlacedBefore(g, order, pos, r, i) && u < g.size && r.eq[u] == -1 && pos[u] >= i && Linked(g.arcs, u, v)
    ensures v < g.size && r.eq[v] == -1 && pos[v] > pos[u]
  {
    assert Arc(u, v) in g.arcs;
    if r.eq[v] != -1 {
      var k := r.eq[v];
      var j :| 0 <= j < |r.groups[k]| && r.groups[k][j] == v;
      assert j > 0;
      assert Chain(g.arcs, r.groups[k]);
      assert Linked(g.arcs, r.groups[k][j - 1], r.groups[k][j - 1 + 1]);
      assert r.eq[r.groups[k][j - 1]] == k;
      OnlyInArc(g.arcs, Arc(u, v), Arc(r.groups[k][j - 1], v));
    }
  }

  /** The chain that starts at an unplaced vertex, with all its vertices unplaced. */
  ghost predicate FreshChain(g: Dag, pos: seq<nat>, r: Grouping, c: seq<nat>, v: nat) {
    && Chain(g.arcs, c) && c[0] == v && |r.eq| == |pos| == g.size
    && (forall j :: 0 <= j < |c| ==> c[j] < g.size && r.eq[c[j]] == -1)
    && (forall j, l :: 0 <= j < l < |c| ==> pos[c[j]] < pos[c[l]])
  }

  lemma FreshChainGrows(g: Dag, order: seq<nat>, pos: seq<nat>, r: Grouping, i: nat, c: seq<nat>, v: nat, next: nat)
    requires PlacedBefore(g, order, pos, r, i) && FreshChain(g, pos, r, c, v) && pos[v] >= i
    requires Linked(g.arcs, Last(c), next)
    ensures FreshChain(g, pos, r, c + [next], v) && pos[next] > pos[Last(c)]
  {
    var n := |c| - 1;
    assert pos[c[n]] >= pos[c[0]];
    SuccessorUnplaced(g, order, pos, r, i, c[n], next);
    var d := c + [next];
    forall j | 0 <= j < |d| - 1 ensures Linked(g.arcs, d[j], d[j + 1]) {
      if j < n { assert Linked(g.arcs, c[j], c[j + 1]); }
    }
    forall j, l | 0 <= j < l < |d| ensures pos[d[j]] < pos[d[l]] {
      if l == |c| && j < n { assert pos[c[j]] < pos[c[n]]; }
    }
  }

  /** Places the vertices of a chain in a new group. */
  ghost predicate ChainPlaced(r: Grouping, c: seq<nat>, r': Grouping) {
    && r'.groups == r.groups + [c] && |r'.eq| == |r.eq|
    && forall v :: 0 <= v < |r.eq| ==> r'.eq[v] == if v in c then |r.groups| else r.eq[v]
  }

  lemma PlacingKeeps(g: Dag, order: seq<nat>, pos: seq<nat>, r: Grouping, i: nat, c: seq<nat>, v: nat, r': Grouping)
    requires PlacedBefore(g, order, pos, r, i) && i < g.size && order[i] == v && FreshChain(g, pos, r, c, v)
    requires ChainPlaced(r, c, r')
    ensures PlacedBefore(g, order, pos, r', i + 1)
  {
    assert c[0] in c;
    forall k, j | 0 <= k < |r'.groups| && 0 <= j < |r'.groups[k]|
      ensures r'.groups[k][j] < g.size && r'.eq[r'.groups[k][j]] == k
    {
      if k < |r.groups| {
        assert r.eq[r.groups[k][j]] == k;
      } else {
        assert c[j] in c;
      }
    }
    forall w | 0 <= w < g.size && pos[w] < i + 1 ensures r'.eq[w] != -1 {
      if pos[w] == i { assert order[pos[w]] == w; }
    }
  }

  /** From `v` on: the last vertex that can join its group. Whether the first successor can be grouped decides for all
      that follow. */
  method FindChain(g: Dag, order: seq<nat>, pos: seq<nat>, ghost r: Grouping, ghost i: nat, v: nat,
      groupable: seq<bool>)
      returns (last: nat, ghost c: seq<nat>)
    requires PlacedBefore(g, order, pos, r, i) && v < g.size && pos[v] >= i && r.eq[v] == -1
    requires |groupable| == g.size && OutDegree(g.arcs, v) == 1 && groupable[v]
    ensures FreshChain(g, pos, r, c, v) && last == Last(c) && Maximal(g, groupable, c)
  {
    last := v;
    c := [v];
    var next := OnlySuccessor(g.arcs, last);
    assert Arc(last, next) in g.arcs;
    var mayGroup := groupable[next];
    while mayGroup && InDegree(g.arcs, next) == 1 && OutDegree(g.arcs, next) == 1
      invariant FreshChain(g, pos, r, c, v) && last == Last(c) && OutDegree(g.arcs, last) == 1
      invariant next == OnlySuccessor(g.arcs, last) && (!mayGroup ==> |c| == 1)
      decreases g.size - pos[last]
    {
      FreshChainGrows(g, order, pos, r, i, c, v, next);
      last := next;
      c := c + [next];
      next := OnlySuccessor(g.arcs, last);
    }
    if mayGroup && InDegree(g.arcs, next) == 1 {
      FreshChainGrows(g, order, pos, r, i, c, v, next);
      last := next;
      c := c + [next];
    }
  }

  ghost predicate PrefixPlaced(r: Grouping, eq: seq<int>, group: seq<nat>) {
    |eq| == |r.eq| && forall w :: 0 <= w < |eq| ==> eq[w] == if w in group then |r.groups| else r.eq[w]
  }

  lemma PrefixGrows(r: Grouping, eq: seq<int>, group: seq<nat>, u: nat)
    requires PrefixPlaced(r, eq, group) && u < |eq|
    ensures PrefixPlaced(r, eq[u := |r.groups|], group + [u])
  {
  }

  /** Following the only arcs from one vertex of the chain leads to the next. */
  lemma NextInChain(g: Dag, pos: seq<nat>, r: Grouping, c: seq<nat>, v: nat, j: nat)
    requires FreshChain(g, pos, r, c, v) && j < |c| && c[j] != Last(c)
    ensures j + 1 < |c| && OutDegree(g.arcs, c[j]) == 1 && OnlySuccessor(g.arcs, c[j]) == c[j + 1]
  {
    assert Linked(g.arcs, c[j], c[j + 1]);
    OnlyOutArc(g.arcs, Arc(c[j], c[j + 1]), Arc(c[j], OnlySuccessor(g.arcs, c[j])));
  }

  lemma LastIsLast(g: Dag, pos: seq<nat>, r: Grouping, c: seq<nat>, v: nat, j: nat)
    requires FreshChain(g, pos, r, c, v) && j < |c| && c[j] == Last(c)
    ensures j == |c| - 1
  {
    var n := |c| - 1;
    forall k | 0 <= k < n ensures pos[c[k]] < pos[c[n]] {}
  }

  /** Puts the vertices from `v` to `last` in a new group, in the order of the chain. */
  method PlaceChain(g: Dag, ghost pos: seq<nat>, r: Grouping, v: nat, last: nat, ghost c: seq<nat>)
      returns (r': Grouping)
    requires FreshChain(g, pos, r, c, v) && last == Last(c)
    ensures ChainPlaced(r, c, r')
  {
    var group: seq<nat>, eq, u := [], r.eq, v;
    ghost var j := 0;
    while u != last
      invariant j < |c| && group == c[..j] && u == c[j] && PrefixPlaced(r, eq, group)
      decreases |c| - j
    {
      NextInChain(g, pos, r, c, v, j);
      PrefixGrows(r, eq, group, u);
      eq := eq[u := |r.groups|];
      group := group + [u];
      u := OnlySuccessor(g.arcs, u);
      j := j + 1;
    }
    LastIsLast(g, pos, r, c, v, j);
    PrefixGrows(r, eq, group, u);
    eq := eq[u := |r.groups|];
    group := group + [u];
    assert group == c;
    r' := Grouping(r.groups + [group], eq);
  }

  /** The whole pass, in topological order. */
  method GraphTransformSequential(g: Dag, order: seq<nat>, pos: seq<nat>, groupable: seq<bool>)
      returns (r: Grouping, arcs: seq<Arc>)
    requires Topological(g, order, pos) && |groupable| == g.size
    ensures Tuned(g, order, pos, r) && AllMaximal(g, groupable, r.groups)
    ensures (ArcsPlaced(g, order, pos, r); arcs == NewArcs(g.arcs, r.eq))
  {
    r := Grouping([], seq(g.size, v => -1));
    var i := 0;
    while i < g.size
      invariant i <= g.size && PlacedBefore(g, order, pos, r, i) && AllMaximal(g, groupable, r.groups)
    {
      var v := order[i];
      if r.eq[v] == -1 {
        ghost var before := r;
        ghost var c := [v];
        if OutDegree(g.arcs, v) != 1 || !groupable[v] {
          r := Grouping(r.groups + [[v]], r.eq[v := |r.groups|]);
        } else {
          var last;
          last, c := FindChain(g, order, pos, r, i, v, groupable);
          r := PlaceChain(g, pos, r, v, last, c);
        }
        PlacingKeeps(g, order, pos, before, i, c, v, r);
      } else {
        AlreadyPlaced(g, order, pos, r, i);
      }
      i := i + 1;
    }
    ArcsPlaced(g, order, pos, r);
    arcs := CopyArcs(g.arcs, r.eq);
  }

  lemma AlreadyPlaced(g: Dag, order: seq<nat>, pos: seq<nat>, r: Grouping, i: nat)
    requires PlacedBefore(g, order, pos, r, i) && i < g.size && r.eq[order[i]] != -1
    ensures PlacedBefore(g, order, pos, r, i + 1)
  {
    forall w | 0 <= w < g.size && pos[w] < i + 1 ensures r.eq[w] != -1 {
      if pos[w] == i { assert order[pos[w]] == w; }
    }
  }
}
