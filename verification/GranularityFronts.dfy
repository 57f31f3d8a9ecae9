/** Granularity tuning by fronts: the vertices whose dependencies are met at the same time are merged in groups. */
module GranularityFronts {
  import opened TaskDag
  import opened GranularitySizes

  // ---------------------------------------------------------------------------------------------
  // What a front grouping keeps

  /** The groups hold exactly the vertices that went there; `level[v]` is -1 for a vertex that has not been reached, and
      the members of a group are on the same level. */
  ghost predicate Placed(g: Dag, r: Grouping, level: seq<int>) {
    && |r.eq| == |level| == g.size
    && (forall k, i :: 0 <= k < |r.groups| && 0 <= i < |r.groups[k]| ==>
          r.groups[k][i] < g.size && r.eq[r.groups[k][i]] == k)
    && (forall v :: 0 <= v < g.size && r.eq[v] != -1 ==> 0 <= r.eq[v] < |r.groups| && v in r.groups[r.eq[v]])
    && (forall k, i :: 0 <= k < |r.groups| && 0 <= i < |r.groups[k]| ==> level[r.groups[k][i]] == level[r.groups[k][0]])
  }

  /** Levels grow along the arcs that have been reached. */
  ghost predicate Leveled(g: Dag, level: seq<int>) {
    && |level| == g.size && (forall a :: a in g.arcs ==> a.from < g.size && a.to < g.size)
    && (forall a :: a in g.arcs && level[a.to] != -1 ==> 0 <= level[a.from] < level[a.to])
  }

  /** The result of the whole pass. */
  ghost predicate Fronts(g: Dag, r: Grouping, level: seq<int>) {
    && Placed(g, r, level) && Leveled(g, level)
    && (forall v :: 0 <= v < g.size ==> r.eq[v] != -1 && level[v] != -1)
  }

  lemma ArcsPlaced(g: Dag, r: Grouping, level: seq<int>)
    requires Fronts(g, r, level)
    ensures forall a :: a in g.arcs ==> a.from < |r.eq| && a.to < |r.eq| && r.eq[a.from] >= 0 && r.eq[a.to] >= 0
  {
  }

  function LevelOf(level: seq<int>, v: nat): int {
    if v < |level| then level[v] else 0
  }

  function GroupLevel(r: Grouping, level: seq<int>, k: nat): int {
    if k < |r.groups| && r.groups[k] != [] then LevelOf(level, r.groups[k][0]) else 0
  }

  lemma LevelOfGroup(g: Dag, r: Grouping, level: seq<int>, v: nat)
    requires Fronts(g, r, level) && v < g.size
    ensures r.eq[v] >= 0 && GroupLevel(r, level, r.eq[v]) == level[v]
  {
    var k := r.eq[v];
    var i :| 0 <= i < |r.groups[k]| && r.groups[k][i] == v;
  }

  lemma NewArcsClimb(g: Dag, r: Grouping, level: seq<int>)
    requires Fronts(g, r, level)
    ensures (ArcsPlaced(g, r, level); Ranked(NewArcs(g.arcs, r.eq), (k: nat) => GroupLevel(r, level, k)))
    ensures (ArcsPlaced(g, r, level); forall a :: a in g.arcs ==>
            r.eq[a.from] != r.eq[a.to] && Arc(r.eq[a.from], r.eq[a.to]) in NewArcs(g.arcs, r.eq))
  {
    ArcsPlaced(g, r, level);
    forall x | x in NewArcs(g.arcs, r.eq) ensures GroupLevel(r, level, x.from) < GroupLevel(r, level, x.to) {
      NewArcOf(g.arcs, r.eq, x);
      var a :| a in g.arcs && r.eq[a.from] == x.from && r.eq[a.to] == x.to;
      LevelOfGroup(g, r, level, a.from);
      LevelOfGroup(g, r, level, a.to);
    }
    forall a | a in g.arcs
      ensures r.eq[a.from] != r.eq[a.to] && Arc(r.eq[a.from], r.eq[a.to]) in NewArcs(g.arcs, r.eq)
    {
      LevelOfGroup(g, r, level, a.from);
      LevelOfGroup(g, r, level, a.to);
      NewArcOf(g.arcs, r.eq, Arc(r.eq[a.from], r.eq[a.to]));
    }
  }

  lemma {:induction false} PathIsKept(g: Dag, r: Grouping, level: seq<int>, p: seq<nat>)
    requires Fronts(g, r, level) && |p| >= 2 && Path(g.arcs, p)
    ensures p[0] < g.size && p[|p| - 1] < g.size
    ensures (ArcsPlaced(g, r, level); r.eq[p[0]] >= 0 && r.eq[p[|p| - 1]] >= 0
            && Reaches(NewArcs(g.arcs, r.eq), r.eq[p[0]], r.eq[p[|p| - 1]]))
    decreases |p|
  {
    ArcsPlaced(g, r, level);
    NewArcsClimb(g, r, level);
    TailPath(g.arcs, p);
    OneArc(NewArcs(g.arcs, r.eq), r.eq[Arc(p[0], p[1]).from], r.eq[Arc(p[0], p[1]).to]);
    if |p| > 2 {
      PathIsKept(g, r, level, p[1..]);
      Compose(NewArcs(g.arcs, r.eq), r.eq[p[0]], r.eq[p[1]], r.eq[p[|p| - 1]]);
    }
  }

  ghost predicate AllPlaced(g: Dag, r: Grouping) {
    forall a :: a in g.arcs ==> a.from < |r.eq| && a.to < |r.eq| && r.eq[a.from] >= 0 && r.eq[a.to] >= 0
  }

  /** Every vertex is in exactly one group, and there are levels that grow along arcs and are equal within a group. */
  ghost predicate FrontGrouping(g: Dag, r: Grouping) {
    AllPlaced(g, r) && exists level: seq<int> :: Fronts(g, r, level)
  }

  /** Merged vertices do not depend on each other. */
  lemma GroupsAreIndependent(g: Dag, r: Grouping, u: nat, v: nat)
    requires FrontGrouping(g, r) && u < g.size && v < g.size
    ensures u < |r.eq| && v < |r.eq| && (r.eq[u] == r.eq[v] ==> !Reaches(g.arcs, u, v))
  {
    var level: seq<int> :| Fronts(g, r, level);
    if r.eq[u] == r.eq[v] && Reaches(g.arcs, u, v) {
      LevelOfGroup(g, r, level, u);
      LevelOfGroup(g, r, level, v);
      RankedIsAcyclic(g.arcs, (x: nat) => LevelOf(level, x), u, v);
    }
  }

  /** No dependency is lost. */
  lemma FrontsKeepOrder(g: Dag, r: Grouping, u: nat, v: nat)
    requires FrontGrouping(g, r) && u < g.size && v < g.size && Reaches(g.arcs, u, v)
    ensures |r.eq| == g.size && r.eq[u] >= 0 && r.eq[v] >= 0 && Reaches(NewArcs(g.arcs, r.eq), r.eq[u], r.eq[v])
  {
    var level: seq<int> :| Fronts(g, r, level);
    var p: seq<nat> :| |p| >= 2 && PathFrom(g.arcs, p, u, v);
    PathIsKept(g, r, level, p);
  }

  /** The new graph is acyclic. */
  lemma NewGraphIsAcyclic(g: Dag, r: Grouping, k: nat, l: nat)
    requires FrontGrouping(g, r) && Reaches(NewArcs(g.arcs, r.eq), k, l)
    ensures k != l
  {
    var level: seq<int> :| Fronts(g, r, level);
    NewArcsClimb(g, r, level);
    RankedIsAcyclic(NewArcs(g.arcs, r.eq), (x: nat) => GroupLevel(r, level, x), k, l);
  }

  // ---------------------------------------------------------------------------------------------
  // Counting outstanding dependencies

  /** The arcs into `w`, among the first `n`, that are not yet met: those from vertices not done, except the first `m`
      arcs if they come from `v`. */
  function Outstanding(arcs: seq<Arc>, n: nat, done: set<nat>, v: nat, m: nat, w: nat): nat
    requires n <= |arcs|
  {
    if n == 0 then 0
    else
      var a := arcs[n - 1];
      Outstanding(arcs, n - 1, done, v, m, w) + if a.to == w && a.from !in done && !(a.from == v && n - 1 < m) then 1
          else 0
  }

  lemma {:induction false} OutstandingStep(arcs: seq<Arc>, n: nat, done: set<nat>, v: nat, m: nat, w: nat)
    requires n <= |arcs| && m < |arcs| && v !in done
    ensures Outstanding(arcs, n, done, v, m + 1, w)
            == Outstanding(arcs, n, done, v, m, w) - (if m < n && arcs[m].from == v && arcs[m].to == w then 1 else 0)
  {
    if n > 0 { OutstandingStep(arcs, n - 1, done, v, m, w); }
  }

  lemma {:induction false} OutstandingDone(arcs: seq<Arc>, n: nat, done: set<nat>, v: nat, m: nat, u: nat, w: nat)
    requires n <= |arcs| && n <= m
    ensures Outstanding(arcs, n, done, v, m, w) == Outstanding(arcs, n, done + {v}, u, 0, w)
  {
    if n > 0 { OutstandingDone(arcs, n - 1, done, v, m, u, w); }
  }

  lemma {:induction false} OutstandingStart(arcs: seq<Arc>, n: nat, done: set<nat>, u: nat, v: nat, w: nat)
    requires n <= |arcs|
    ensures Outstanding(arcs, n, done, u, 0, w) == Outstanding(arcs, n, done, v, 0, w)
  {
    if n > 0 { OutstandingStart(arcs, n - 1, done, u, v, w); }
  }

  lemma {:induction false} OutstandingNone(arcs: seq<Arc>, n: nat, done: set<nat>, v: nat, m: nat, w: nat, i: nat)
    requires i < n <= |arcs| && Outstanding(arcs, n, done, v, m, w) == 0 && arcs[i].to == w
    ensures arcs[i].from in done || (arcs[i].from == v && i < m)
  {
    if i < n - 1 { OutstandingNone(arcs, n - 1, done, v, m, w, i); }
  }

  lemma {:induction false} OutstandingAll(arcs: seq<Arc>, n: nat, w: nat)
    requires n <= |arcs|
    ensures Outstanding(arcs, n, {}, 0, 0, w) == InDegree(arcs[..n], w)
  {
    if n > 0 {
      assert arcs[..n][..n - 1] == arcs[..n - 1];
      OutstandingAll(arcs, n - 1, w);
    }
  }

  lemma {:induction false} NothingOutstanding(arcs: seq<Arc>, n: nat, done: set<nat>, w: nat)
    requires n <= |arcs| && forall a :: a in arcs && a.to == w ==> a.from in done
    ensures Outstanding(arcs, n, done, 0, 0, w) == 0
  {
    if n > 0 {
      assert arcs[n - 1] in arcs;
      NothingOutstanding(arcs, n - 1, done, w);
    }
  }

  lemma {:induction false} ArcIsCounted(arcs: seq<Arc>, n: nat, done: set<nat>, v: nat, m: nat)
    requires m < n <= |arcs| && arcs[m].from == v && v !in done
    ensures Outstanding(arcs, n, done, v, m, arcs[m].to) > 0
  {
    if m < n - 1 { ArcIsCounted(arcs, n - 1, done, v, m); }
  }

  // ---------------------------------------------------------------------------------------------
  // The state of the pass

  /** `done` vertices have been placed and have released their successors; `v` is at work and has met its first `m`
      arcs. */
  ghost predicate Counts(g: Dag, done: set<nat>, out: seq<int>, v: nat, m: nat) {
    |out| == g.size && forall w: nat :: w < g.size ==> out[w] == Outstanding(g.arcs, |g.arcs|, done, v, m, w)
  }

  /** The queue holds exactly the vertices that wait for nothing and whose turn has not come, once each. */
  ghost predicate Queued(g: Dag, done: set<nat>, busy: set<nat>, out: seq<int>, queue: seq<nat>) {
    && |out| == g.size
    && (forall w: nat :: w in queue <==> w < g.size && w !in done && w !in busy && out[w] == 0)
    && (forall i, j :: 0 <= i < j < |queue| ==> queue[i] != queue[j])
  }

  /** `ready` is the rest of the front at level `top`, `freed` the next one. */
  ghost predicate Levels(g: Dag, done: set<nat>, busy: set<nat>, ready: seq<nat>, freed: seq<nat>, level: seq<int>,
      top: nat) {
    && Leveled(g, level)
    && (forall w: nat :: w in done || w in busy || w in ready || w in freed ==> w < g.size)
    && (forall w: nat :: w < g.size && level[w] != -1 ==> w in done || w in busy || w in ready || w in freed)
    && (forall w: nat :: w in done ==> 0 <= level[w] <= top)
    && (forall w: nat :: w in ready || w in busy ==> level[w] == top)
    && (forall w: nat :: w in freed ==> level[w] == top + 1)
  }

  ghost predicate FrontOk(g: Dag, done: set<nat>, busy: set<nat>, out: seq<int>, ready: seq<nat>, freed: seq<nat>,
      level: seq<int>, top: nat, v: nat, m: nat)
  {
    Counts(g, done, out, v, m) && Queued(g, done, busy, out, ready + freed)
      && Levels(g, done, busy, ready, freed, level, top)
  }

  /** Levels already given stay. */
  ghost predicate LevelsKept(level: seq<int>, level': seq<int>) {
    |level'| == |level| && forall w :: 0 <= w < |level| && level[w] != -1 ==> level'[w] == level[w]
  }

  lemma CountsMet(g: Dag, done: set<nat>, out: seq<int>, v: nat, m: nat)
    requires Counts(g, done, out, v, m) && m < |g.arcs| && v !in done && g.arcs[m].to < g.size
    ensures if g.arcs[m].from == v then Counts(g, done, out[g.arcs[m].to := out[g.arcs[m].to] - 1], v, m + 1)
            else Counts(g, done, out, v, m + 1)
  {
    forall w: nat | w < g.size
      ensures Outstanding(g.arcs, |g.arcs|, done, v, m + 1, w)
              == out[w] - (if g.arcs[m].from == v && g.arcs[m].to == w then 1 else 0)
    {
      OutstandingStep(g.arcs, |g.arcs|, done, v, m, w);
    }
  }

  lemma QueueGrows(g: Dag, done: set<nat>, busy: set<nat>, out: seq<int>, queue: seq<nat>, w: nat)
    requires Queued(g, done, busy, out, queue) && w < g.size && out[w] > 0 && w !in done && w !in busy
    ensures if out[w] == 1 then Queued(g, done, busy, out[w := out[w] - 1], queue + [w])
            else Queued(g, done, busy, out[w := out[w] - 1], queue)
  {
    assert w !in queue;
  }

  lemma LevelGiven(g: Dag, done: set<nat>, ready: seq<nat>, freed: seq<nat>, level: seq<int>, top: nat, v: nat, w: nat)
    requires Levels(g, done, {v}, ready, freed, level, top) && w < g.size && level[w] == -1
    requires forall a :: a in g.arcs && a.to == w ==> a.from in done || a.from == v
    ensures Levels(g, done, {v}, ready, freed + [w], level[w := top + 1], top)
  {
    var level' := level[w := top + 1];
    forall a | a in g.arcs && level'[a.to] != -1 ensures 0 <= level'[a.from] < level'[a.to] {
      if a.to != w { assert 0 <= level[a.from]; }
    }
  }

  /** The successor along an arc of the vertex at work has not been reached. */
  lemma TargetUnreached(g: Dag, order: seq<nat>, pos: seq<nat>, done: set<nat>, out: seq<int>, ready: seq<nat>,
      freed: seq<nat>,
      level: seq<int>, top: nat, v: nat, m: nat)
    requires Topological(g, order, pos) && FrontOk(g, done, {v}, out, ready, freed, level, top, v, m)
    requires m < |g.arcs| && g.arcs[m].from == v && v !in done
    ensures var w := g.arcs[m].to; w < g.size && out[w] > 0 && level[w] == -1 && w !in done && w != v
  {
    var w := g.arcs[m].to;
    assert g.arcs[m] in g.arcs && pos[v] < pos[w];
    ArcIsCounted(g.arcs, |g.arcs|, done, v, m);
    assert w !in ready + freed;
  }

  /** Meeting an arc of the vertex at work; the successor goes to the next front if it waits for nothing else. */
  lemma ArcMet(g: Dag, order: seq<nat>, pos: seq<nat>, done: set<nat>, out: seq<int>, ready: seq<nat>, freed: seq<nat>,
      level: seq<int>, top: nat, v: nat, m: nat)
    requires Topological(g, order, pos) && FrontOk(g, done, {v}, out, ready, freed, level, top, v, m)
    requires m < |g.arcs| && g.arcs[m].from == v && v !in done
    ensures var w := g.arcs[m].to;
            && w < g.size == |out| == |level| && out[w] > 0 && level[w] == -1
            && if out[w] == 1 then FrontOk(g, done, {v}, out[w := out[w] - 1], ready, freed + [w], level[w := top + 1],
               top, v, m + 1)
               else FrontOk(g, done, {v}, out[w := out[w] - 1], ready, freed, level, top, v, m + 1)
  {
    var w := g.arcs[m].to;
    TargetUnreached(g, order, pos, done, out, ready, freed, level, top, v, m);
    CountsMet(g, done, out, v, m);
    QueueGrows(g, done, {v}, out, ready + freed, w);
    if out[w] == 1 {
      assert (ready + freed) + [w] == ready + (freed + [w]);
      forall a | a in g.arcs && a.to == w ensures a.from in done || a.from == v {
        var i :| 0 <= i < |g.arcs| && g.arcs[i] == a;
        OutstandingNone(g.arcs, |g.arcs|, done, v, m + 1, w, i);
      }
      LevelGiven(g, done, ready, freed, level, top, v, w);
    }
  }

  lemma ArcOfOther(g: Dag, done: set<nat>, out: seq<int>, ready: seq<nat>, freed: seq<nat>, level: seq<int>, top: nat,
      v: nat, m: nat)
    requires FrontOk(g, done, {v}, out, ready, freed, level, top, v, m) && m < |g.arcs| && g.arcs[m].from != v
    requires v !in done
    ensures FrontOk(g, done, {v}, out, ready, freed, level, top, v, m + 1)
  {
    assert g.arcs[m] in g.arcs;
    CountsMet(g, done, out, v, m);
  }

  /** The turn of the first vertex of the front begins. */
  lemma TurnBegins(g: Dag, done: set<nat>, out: seq<int>, ready: seq<nat>, freed: seq<nat>, level: seq<int>, top: nat)
    requires FrontOk(g, done, {}, out, ready, freed, level, top, 0, 0) && ready != []
    ensures ready[0] !in done && ready[0] < g.size
    ensures FrontOk(g, done, {ready[0]}, out, ready[1..], freed, level, top, ready[0], 0)
  {
    var v, queue := ready[0], ready + freed;
    assert v in ready;
    assert queue[0] == v && queue[1..] == ready[1..] + freed;
    assert v in queue;
    forall w: nat ensures w in queue[1..] <==> w in queue && w != v {
      if w in queue && w != v {
        var i :| 0 <= i < |queue| && queue[i] == w;
        assert queue[1..][i - 1] == w;
      }
    }
    forall w: nat | w < g.size ensures out[w] == Outstanding(g.arcs, |g.arcs|, done, v, 0, w) {
      OutstandingStart(g.arcs, |g.arcs|, done, 0, v, w);
    }
    forall w: nat | w in ready[1..] ensures w in ready {
      var i :| 0 <= i < |ready| - 1 && ready[1..][i] == w;
      assert ready[i + 1] == w;
    }
    forall w: nat | w in ready ensures w in ready[1..] || w == v {
      var i :| 0 <= i < |ready| && ready[i] == w;
      if i > 0 { assert ready[1..][i - 1] == w; }
    }
  }

  /** It ends when all arcs are met. */
  lemma TurnEnds(g: Dag, done: set<nat>, out: seq<int>, ready: seq<nat>, freed: seq<nat>, level: seq<int>, top: nat,
      v: nat)
    requires FrontOk(g, done, {v}, out, ready, freed, level, top, v, |g.arcs|)
    ensures FrontOk(g, done + {v}, {}, out, ready, freed, level, top, 0, 0)
  {
    forall w: nat | w < g.size ensures out[w] == Outstanding(g.arcs, |g.arcs|, done + {v}, 0, 0, w) {
      OutstandingDone(g.arcs, |g.arcs|, done, v, |g.arcs|, 0, w);
    }
  }

  lemma FrontEnds(g: Dag, done: set<nat>, out: seq<int>, freed: seq<nat>, level: seq<int>, top: nat)
    requires FrontOk(g, done, {}, out, [], freed, level, top, 0, 0)
    ensures FrontOk(g, done, {}, out, freed, [], level, top + 1, 0, 0)
  {
    assert [] + freed == freed + [];
  }

  /** When no vertex is ready, all are done. */
  lemma {:induction false} NobodyLeft(g: Dag, order: seq<nat>, pos: seq<nat>, done: set<nat>, out: seq<int>,
      level: seq<int>, top: nat, v: nat)
    requires Topological(g, order, pos) && FrontOk(g, done, {}, out, [], [], level, top, 0, 0) && v < g.size
    ensures v in done
    decreases pos[v]
  {
    forall a | a in g.arcs && a.to == v ensures a.from in done {
      NobodyLeft(g, order, pos, done, out, level, top, a.from);
    }
    NothingOutstanding(g.arcs, |g.arcs|, done, v);
    assert v !in [] + [];
  }

  // ---------------------------------------------------------------------------------------------
  // Placing vertices

  /** The vertex becomes a group of its own, or joins group `k`. */
  function Alone(r: Grouping, v: nat): Grouping
    requires v < |r.eq|
  {
    Grouping(r.groups + [[v]], r.eq[v := |r.groups|])
  }

  function Joined(r: Grouping, k: nat, v: nat): Grouping
    requires v < |r.eq| && k < |r.groups|
  {
    Grouping(r.groups[k := r.groups[k] + [v]], r.eq[v := k])
  }

  lemma AlonePlaced(g: Dag, r: Grouping, level: seq<int>, v: nat)
    requires Placed(g, r, level) && v < g.size && r.eq[v] == -1
    ensures Placed(g, Alone(r, v), level)
  {
    var r' := Alone(r, v);
    forall w | 0 <= w < g.size && r'.eq[w] != -1 ensures 0 <= r'.eq[w] < |r'.groups| && w in r'.groups[r'.eq[w]] {
      if w == v { assert r'.groups[|r.groups|][0] == v; }
    }
  }

  lemma JoinedPlaced(g: Dag, r: Grouping, level: seq<int>, k: nat, v: nat)
    requires Placed(g, r, level) && v < g.size && r.eq[v] == -1 && k < |r.groups|
    requires r.groups[k] != [] ==> level[r.groups[k][0]] == level[v]
    ensures Placed(g, Joined(r, k, v), level)
  {
    var r' := Joined(r, k, v);
    forall w | 0 <= w < g.size && r'.eq[w] != -1 ensures 0 <= r'.eq[w] < |r'.groups| && w in r'.groups[r'.eq[w]] {
      if w == v {
        assert r'.groups[k][|r.groups[k]|] == v;
      } else if r.eq[w] == k {
        var i :| 0 <= i < |r.groups[k]| && r.groups[k][i] == w;
        assert r'.groups[k][i] == w;
      }
    }
  }

  lemma PlacedStays(g: Dag, r: Grouping, level: seq<int>, level': seq<int>)
    requires Placed(g, r, level) && LevelsKept(level, level') && forall w :: 0 <= w < g.size && r.eq[w] != -1 ==>
             level[w] != -1
    ensures Placed(g, r, level')
  {
    forall k, i | 0 <= k < |r.groups| && 0 <= i < |r.groups[k]|
      ensures level'[r.groups[k][i]] == level'[r.groups[k][0]]
    {
      assert r.eq[r.groups[k][i]] == k && r.eq[r.groups[k][0]] == k;
    }
  }

  /** A vertex that must not be grouped, such as a control task, has its group to itself. */
  ghost predicate LonersAlone(r: Grouping, groupable: seq<bool>) {
    |r.eq| == |groupable| && forall v: nat :: v < |groupable| && !groupable[v] && 0 <= r.eq[v] < |r.groups| ==>
        r.groups[r.eq[v]] == [v]
  }

  lemma AloneKeepsLoners(g: Dag, r: Grouping, level: seq<int>, groupable: seq<bool>, v: nat)
    requires Placed(g, r, level) && LonersAlone(r, groupable) && v < g.size
    ensures LonersAlone(Alone(r, v), groupable)
  {
  }

  lemma JoinedKeepsLoners(g: Dag, r: Grouping, level: seq<int>, groupable: seq<bool>, k: nat, v: nat)
    requires Placed(g, r, level) && LonersAlone(r, groupable) && v < g.size && groupable[v]
    requires k < |r.groups| && r.groups[k] != [] && r.groups[k][0] < |groupable| && groupable[r.groups[k][0]]
    ensures LonersAlone(Joined(r, k, v), groupable)
  {
    var r' := Joined(r, k, v);
    forall w: nat | w < |groupable| && !groupable[w] && 0 <= r'.eq[w] < |r'.groups| ensures r'.groups[r'.eq[w]] == [w] {
      assert r.groups[r.eq[w]] == [w];
    }
  }

  /** Exactly the vertices that are done, or whose turn it is, have been placed. */
  ghost predicate PlacedAre(g: Dag, r: Grouping, done: set<nat>) {
    |r.eq| == g.size && forall w: nat :: w < g.size ==> (r.eq[w] != -1 <==> w in done)
  }

  // ---------------------------------------------------------------------------------------------
  // The pass

  function TimeOf(elapsed: nat): nat { if elapsed > 1 then elapsed else 1 }

  /** The vertex whose turn it is, at position `q` of the front, has freed what `freed'` holds beyond `freed`. */
  ghost predicate FreedHere(arcs: seq<Arc>, front: seq<nat>, q: nat, elapsed: seq<nat>, freed: seq<nat>,
      freed': seq<nat>, time: nat)
  {
    && |freed| <= |freed'| && freed'[..|freed|] == freed
    && (forall i :: |freed| <= i < |freed'| ==> LastIn(arcs, front, freed'[i]) == q)
    && MetTime(arcs, elapsed, front, freed') == MetTime(arcs, elapsed, front, freed) + time
  }

  lemma FreesOneMore(arcs: seq<Arc>, front: seq<nat>, q: nat, elapsed: seq<nat>, freed: seq<nat>, freed': seq<nat>,
      time: nat, w: nat)
    requires FreedHere(arcs, front, q, elapsed, freed, freed', time) && q < |front| && LastIn(arcs, front, w) == q
    ensures FreedHere(arcs, front, q, elapsed, freed, freed' + [w], time + Cost(elapsed, front[q]))
  {
    assert (freed' + [w])[..|freed'|] == freed';
    assert (freed' + [w])[..|freed|] == freed'[..|freed|];
  }

  /** The arc meets the last dependency of its target, so nobody later in the front has an arc to it. */
  lemma MeetsLast(g: Dag, done: set<nat>, out: seq<int>, front: seq<nat>, q: nat, freed: seq<nat>, level: seq<int>,
      top: nat, m: nat)
    requires q < |front| && front[q] !in done && m < |g.arcs| && g.arcs[m].from == front[q]
    requires FrontOk(g, done, {front[q]}, out, front[q + 1..], freed, level, top, front[q], m)
    requires g.arcs[m].to < g.size && out[g.arcs[m].to] == 1
    ensures LastIn(g.arcs, front, g.arcs[m].to) == q
  {
    var v, w := front[q], g.arcs[m].to;
    CountsMet(g, done, out, v, m);
    forall i | q < i < |front| ensures Arc(front[i], w) !in g.arcs {
      assert front[i] == front[q + 1..][i - q - 1] && front[i] in front[q + 1..] + freed;
      if Arc(front[i], w) in g.arcs {
        var n :| 0 <= n < |g.arcs| && g.arcs[n] == Arc(front[i], w);
        OutstandingNone(g.arcs, |g.arcs|, done, v, m + 1, w, n);
      }
    }
    LastInIs(g.arcs, front, w, q);
  }

  /** Meets all arcs out of the vertex whose turn it is: the successors that wait for nothing else are freed. */
  method ReleaseSuccessors(g: Dag, ghost order: seq<nat>, ghost pos: seq<nat>, ghost done: set<nat>, out: seq<int>,
      ghost front: seq<nat>, ghost q: nat, freed: seq<nat>, ghost level: seq<int>, ghost top: nat, v: nat,
      elapsed: seq<nat>)
      returns (out': seq<int>, freed': seq<nat>, ghost level': seq<int>, time: nat)
    requires Topological(g, order, pos) && q < |front| && front[q] == v < |elapsed| && v !in done
    requires FrontOk(g, done, {v}, out, front[q + 1..], freed, level, top, v, 0)
    ensures FrontOk(g, done + {v}, {}, out', front[q + 1..], freed', level', top, 0, 0) && LevelsKept(level, level')
    ensures FreedHere(g.arcs, front, q, elapsed, freed, freed', time)
  {
    hide FrontOk, FreedHere, MetTime, LastIn, Topological;
    ghost var ready := front[q + 1..];
    out', freed', level', time := out, freed, level, 0;
    FreesNothing(g.arcs, front, q, elapsed, freed);
    for m := 0 to |g.arcs|
      invariant FrontOk(g, done, {v}, out', ready, freed', level', top, v, m) && LevelsKept(level, level')
      invariant FreedHere(g.arcs, front, q, elapsed, freed, freed', time)
    {
      if g.arcs[m].from == v {
        ArcMet(g, order, pos, done, out', ready, freed', level', top, v, m);
        var w := g.arcs[m].to;
        if out'[w] == 1 {
          MeetsLast(g, done, out', front, q, freed', level', top, m);
          FreesOneMore(g.arcs, front, q, elapsed, freed, freed', time, w);
        }
        out' := out'[w := out'[w] - 1];
        if out'[w] == 0 {
          time := time + TimeOf(elapsed[v]);
          freed' := freed' + [w];
          level' := level'[w := top + 1];
        }
      } else {
        ArcOfOther(g, done, out', ready, freed', level', top, v, m);
      }
    }
    TurnEnds(g, done, out', ready, freed', level', top, v);
  }

  lemma FreesNothing(arcs: seq<Arc>, front: seq<nat>, q: nat, elapsed: seq<nat>, freed: seq<nat>)
    ensures FreedHere(arcs, front, q, elapsed, freed, freed, 0)
  {
  }

  // Filling groups

  /** The vertices of the front that may be grouped and have been placed, and their groups, in order; the front started
      with `base` groups. */
  datatype Filling = Filling(members: seq<nat>, groups: seq<nat>, base: nat)

  /** Position `i` of a list that is divided into groups of the given size: the number of its group, and its place
      there. */
  function GroupNumber(i: nat, size: nat): nat
    requires size >= 1
  {
    if i < size then 0 else 1 + GroupNumber(i - size, size)
  }

  function PlaceInGroup(i: nat, size: nat): (k: nat)
    requires size >= 1
    ensures k < size
  {
    if i < size then i else PlaceInGroup(i - size, size)
  }

  lemma {:induction false} NextPosition(i: nat, size: nat)
    requires size >= 1
    ensures if PlaceInGroup(i, size) + 1 < size
            then GroupNumber(i + 1, size) == GroupNumber(i, size)
              && PlaceInGroup(i + 1, size) == PlaceInGroup(i, size) + 1
            else GroupNumber(i + 1, size) == GroupNumber(i, size) + 1 && PlaceInGroup(i + 1, size) == 0
  {
    if i >= size { NextPosition(i - size, size); }
  }

  lemma {:induction false} NumberIsQuotient(i: nat, size: nat)
    requires size >= 1
    ensures i == GroupNumber(i, size) * size + PlaceInGroup(i, size)
    ensures GroupNumber(i, size) == i / size
  {
    NumberSplits(i, size);
    QuotientIs(i, GroupNumber(i, size), PlaceInGroup(i, size), size);
  }

  lemma {:induction false} NumberSplits(i: nat, size: nat)
    requires size >= 1
    ensures i == GroupNumber(i, size) * size + PlaceInGroup(i, size)
  {
    if i >= size {
      NumberSplits(i - size, size);
      var n := GroupNumber(i - size, size);
      assert (1 + n) * size == size + n * size;
    }
  }

  lemma QuotientIs(i: nat, q: nat, r: nat, size: nat)
    requires size >= 1 && r < size && i == q * size + r
    ensures i / size == q
  {
    var d: int, s: int := i / size - q, size;
    assert d * s == (i / size) * s - q * s;
    assert d * s == r - i % size;
    assert d > 0 ==> d * s >= s;
    assert d < 0 ==> d * s <= -s;
  }

  predicate MemberAt(r: Grouping, c: Filling, size: nat, i: nat)
    requires size >= 1 && i < |c.members|
  {
    && c.members[i] < |r.eq| && GroupNumber(i, size) < |c.groups|
    && r.eq[c.members[i]] == c.groups[GroupNumber(i, size)]
  }

  /** All groups are full, except that the last one has so many spots left. */
  ghost predicate Filled(r: Grouping, c: Filling, size: nat, group: nat, spots: nat) {
    && size >= 1 && c.base <= |r.groups|
    && PlaceInGroup(|c.members|, size) == (if spots == 0 then 0 else size - spots) && spots < size
    && |c.groups| == GroupNumber(|c.members|, size) + (if spots == 0 then 0 else 1)
    && (forall i :: 0 <= i < |c.members| ==> MemberAt(r, c, size, i))
    && (forall i, j :: 0 <= i < j < |c.groups| ==> c.groups[i] != c.groups[j])
    && (forall i :: 0 <= i < |c.groups| ==> c.base <= c.groups[i] < |r.groups|)
    && (spots > 0 ==> c.groups[|c.groups| - 1] == group)
  }

  lemma FilledAlone(r: Grouping, c: Filling, size: nat, group: nat, spots: nat, v: nat)
    requires Filled(r, c, size, group, spots) && v < |r.eq| && r.eq[v] == -1
    ensures Filled(Alone(r, v), c, size, group, spots)
  {
    hide GroupNumber, PlaceInGroup;
    forall i | 0 <= i < |c.members| ensures MemberAt(Alone(r, v), c, size, i) { assert MemberAt(r, c, size, i); }
  }

  function WithGroup(c: Filling, v: nat, k: nat): Filling {
    Filling(c.members + [v], c.groups + [k], c.base)
  }

  lemma FilledNew(r: Grouping, c: Filling, size: nat, group: nat, v: nat)
    requires Filled(r, c, size, group, 0) && v < |r.eq| && r.eq[v] == -1
    ensures Filled(Alone(r, v), WithGroup(c, v, |r.groups|), size, |r.groups|, size - 1)
  {
    hide GroupNumber, PlaceInGroup;
    NextPosition(|c.members|, size);
    forall i | 0 <= i < |c.members| ensures MemberAt(Alone(r, v), WithGroup(c, v, |r.groups|), size, i) {
      assert MemberAt(r, c, size, i);
    }
  }

  lemma FilledMore(r: Grouping, c: Filling, size: nat, group: nat, spots: nat, v: nat)
    requires Filled(r, c, size, group, spots) && spots > 0 && v < |r.eq| && r.eq[v] == -1 && group < |r.groups|
    ensures Filled(Joined(r, group, v), c.(members := c.members + [v]), size, group, spots - 1)
  {
    hide GroupNumber, PlaceInGroup;
    NextPosition(|c.members|, size);
    forall i | 0 <= i < |c.members| ensures MemberAt(Joined(r, group, v), c.(members := c.members + [v]), size, i) {
      assert MemberAt(r, c, size, i);
    }
  }

  lemma FilledChunks(r: Grouping, c: Filling, size: nat, group: nat, spots: nat, i: nat, j: nat)
    requires Filled(r, c, size, group, spots) && i < |c.members| && j < |c.members|
    ensures c.members[i] < |r.eq| && c.members[j] < |r.eq|
    ensures r.eq[c.members[i]] == r.eq[c.members[j]] <==> i / size == j / size
  {
    hide GroupNumber, PlaceInGroup;
    assert MemberAt(r, c, size, i) && MemberAt(r, c, size, j);
    NumberIsQuotient(i, size);
    NumberIsQuotient(j, size);
  }

  /** Places the vertex in the open group if there is room, in a new group otherwise, and alone if it must not be
      grouped. */
  method PlaceInFront(g: Dag, r: Grouping, ghost level: seq<int>, ghost top: nat, v: nat, groupable: seq<bool>,
      average: nat, group: nat, spots: nat, ghost c: Filling)
      returns (r': Grouping, group': nat, spots': nat, ghost c': Filling)
    requires Placed(g, r, level) && v < g.size && r.eq[v] == -1 && level[v] == top && average >= 1
    requires LonersAlone(r, groupable) && (spots > 0 ==> GroupAt(r, level, groupable, group, top))
    requires Filled(r, c, average, group, spots)
    ensures Placed(g, r', level) && PlacedIn(r, r', v, c.base)
    ensures LonersAlone(r', groupable) && (spots' > 0 ==> GroupAt(r', level, groupable, group', top))
    ensures Filled(r', c', average, group', spots')
    ensures c'.members == c.members + IfGroupable(v, groupable) && c'.base == c.base
  {
    group', spots', c' := group, spots, c;
    if !groupable[v] {
      AlonePlaced(g, r, level, v);
      AloneKeepsLoners(g, r, level, groupable, v);
      FilledAlone(r, c, average, group, spots, v);
      r' := Alone(r, v);
    } else if spots' == 0 {
      AlonePlaced(g, r, level, v);
      AloneKeepsLoners(g, r, level, groupable, v);
      FilledNew(r, c, average, group, v);
      c' := WithGroup(c, v, |r.groups|);
      group' := |r.groups|;
      r' := Alone(r, v);
      spots' := average - 1;
    } else {
      JoinedPlaced(g, r, level, group', v);
      JoinedKeepsLoners(g, r, level, groupable, group', v);
      FilledMore(r, c, average, group, spots, v);
      c' := c.(members := c.members + [v]);
      r' := Joined(r, group', v);
      spots' := spots' - 1;
    }
  }

  /** Only the vertex has been placed, in a group of this front. */
  ghost predicate PlacedIn(r: Grouping, r': Grouping, v: nat, base: nat) {
    && v < |r.eq| && |r'.eq| == |r.eq| && r'.eq == r.eq[v := r'.eq[v]] && base <= r'.eq[v] < |r'.groups|
    && |r.groups| <= |r'.groups|
  }

  /** The group exists, is on the given level, and is not that of a loner. */
  ghost predicate GroupAt(r: Grouping, level: seq<int>, groupable: seq<bool>, k: nat, top: nat) {
    && k < |r.groups| && r.groups[k] != [] && r.groups[k][0] < |level| && level[r.groups[k][0]] == top
    && r.groups[k][0] < |groupable| && groupable[r.groups[k][0]]
  }

  /** Between two turns. */
  ghost predicate Between(g: Dag, groupable: seq<bool>, r: Grouping, done: set<nat>, out: seq<int>, ready: seq<nat>,
      freed: seq<nat>, level: seq<int>, top: nat)
  {
    && FrontOk(g, done, {}, out, ready, freed, level, top, 0, 0) && Placed(g, r, level) && PlacedAre(g, r, done)
    && LonersAlone(r, groupable)
  }

  /** In a front whose groups have one member every vertex is placed alone. */
  method PlaceAlone(g: Dag, r: Grouping, ghost level: seq<int>, v: nat, groupable: seq<bool>, group: nat,
      ghost c: Filling)
      returns (r': Grouping, ghost c': Filling)
    requires Placed(g, r, level) && v < g.size && r.eq[v] == -1
    requires LonersAlone(r, groupable) && Filled(r, c, 1, group, 0)
    ensures Placed(g, r', level) && PlacedIn(r, r', v, c.base) && LonersAlone(r', groupable)
    ensures Filled(r', c', 1, |r.groups|, 0)
    ensures c'.members == c.members + IfGroupable(v, groupable) && c'.base == c.base
  {
    AlonePlaced(g, r, level, v);
    AloneKeepsLoners(g, r, level, groupable, v);
    r', c' := Alone(r, v), c;
    if groupable[v] {
      FilledNew(r, c, 1, group, v);
      c' := WithGroup(c, v, |r.groups|);
    } else {
      FilledAlone(r, c, 1, group, 0, v);
    }
  }

  /** The vertex has been placed and has released its successors. */
  lemma TurnOver(g: Dag, groupable: seq<bool>, r: Grouping, r': Grouping, done: set<nat>, v: nat, out': seq<int>,
      rest: seq<nat>, freed: seq<nat>, freed': seq<nat>, level: seq<int>, level': seq<int>, top: nat, base: nat)
    requires Levels(g, done, {v}, rest, freed, level, top) && LevelsKept(level, level')
    requires PlacedAre(g, r, done) && PlacedIn(r, r', v, base) && Placed(g, r', level) && LonersAlone(r', groupable)
    requires FrontOk(g, done + {v}, {}, out', rest, freed', level', top, 0, 0)
    ensures Between(g, groupable, r', done + {v}, out', rest, freed', level', top)
  {
    hide Placed, Levels, LonersAlone, FrontOk;
    assert PlacedAre(g, r', done + {v});
    PlacedHaveLevels(g, r', done, {v}, rest, freed, level, top);
    PlacedStays(g, r', level, level');
  }

  lemma GroupStaysAt(r: Grouping, level: seq<int>, level': seq<int>, groupable: seq<bool>, k: nat, top: nat)
    requires GroupAt(r, level, groupable, k, top) && LevelsKept(level, level')
    ensures GroupAt(r, level', groupable, k, top)
  {
  }

  lemma TurnMayBegin(g: Dag, groupable: seq<bool>, r: Grouping, done: set<nat>, out: seq<int>, front: seq<nat>, q: nat,
      freed: seq<nat>, level: seq<int>, top: nat)
    requires q < |front| && Between(g, groupable, r, done, out, front[q..], freed, level, top)
    ensures front[q] < g.size == |r.eq| && front[q] !in done && r.eq[front[q]] == -1 && front[q] < |level|
    ensures level[front[q]] == top
    ensures FrontOk(g, done, {front[q]}, out, front[q + 1..], freed, level, top, front[q], 0)
  {
    TurnBegins(g, done, out, front[q..], freed, level, top);
    assert front[q..][0] == front[q] && front[q..][1..] == front[q + 1..];
  }

  /** The turn of a vertex of the front: it is placed, alone if the groups would have one member, and releases its
      successors. */
  method Turn(g: Dag, ghost order: seq<nat>, ghost pos: seq<nat>, groupable: seq<bool>, elapsed: seq<nat>, average: nat,
      r: Grouping, ghost done: set<nat>, out: seq<int>, front: seq<nat>, q: nat, freed: seq<nat>,
      ghost level: seq<int>, ghost top: nat, group: nat, spots: nat, ghost c: Filling)
      returns (r': Grouping, out': seq<int>, freed': seq<nat>, ghost level': seq<int>, time: nat, group': nat,
      spots': nat, ghost c': Filling)
    requires Topological(g, order, pos) && |groupable| == |elapsed| == g.size && q < |front|
    requires Between(g, groupable, r, done, out, front[q..], freed, level, top)
    requires Filled(r, c, average, group, spots) && (spots > 0 ==> GroupAt(r, level, groupable, group, top))
    ensures front[q] !in done
    ensures Between(g, groupable, r', done + {front[q]}, out', front[q + 1..], freed', level', top)
    ensures Filled(r', c', average, group', spots') && (spots' > 0 ==> GroupAt(r', level', groupable, group', top))
    ensures c'.members == c.members + IfGroupable(front[q], groupable) && c'.base == c.base
    ensures PlacedIn(r, r', front[q], c.base) && FreedHere(g.arcs, front, q, elapsed, freed, freed', time)
  {
    hide Topological, FreedHere, GroupAt, LonersAlone, Placed, PlacedIn, PlacedAre, Counts, Queued, Levels;
    var v := front[q];
    TurnMayBegin(g, groupable, r, done, out, front, q, freed, level, top);
    if average == 1 {
      r', c' := PlaceAlone(g, r, level, v, groupable, group, c);
      group', spots' := |r.groups|, 0;
    } else {
      r', group', spots', c' := PlaceInFront(g, r, level, top, v, groupable, average, group, spots, c);
    }
    out', freed', level', time :=
      ReleaseSuccessors(g, order, pos, done, out, front, q, freed, level, top, v, elapsed);
    TurnOver(g, groupable, r, r', done, v, out', front[q + 1..], freed, freed', level, level', top, c.base);
    if spots' > 0 { GroupStaysAt(r', level, level', groupable, group', top); }
  }

  lemma PlacedHaveLevels(g: Dag, r: Grouping, done: set<nat>, busy: set<nat>, ready: seq<nat>, freed: seq<nat>,
      level: seq<int>, top: nat)
    requires Levels(g, done, busy, ready, freed, level, top) && PlacedAre(g, r, done + busy)
    ensures forall w :: 0 <= w < g.size && r.eq[w] != -1 ==> level[w] != -1
  {
  }

  /** After `q` turns: what has been freed, in which order, and the time. */
  ghost predicate Midway(g: Dag, elapsed: seq<nat>, front: seq<nat>, q: nat, freed: seq<nat>, time: nat) {
    && (forall i :: 0 <= i < |freed| ==> LastIn(g.arcs, front, freed[i]) < q)
    && (forall i, j :: 0 <= i < j < |freed| ==> LastIn(g.arcs, front, freed[i]) <= LastIn(g.arcs, front, freed[j]))
    && time == MetTime(g.arcs, elapsed, front, freed)
  }

  lemma MidwayGoes(g: Dag, elapsed: seq<nat>, front: seq<nat>, q: nat, freed: seq<nat>, freed': seq<nat>, time: nat,
      t: nat)
    requires Midway(g, elapsed, front, q, freed, time) && FreedHere(g.arcs, front, q, elapsed, freed, freed', t)
    ensures Midway(g, elapsed, front, q + 1, freed', time + t)
  {
    forall i | 0 <= i < |freed'| ensures LastIn(g.arcs, front, freed'[i]) == if i < |freed| then
      LastIn(g.arcs, front, freed[i]) else q
    {
      if i < |freed| { assert freed'[..|freed|][i] == freed[i]; }
    }
  }

  /** The first `q` vertices of the front have been placed, in groups of their own, and no others. */
  ghost predicate PlacedUpto(r: Grouping, r': Grouping, front: seq<nat>, q: nat) {
    && q <= |front| && |r'.eq| == |r.eq| && |r.groups| <= |r'.groups|
    && (forall v :: 0 <= v < |r.eq| && v !in front[..q] ==> r'.eq[v] == r.eq[v])
    && (forall i :: 0 <= i < q ==> front[i] < |r'.eq| && |r.groups| <= r'.eq[front[i]] < |r'.groups|)
  }

  lemma PlacedOneMore(r: Grouping, r': Grouping, r'': Grouping, front: seq<nat>, q: nat)
    requires PlacedUpto(r, r', front, q) && q < |front| && PlacedIn(r', r'', front[q], |r.groups|)
    ensures PlacedUpto(r, r'', front, q + 1)
  {
    assert front[..q + 1] == front[..q] + [front[q]];
  }

  lemma VerticesSnoc(front: seq<nat>, q: nat)
    requires q < |front|
    ensures Vertices(front[..q + 1]) == Vertices(front[..q]) + {front[q]}
  {
    assert front[..q + 1] == front[..q] + [front[q]];
  }

  lemma GroupablesSnoc(front: seq<nat>, groupable: seq<bool>, q: nat)
    requires q < |front|
    ensures Groupables(front[..q + 1], groupable)
            == Groupables(front[..q], groupable) + IfGroupable(front[q], groupable)
  {
    assert front[..q + 1][..q] == front[..q];
  }

  lemma FilledIsChunked(r: Grouping, c: Filling, size: nat, group: nat, spots: nat, front: seq<nat>,
      groupable: seq<bool>)
    requires Filled(r, c, size, group, spots) && c.members == Groupables(front, groupable)
    ensures Chunked(r.eq, front, groupable, size)
  {
    forall i, j | 0 <= i < |c.members| && 0 <= j < |c.members|
      ensures c.members[i] < |r.eq| && c.members[j] < |r.eq|
      ensures r.eq[c.members[i]] == r.eq[c.members[j]] <==> i / size == j / size
    {
      FilledChunks(r, c, size, group, spots, i, j);
    }
  }

  lemma FrontStarts(g: Dag, elapsed: seq<nat>, groupable: seq<bool>, r: Grouping, front: seq<nat>, size: nat)
    requires size >= 1
    ensures Filled(r, Filling([], [], |r.groups|), size, 0, 0) && Groupables([], groupable) == []
    ensures PlacedUpto(r, r, front, 0) && Midway(g, elapsed, front, 0, [], 0)
  {
  }

  /** One front. */
  method PlaceFront(g: Dag, ghost order: seq<nat>, ghost pos: seq<nat>, groupable: seq<bool>, elapsed: seq<nat>,
      average: nat, r: Grouping, ghost done: set<nat>, out: seq<int>, ready: seq<nat>, ghost level: seq<int>,
      ghost top: nat)
      returns (r': Grouping, ghost done': set<nat>, out': seq<int>, freed: seq<nat>, ghost level': seq<int>, time: nat)
    requires Topological(g, order, pos) && |groupable| == |elapsed| == g.size && average >= 1
    requires Between(g, groupable, r, done, out, ready, [], level, top)
    ensures Between(g, groupable, r', done', out', [], freed, level', top) && done' == done + Vertices(ready)
    ensures PlacedUpto(r, r', ready, |ready|) && Chunked(r'.eq, ready, groupable, average)
    ensures Midway(g, elapsed, ready, |ready|, freed, time)
  {
    hide Between, Midway, Filled, PlacedUpto, PlacedIn, FreedHere, Groupables, Chunked, Topological, GroupAt;
    r', done', out', freed, level', time := r, done, out, [], level, 0;
    var group, spots := 0, 0;
    ghost var c := Filling([], [], |r.groups|);
    FrontStarts(g, elapsed, groupable, r, ready, average);
    assert ready[0..] == ready && ready[..0] == [];
    for q := 0 to |ready|
      invariant Between(g, groupable, r', done', out', ready[q..], freed, level', top)
      invariant done' == done + Vertices(ready[..q]) && PlacedUpto(r, r', ready, q)
      invariant Midway(g, elapsed, ready, q, freed, time)
      invariant Filled(r', c, average, group, spots) && c.base == |r.groups|
      invariant c.members == Groupables(ready[..q], groupable)
      invariant spots > 0 ==> GroupAt(r', level', groupable, group, top)
    {
      ghost var was, before := r', freed;
      var t;
      r', out', freed, level', t, group, spots, c :=
        Turn(g, order, pos, groupable, elapsed, average, r', done', out', ready, q, freed, level', top, group, spots,
          c);
      MidwayGoes(g, elapsed, ready, q, before, freed, time, t);
      PlacedOneMore(r, was, r', ready, q);
      VerticesSnoc(ready, q);
      GroupablesSnoc(ready, groupable, q);
      time := time + t;
      done' := done' + {ready[q]};
    }
    assert ready[..|ready|] == ready && ready[|ready|..] == [];
    FilledIsChunked(r', c, average, group, spots, ready, groupable);
  }

  /** How many vertices a group of the front should have. */
  function Average(width: nat, time: nat, us: nat, cpus: nat): (average: nat)
    requires us > 0 && cpus > 0
    ensures average >= 1
  {
    var wanted := (time + us - 1) / us;
    var toMake := if wanted < cpus then cpus else wanted;
    if width / toMake > 1 then width / toMake else 1
  }

  /** Enough groups for the time, rounded up, and for the CPUs. */
  lemma GroupsAreWanted(time: nat, us: nat, cpus: nat, m: nat)
    requires us > 0 && cpus > 0
    requires m == if (time + us - 1) / us < cpus then cpus else (time + us - 1) / us
    ensures GroupsWanted(m, time, us, cpus)
  {
    var wanted, rest := (time + us - 1) / us, (time + us - 1) % us;
    assert time + us - 1 == wanted * us + rest;
    assert (wanted - 1) * us == wanted * us - us;
    if m == cpus { TimesMonotone(wanted, m, us); }
  }

  lemma TimesMonotone(a: nat, b: nat, n: nat)
    requires a <= b
    ensures a * n <= b * n
  {
  }

  lemma QuotientFits(width: nat, m: nat, size: nat)
    requires m > 0 && size == if width / m > 1 then width / m else 1
    ensures size >= 1 && width < (size + 1) * m && (size == 1 || size * m <= width)
  {
    var q := width / m;
    assert width == q * m + width % m;
    assert (q + 1) * m == q * m + m;
    if q <= 1 { TimesMonotone(q + 1, 2, m); }
  }

  /** The size is right for the width of the front, its time and the CPUs. */
  lemma AverageIsSize(width: nat, time: nat, us: nat, cpus: nat)
    requires us > 0 && cpus > 0
    ensures IsSize(Average(width, time, us, cpus), width, time, us, cpus)
  {
    hide GroupsWanted;
    var wanted := (time + us - 1) / us;
    var m := if wanted < cpus then cpus else wanted;
    GroupsAreWanted(time, us, cpus, m);
    QuotientFits(width, m, Average(width, time, us, cpus));
  }

  // All fronts

  /** `ready` is the front after the given ones, and `total` its time. */
  ghost predicate NextFront(g: Dag, elapsed: seq<nat>, fronts: seq<seq<nat>>, ready: seq<nat>, total: nat) {
    && IsFront(g, Upto(fronts, |fronts|), ready) && InOrder(g, fronts + [ready], |fronts|)
    && total == FrontTime(g.arcs, elapsed, fronts + [ready], |fronts|)
  }

  /** The vertices of the fronts are in groups of the given sizes. */
  ghost predicate InGroups(groupable: seq<bool>, fronts: seq<seq<nat>>, sizes: seq<nat>, r: Grouping) {
    && |sizes| == |fronts| && Apart(r.eq, fronts)
    && (forall k: nat :: k < |fronts| ==> sizes[k] >= 1 && Chunked(r.eq, fronts[k], groupable, sizes[k]))
    && (forall k: nat, v {:trigger v in fronts[k]} :: k < |fronts| && v in fronts[k] ==>
          v < |r.eq| && 0 <= r.eq[v] < |r.groups|)
  }

  /** The fronts so far. */
  ghost predicate SoFar(g: Dag, groupable: seq<bool>, elapsed: seq<nat>, us: nat, cpus: nat, r: Grouping,
      done: set<nat>, fronts: seq<seq<nat>>, sizes: seq<nat>)
  {
    && |elapsed| == g.size && FrontsOf(g, fronts) && SizesOf(g, elapsed, us, cpus, fronts, sizes)
    && InGroups(groupable, fronts, sizes, r) && done == Upto(fronts, |fronts|)
  }

  lemma {:induction false} UptoSame(fronts: seq<seq<nat>>, front: seq<nat>, k: nat)
    requires k <= |fronts|
    ensures Upto(fronts + [front], k) == Upto(fronts, k)
  {
    if k > 0 { UptoSame(fronts, front, k - 1); }
  }

  lemma {:induction false} InUpto(fronts: seq<seq<nat>>, k: nat, l: nat, v: nat)
    requires k < l <= |fronts| && v in fronts[k]
    ensures v in Upto(fronts, l)
  {
    if k < l - 1 { InUpto(fronts, k, l - 1, v); }
  }

  lemma OrderSame(g: Dag, fronts: seq<seq<nat>>, front: seq<nat>, k: nat)
    requires k < |fronts| && InOrder(g, fronts, k)
    ensures InOrder(g, fronts + [front], k)
  {
    hide LastIn;
  }

  lemma OldFrontStays(g: Dag, fronts: seq<seq<nat>>, front: seq<nat>, k: nat)
    requires FrontsOf(g, fronts) && k < |fronts|
    ensures fronts[k] != [] && IsFront(g, Upto(fronts + [front], k), fronts[k]) && InOrder(g, fronts + [front], k)
  {
    hide IsFront, InOrder, Upto;
    UptoSame(fronts, front, k);
    assert IsFront(g, Upto(fronts, k), fronts[k]) && InOrder(g, fronts, k);
    OrderSame(g, fronts, front, k);
  }

  lemma FrontsGrow(g: Dag, elapsed: seq<nat>, fronts: seq<seq<nat>>, ready: seq<nat>, total: nat)
    requires FrontsOf(g, fronts) && NextFront(g, elapsed, fronts, ready, total) && ready != []
    ensures FrontsOf(g, fronts + [ready])
  {
    hide IsFront, InOrder, FrontTime, Upto;
    var fs := fronts + [ready];
    UptoSame(fronts, ready, |fronts|);
    forall k: nat | k < |fs| ensures fs[k] != [] && IsFront(g, Upto(fs, k), fs[k]) && InOrder(g, fs, k) {
      if k < |fronts| { OldFrontStays(g, fronts, ready, k); } else { assert k == |fronts| && fs[k] == ready; }
    }
  }

  lemma UptoNext(fronts: seq<seq<nat>>, front: seq<nat>)
    ensures Upto(fronts + [front], |fronts| + 1) == Upto(fronts, |fronts|) + Vertices(front)
  {
    hide Vertices;
    var fs := fronts + [front];
    UptoSame(fronts, front, |fronts|);
    assert Upto(fs, |fs|) == Upto(fs, |fs| - 1) + Vertices(fs[|fs| - 1]);
  }

  lemma SizesGrow(g: Dag, elapsed: seq<nat>, us: nat, cpus: nat, fronts: seq<seq<nat>>, sizes: seq<nat>,
      ready: seq<nat>, size: nat, total: nat)
    requires FrontsOf(g, fronts) && FrontsOf(g, fronts + [ready]) && |elapsed| == g.size
    requires SizesOf(g, elapsed, us, cpus, fronts, sizes) && NextFront(g, elapsed, fronts, ready, total)
    requires IsSize(size, |ready|, total, us, cpus)
    ensures SizesOf(g, elapsed, us, cpus, fronts + [ready], sizes + [size])
  {
    hide FrontsOf, IsSize, IsFront, InOrder, OwnTime, MetTime;
    var fs := fronts + [ready];
    forall k: nat | k < |fronts| ensures FrontTime(g.arcs, elapsed, fs, k) == FrontTime(g.arcs, elapsed, fronts, k) {}
  }

  /** Placing one more front leaves the groups of the others alone. */
  lemma GroupsGrow(g: Dag, groupable: seq<bool>, elapsed: seq<nat>, us: nat, cpus: nat, r: Grouping, r': Grouping,
      done: set<nat>, fronts: seq<seq<nat>>, sizes: seq<nat>, ready: seq<nat>, size: nat)
    requires SoFar(g, groupable, elapsed, us, cpus, r, done, fronts, sizes) && IsFront(g, done, ready) && size >= 1
    requires PlacedUpto(r, r', ready, |ready|) && Chunked(r'.eq, ready, groupable, size)
    ensures InGroups(groupable, fronts + [ready], sizes + [size], r')
  {
    hide FrontsOf, SizesOf, Groupables, Met;
    var fs := fronts + [ready];
    assert ready[..|ready|] == ready;
    forall k: nat, v | k < |fronts| && v in fronts[k] ensures v < |r.eq| && r'.eq[v] == r.eq[v] {
      InUpto(fronts, k, |fronts|, v);
    }
    forall v | v in ready ensures v < |r'.eq| && |r.groups| <= r'.eq[v] < |r'.groups| {
      var i :| 0 <= i < |ready| && ready[i] == v;
    }
    forall k: nat | k < |fronts| ensures Chunked(r'.eq, fronts[k], groupable, sizes[k]) {
      assert Chunked(r.eq, fronts[k], groupable, sizes[k]);
    }
  }

  /** A vertex waits for nothing exactly if its dependencies are done. */
  lemma OutIsMet(g: Dag, done: set<nat>, out: seq<int>, w: nat)
    requires Counts(g, done, out, 0, 0) && w < g.size
    ensures out[w] == 0 <==> Met(g, done, w)
  {
    if out[w] == 0 {
      forall a | a in g.arcs && a.to == w ensures a.from in done {
        var i :| 0 <= i < |g.arcs| && g.arcs[i] == a;
        OutstandingNone(g.arcs, |g.arcs|, done, 0, 0, w, i);
      }
    }
    if Met(g, done, w) { NothingOutstanding(g.arcs, |g.arcs|, done, w); }
  }

  lemma ReadyIsFront(g: Dag, done: set<nat>, out: seq<int>, ready: seq<nat>, level: seq<int>, top: nat)
    requires FrontOk(g, done, {}, out, ready, [], level, top, 0, 0)
    ensures IsFront(g, done, ready)
  {
    hide Met, Outstanding, Levels;
    assert ready + [] == ready;
    forall w: nat | w < g.size ensures out[w] == 0 <==> Met(g, done, w) { OutIsMet(g, done, out, w); }
  }

  /** What has been freed is the next front. */
  lemma FreedIsNext(g: Dag, elapsed: seq<nat>, fronts: seq<seq<nat>>, ready: seq<nat>, done: set<nat>, freed: seq<nat>,
      time: nat)
    requires done == Upto(fronts + [ready], |fronts| + 1) && IsFront(g, done, freed)
    requires Midway(g, elapsed, ready, |ready|, freed, time)
    ensures NextFront(g, elapsed, fronts + [ready], freed, time)
  {
    hide IsFront, Upto, LastIn, MetTime, OwnTime;
    var fs := fronts + [ready] + [freed];
    assert fs[|fronts|] == ready && fs[|fronts| + 1] == freed;
  }

  lemma MoreDone(done: set<nat>, ready: seq<nat>)
    requires ready != [] && ready[0] !in done
    ensures |done + Vertices(ready)| > |done|
  {
    assert done + Vertices(ready) == done + (Vertices(ready) - done) && ready[0] in Vertices(ready) - done;
  }

  /** The front that was next has been placed, and what it has freed is the next one. */
  lemma OneFrontMore(g: Dag, groupable: seq<bool>, elapsed: seq<nat>, us: nat, cpus: nat, r: Grouping, r': Grouping,
      done: set<nat>, done': set<nat>, fronts: seq<seq<nat>>, sizes: seq<nat>, ready: seq<nat>, size: nat, total: nat,
      freed: seq<nat>, time: nat)
    requires SoFar(g, groupable, elapsed, us, cpus, r, done, fronts, sizes) && ready != [] && size >= 1
    requires NextFront(g, elapsed, fronts, ready, total) && IsSize(size, |ready|, total, us, cpus)
    requires PlacedUpto(r, r', ready, |ready|) && Chunked(r'.eq, ready, groupable, size)
    requires done' == done + Vertices(ready) && IsFront(g, done', freed)
    requires Midway(g, elapsed, ready, |ready|, freed, time)
    ensures SoFar(g, groupable, elapsed, us, cpus, r', done', fronts + [ready], sizes + [size])
    ensures NextFront(g, elapsed, fronts + [ready], freed, time)
  {
    hide FrontsOf, SizesOf, InGroups, IsFront, InOrder, IsSize, PlacedUpto, Chunked, Midway, Upto, FrontTime;
    FrontsGrow(g, elapsed, fronts, ready, total);
    UptoNext(fronts, ready);
    SizesGrow(g, elapsed, us, cpus, fronts, sizes, ready, size, total);
    GroupsGrow(g, groupable, elapsed, us, cpus, r, r', done, fronts, sizes, ready, size);
    FreedIsNext(g, elapsed, fronts, ready, done', freed, time);
  }

  /** One front is done, and the next begins. */
  lemma FrontTurns(g: Dag, groupable: seq<bool>, r: Grouping, done: set<nat>, out: seq<int>, freed: seq<nat>,
      level: seq<int>, top: nat)
    requires Between(g, groupable, r, done, out, [], freed, level, top)
    ensures Between(g, groupable, r, done, out, freed, [], level, top + 1)
    ensures |done| <= g.size && IsFront(g, done, freed)
  {
    hide Placed, PlacedAre, LonersAlone, IsFront;
    FrontEnds(g, done, out, freed, level, top);
    DoneIsBounded(g, done, out, freed, level, top);
    ReadyIsFront(g, done, out, freed, level, top + 1);
  }

  /** Without a next front everything has been placed. */
  lemma PassEnds(g: Dag, order: seq<nat>, pos: seq<nat>, groupable: seq<bool>, r: Grouping, done: set<nat>,
      out: seq<int>, level: seq<int>, top: nat)
    requires Topological(g, order, pos) && Between(g, groupable, r, done, out, [], [], level, top)
    ensures Fronts(g, r, level) && LonersAlone(r, groupable) && forall v: nat :: v < g.size ==> v in done
  {
    forall v: nat | v < g.size ensures v in done { NobodyLeft(g, order, pos, done, out, level, top, v); }
  }

  /** Front by front, from the vertices without dependencies. */
  method GraphTransformFront(g: Dag, ghost order: seq<nat>, ghost pos: seq<nat>, groupable: seq<bool>,
      elapsed: seq<nat>, us: nat, cpus: nat) returns (r: Grouping, arcs: seq<Arc>)
    requires Topological(g, order, pos) && |groupable| == |elapsed| == g.size && us > 0 && cpus > 0
    ensures FrontGrouping(g, r) && LonersAlone(r, groupable) && arcs == NewArcs(g.arcs, r.eq)
    ensures GroupedBySize(g, groupable, elapsed, us, cpus, r.eq)
  {
    hide Between, SoFar, NextFront, IsFront, IsSize, PlacedUpto, Chunked, Midway, FilledBy, FrontsOf, SizesOf, Fronts;
    r := Grouping([], seq(g.size, v => -1));
    var out, ready, total;
    ghost var level: seq<int>;
    out, ready, level, total := FirstFront(g, order, pos, elapsed);
    ghost var done: set<nat>, top: nat := {}, 0;
    ghost var fronts: seq<seq<nat>>, sizes: seq<nat> := [], [];
    NoFronts(g, groupable, elapsed, us, cpus, r);
    NothingPlaced(g, groupable, r, out, ready, level);
    FirstIsNext(g, elapsed, out, ready, level, total);
    while ready != []
      invariant Between(g, groupable, r, done, out, ready, [], level, top) && |done| <= g.size
      invariant SoFar(g, groupable, elapsed, us, cpus, r, done, fronts, sizes)
      invariant NextFront(g, elapsed, fronts, ready, total) && IsFront(g, done, ready)
      decreases g.size - |done|
    {
      ghost var was, before := r, done;
      var average := Average(|ready|, total, us, cpus);
      AverageIsSize(|ready|, total, us, cpus);
      ReadyNotDone(g, done, ready);
      MoreDone(done, ready);
      var freed, time;
      r, done, out, freed, level, time :=
        PlaceFront(g, order, pos, groupable, elapsed, average, r, done, out, ready, level, top);
      FrontTurns(g, groupable, r, done, out, freed, level, top);
      OneFrontMore(g, groupable, elapsed, us, cpus, was, r, before, done, fronts, sizes, ready, average, total, freed,
        time);
      fronts, sizes := fronts + [ready], sizes + [average];
      ready, total, top := freed, time, top + 1;
    }
    PassEnds(g, order, pos, groupable, r, done, out, level, top);
    AllFilled(g, groupable, elapsed, us, cpus, r, done, fronts, sizes);
    ArcsPlaced(g, r, level);
    arcs := CopyArcs(g.arcs, r.eq);
  }

  lemma NothingPlaced(g: Dag, groupable: seq<bool>, r: Grouping, out: seq<int>, ready: seq<nat>, level: seq<int>)
    requires FrontOk(g, {}, {}, out, ready, [], level, 0, 0, 0) && |groupable| == g.size
    requires r == Grouping([], seq(g.size, v => -1))
    ensures Between(g, groupable, r, {}, out, ready, [], level, 0)
  {
  }

  lemma NoFronts(g: Dag, groupable: seq<bool>, elapsed: seq<nat>, us: nat, cpus: nat, r: Grouping)
    requires |elapsed| == g.size
    ensures SoFar(g, groupable, elapsed, us, cpus, r, {}, [], [])
  {
  }

  lemma ReadyNotDone(g: Dag, done: set<nat>, ready: seq<nat>)
    requires IsFront(g, done, ready) && ready != []
    ensures ready[0] !in done
  {
    assert ready[0] in ready;
  }

  lemma FirstIsNext(g: Dag, elapsed: seq<nat>, out: seq<int>, ready: seq<nat>, level: seq<int>, total: nat)
    requires FrontOk(g, {}, {}, out, ready, [], level, 0, 0, 0) && total == OwnTime(elapsed, ready)
    requires forall i, j :: 0 <= i < j < |ready| ==> ready[i] < ready[j]
    ensures NextFront(g, elapsed, [], ready, total)
  {
    ReadyIsFront(g, {}, out, ready, level, 0);
  }

  lemma AllFilled(g: Dag, groupable: seq<bool>, elapsed: seq<nat>, us: nat, cpus: nat, r: Grouping, done: set<nat>,
      fronts: seq<seq<nat>>, sizes: seq<nat>)
    requires SoFar(g, groupable, elapsed, us, cpus, r, done, fronts, sizes) && forall v: nat :: v < g.size ==> v in done
    ensures GroupedBySize(g, groupable, elapsed, us, cpus, r.eq)
  {
    hide FrontsOf, SizesOf, Chunked;
    assert FilledBy(g, groupable, fronts, sizes, r.eq);
  }

  lemma DoneIsBounded(g: Dag, done: set<nat>, out: seq<int>, freed: seq<nat>, level: seq<int>, top: nat)
    requires FrontOk(g, done, {}, out, [], freed, level, top, 0, 0)
    ensures |done| <= g.size
  {
    FewerThan(done, g.size);
  }

  lemma {:induction false} FewerThan(s: set<nat>, n: nat)
    requires forall x :: x in s ==> x < n
    ensures |s| <= n
    decreases n
  {
    if n > 0 {
      FewerThan(s - {n - 1}, n - 1);
      assert s <= (s - {n - 1}) + {n - 1};
      assert n - 1 in s ==> |s| == |s - {n - 1}| + 1;
      assert n - 1 !in s ==> s == s - {n - 1};
    } else {
      assert s == {};
    }
  }

  /** The first front: the vertices without arcs into them. */
  method FirstFront(g: Dag, ghost order: seq<nat>, ghost pos: seq<nat>, elapsed: seq<nat>)
      returns (out: seq<int>, ready: seq<nat>, ghost level: seq<int>, total: nat)
    requires Topological(g, order, pos) && |elapsed| == g.size
    ensures FrontOk(g, {}, {}, out, ready, [], level, 0, 0, 0) && total == OwnTime(elapsed, ready)
    ensures forall i, j :: 0 <= i < j < |ready| ==> ready[i] < ready[j]
  {
    hide OwnTime, InDegree, FrontOk, Topological;
    out := seq(g.size, (v: nat) => InDegree(g.arcs, v));
    ready, total := [], 0;
    level := seq(g.size, v => -1);
    OwnTimeOf(elapsed, [], 0);
    for v := 0 to g.size
      invariant |level| == g.size && forall w: nat :: w < g.size ==> level[w] == if w in ready then 0 else -1
      invariant forall w: nat :: w in ready <==> w < v && out[w] == 0
      invariant forall i, j :: 0 <= i < j < |ready| ==> ready[i] < ready[j]
      invariant total == OwnTime(elapsed, ready)
    {
      if out[v] == 0 {
        OwnTimeOf(elapsed, ready, v);
        assert forall i :: 0 <= i < |ready| ==> ready[i] in ready;
        total := total + TimeOf(elapsed[v]);
        ready := ready + [v];
        level := level[v := 0];
      }
    }
    FirstFrontOk(g, order, pos, out, ready, level);
  }

  lemma OwnTimeOf(elapsed: seq<nat>, front: seq<nat>, v: nat)
    ensures OwnTime(elapsed, []) == 0 && OwnTime(elapsed, front + [v]) == OwnTime(elapsed, front) + Cost(elapsed, v)
  {
    assert (front + [v])[..|front|] == front;
  }

  lemma FirstFrontOk(g: Dag, order: seq<nat>, pos: seq<nat>, out: seq<int>, ready: seq<nat>, level: seq<int>)
    requires Topological(g, order, pos) && out == seq(g.size, (v: nat) => InDegree(g.arcs, v))
    requires |level| == g.size && forall w: nat :: w < g.size ==> level[w] == if w in ready then 0 else -1
    requires forall w: nat :: w in ready <==> w < g.size && out[w] == 0
    requires forall i, j :: 0 <= i < j < |ready| ==> ready[i] != ready[j]
    ensures FrontOk(g, {}, {}, out, ready, [], level, 0, 0, 0)
  {
    forall w: nat | w < g.size ensures out[w] == Outstanding(g.arcs, |g.arcs|, {}, 0, 0, w) {
      OutstandingAll(g.arcs, |g.arcs|, w);
      assert g.arcs[..|g.arcs|] == g.arcs;
    }
    assert ready + [] == ready;
    forall a | a in g.arcs ensures level[a.to] == -1 { NotFirst(g, order, pos, out, ready, a); }
  }

  lemma NotFirst(g: Dag, order: seq<nat>, pos: seq<nat>, out: seq<int>, ready: seq<nat>, a: Arc)
    requires Topological(g, order, pos) && out == seq(g.size, (v: nat) => InDegree(g.arcs, v)) && a in g.arcs
    requires forall w: nat :: w in ready <==> w < g.size && out[w] == 0
    ensures a.to !in ready
  {
    ArcCounts(g.arcs, a);
  }
}
