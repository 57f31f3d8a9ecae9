/** What grouping by fronts is to produce: which vertices make a front, how long a front takes, how many vertices go
    into a group, and how the groups are filled. */
module GranularitySizes {
  import opened TaskDag

  // ---------------------------------------------------------------------------------------------
  // Fronts

  function Vertices(front: seq<nat>): (vs: set<nat>)
    ensures forall v :: v in vs <==> v in front
  {
    set i | 0 <= i < |front| :: front[i]
  }

  /** The vertices of the first `k` fronts. */
  function Upto(fronts: seq<seq<nat>>, k: nat): (vs: set<nat>)
    requires k <= |fronts|
  {
    if k == 0 then {} else Upto(fronts, k - 1) + Vertices(fronts[k - 1])
  }

  /** All dependencies of the vertex are in the set. */
  ghost predicate Met(g: Dag, before: set<nat>, w: nat) {
    forall a :: a in g.arcs && a.to == w ==> a.from in before
  }

  ghost predicate IsFront(g: Dag, before: set<nat>, front: seq<nat>) {
    && (forall w: nat :: w in front <==> w < g.size && w !in before && Met(g, before, w))
    && (forall i, j :: 0 <= i < j < |front| ==> front[i] != front[j])
  }

  /** The position in the front of the last dependency that the vertex has there. */
  function LastIn(arcs: seq<Arc>, front: seq<nat>, w: nat): nat {
    if front == [] then 0
    else if Arc(front[|front| - 1], w) in arcs then |front| - 1
    else LastIn(arcs, front[..|front| - 1], w)
  }

  lemma {:induction false} LastInIs(arcs: seq<Arc>, front: seq<nat>, w: nat, q: nat)
    requires q < |front| && Arc(front[q], w) in arcs && forall i :: q < i < |front| ==> Arc(front[i], w) !in arcs
    ensures LastIn(arcs, front, w) == q
  {
    if q < |front| - 1 { LastInIs(arcs, front[..|front| - 1], w, q); }
  }

  /** In the first front the vertices are in the order of their numbers, in the others in the order in which their last
      dependencies were met. */
  ghost predicate InOrder(g: Dag, fronts: seq<seq<nat>>, k: nat)
    requires k < |fronts|
  {
    forall i, j :: 0 <= i < j < |fronts[k]| ==>
      if k == 0 then fronts[k][i] < fronts[k][j]
      else LastIn(g.arcs, fronts[k - 1], fronts[k][i]) <= LastIn(g.arcs, fronts[k - 1], fronts[k][j])
  }

  /** Each front holds the vertices whose dependencies are in the fronts before it. */
  ghost predicate FrontsOf(g: Dag, fronts: seq<seq<nat>>) {
    && (forall k: nat :: k < |fronts| ==> fronts[k] != [] && IsFront(g, Upto(fronts, k), fronts[k]))
    && (forall k: nat :: k < |fronts| ==> InOrder(g, fronts, k))
  }

  // ---------------------------------------------------------------------------------------------
  // Time

  /** Every vertex takes some time. */
  function Cost(elapsed: seq<nat>, v: nat): nat {
    if v < |elapsed| && elapsed[v] > 1 then elapsed[v] else 1
  }

  /** The time of the first front is that of its vertices. */
  function OwnTime(elapsed: seq<nat>, front: seq<nat>): nat {
    if front == [] then 0 else OwnTime(elapsed, front[..|front| - 1]) + Cost(elapsed, front[|front| - 1])
  }

  /** The time of a later front is measured by the vertices that met the last dependencies of its vertices, once for
      each of these. */
  function MetTime(arcs: seq<Arc>, elapsed: seq<nat>, prev: seq<nat>, front: seq<nat>): nat {
    if front == [] || prev == [] then 0
    else
      var n, i := |front| - 1, LastIn(arcs, prev, front[|front| - 1]);
      MetTime(arcs, elapsed, prev, front[..n]) + if i < |prev| then Cost(elapsed, prev[i]) else 0
  }

  function FrontTime(arcs: seq<Arc>, elapsed: seq<nat>, fronts: seq<seq<nat>>, k: nat): nat
    requires k < |fronts|
  {
    if k == 0 then OwnTime(elapsed, fronts[0]) else MetTime(arcs, elapsed, fronts[k - 1], fronts[k])
  }

  // ---------------------------------------------------------------------------------------------
  // Sizes

  /** The least number of groups that occupies all CPUs and has at most `us` of work in each. */
  predicate GroupsWanted(m: nat, time: nat, us: nat, cpus: nat) {
    m >= cpus && time <= m * us && (m == cpus || (m - 1) * us < time)
  }

  /** As many vertices in each group as that number of full groups allows, but at least one. */
  ghost predicate IsSize(size: nat, width: nat, time: nat, us: nat, cpus: nat) {
    exists m: nat ::
      GroupsWanted(m, time, us, cpus) && size >= 1 && width < (size + 1) * m && (size == 1 || size * m <= width)
  }

  // ---------------------------------------------------------------------------------------------
  // Filling groups

  function IfGroupable(v: nat, groupable: seq<bool>): seq<nat> {
    if v < |groupable| && groupable[v] then [v] else []
  }

  /** The vertices of the front that may be grouped. */
  function Groupables(front: seq<nat>, groupable: seq<bool>): (vs: seq<nat>)
    ensures forall i :: 0 <= i < |vs| ==> vs[i] in front
  {
    if front == [] then []
    else Groupables(front[..|front| - 1], groupable) + IfGroupable(front[|front| - 1], groupable)
  }

  /** The vertices of a front that may be grouped are divided in their order into groups of the given size. */
  ghost predicate Chunked(eq: seq<int>, front: seq<nat>, groupable: seq<bool>, size: nat)
    requires size >= 1
  {
    var vs := Groupables(front, groupable);
    && (forall i :: 0 <= i < |vs| ==> vs[i] < |eq|)
    && forall i, j :: 0 <= i < |vs| && 0 <= j < |vs| ==> (eq[vs[i]] == eq[vs[j]] <==> i / size == j / size)
  }

  /** The groups of a front come after those of the fronts before. */
  ghost predicate Apart(eq: seq<int>, fronts: seq<seq<nat>>) {
    forall k, l, u, v :: 0 <= k < l < |fronts| && u in fronts[k] && v in fronts[l] && u < |eq| && v < |eq| ==>
      eq[u] < eq[v]
  }

  /** The result of the pass: the fronts, the sizes, and the groups. */
  ghost predicate GroupedBySize(g: Dag, groupable: seq<bool>, elapsed: seq<nat>, us: nat, cpus: nat, eq: seq<int>) {
    |elapsed| == g.size &&
    exists fronts: seq<seq<nat>>, sizes: seq<nat> ::
      FrontsOf(g, fronts) && SizesOf(g, elapsed, us, cpus, fronts, sizes) && FilledBy(g, groupable, fronts, sizes, eq)
  }

  ghost predicate SizesOf(g: Dag, elapsed: seq<nat>, us: nat, cpus: nat, fronts: seq<seq<nat>>, sizes: seq<nat>)
    requires FrontsOf(g, fronts) && |elapsed| == g.size
  {
    |sizes| == |fronts| && forall k: nat :: k < |fronts| ==>
      IsSize(sizes[k], |fronts[k]|, FrontTime(g.arcs, elapsed, fronts, k), us, cpus)
  }

  ghost predicate FilledBy(g: Dag, groupable: seq<bool>, fronts: seq<seq<nat>>, sizes: seq<nat>, eq: seq<int>) {
    && |sizes| == |fronts| && (forall v: nat :: v < g.size ==> v in Upto(fronts, |fronts|))
    && (forall k: nat :: k < |fronts| ==> sizes[k] >= 1 && Chunked(eq, fronts[k], groupable, sizes[k]))
    && Apart(eq, fronts)
  }
}
