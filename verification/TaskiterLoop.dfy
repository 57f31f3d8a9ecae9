/** The loop body as a whole: tasks with accesses to several addresses. Unrolling the closed graph means the same as
    running the body again and again, and every edge lies on a cycle that crosses to the next iteration once. */
module TaskiterLoop {
  import opened TaskiterUnroll

  /** The accesses to one address, in the order of registration. */
  datatype Chain = Chain(tasks: seq<nat>, kinds: seq<Kind>)

  datatype Loop = Loop(size: nat, chains: map<nat, Chain>)

  datatype Edge = Edge(from: nat, to: nat, cross: bool)

  /** One execution of a task. */
  datatype Instance = Instance(iter: nat, task: nat)

  predicate ChainOk(c: Chain, size: nat) {
    && c.kinds != [] && |c.tasks| == |c.kinds|
    && (forall i :: 0 <= i < |c.tasks| ==> c.tasks[i] < size)
    && (forall i, j :: 0 <= i < j < |c.tasks| ==> c.tasks[i] < c.tasks[j])
  }

  ghost predicate LoopOk(loop: Loop) {
    forall a :: a in loop.chains ==> ChainOk(loop.chains[a], loop.size)
  }

  /** The edge comes from position `i` to position `j` of the chain. */
  predicate ChainEdge(c: Chain, e: Edge, i: nat, j: nat)
    requires c.kinds != [] && |c.tasks| == |c.kinds|
  {
    && i < |c.tasks| && j < |c.tasks| && e.from == c.tasks[i] && e.to == c.tasks[j]
    && (if e.cross then CrossEdge(c.kinds, i, j) else BodyEdge(c.kinds, i, j))
  }

  /** The edges of the closed graph. */
  ghost predicate HasEdge(loop: Loop, e: Edge)
    requires LoopOk(loop)
  {
    exists a, i: nat, j: nat :: a in loop.chains && ChainEdge(loop.chains[a], e, i, j)
  }

  /** An edge of the unrolled graph, which has one copy of every task per iteration. */
  ghost predicate UnrolledLink(loop: Loop, x: Instance, y: Instance)
    requires LoopOk(loop)
  {
    (x.iter == y.iter && HasEdge(loop, Edge(x.task, y.task, false)))
    || (y.iter == x.iter + 1 && HasEdge(loop, Edge(x.task, y.task, true)))
  }

  predicate ChainConflict(c: Chain, x: Instance, y: Instance, i: nat, j: nat)
    requires c.kinds != [] && |c.tasks| == |c.kinds|
  {
    && i < |c.tasks| && j < |c.tasks| && x.task == c.tasks[i] && y.task == c.tasks[j]
    && Conflict(c.kinds, Pos(c.kinds, x.iter, i), Pos(c.kinds, y.iter, j))
  }

  /** A dependency of the repeated program: both tasks access some address, in that order, and may not run together. */
  ghost predicate ProgramLink(loop: Loop, x: Instance, y: Instance)
    requires LoopOk(loop)
  {
    exists a, i: nat, j: nat :: a in loop.chains && ChainConflict(loop.chains[a], x, y, i, j)
  }

  ghost predicate Link(loop: Loop, program: bool, x: Instance, y: Instance)
    requires LoopOk(loop)
  {
    if program then ProgramLink(loop, x, y) else UnrolledLink(loop, x, y)
  }

  /** A path through the first `n` iterations. */
  ghost predicate Path(loop: Loop, program: bool, n: nat, p: seq<Instance>)
    requires LoopOk(loop)
  {
    && (forall k :: 0 <= k < |p| ==> p[k].iter < n)
    && (forall k :: 0 <= k < |p| - 1 ==> Link(loop, program, p[k], p[k + 1]))
  }

  ghost predicate Reaches(loop: Loop, program: bool, n: nat, x: Instance, y: Instance)
    requires LoopOk(loop)
  {
    exists p: seq<Instance> :: |p| >= 2 && p[0] == x && p[|p| - 1] == y && Path(loop, program, n, p)
  }

  /** Paths compose. */
  lemma Compose(loop: Loop, program: bool, n: nat, x: Instance, y: Instance, z: Instance)
    requires LoopOk(loop) && Reaches(loop, program, n, x, y) && Reaches(loop, program, n, y, z)
    ensures Reaches(loop, program, n, x, z)
  {
    var p: seq<Instance> :| |p| >= 2 && p[0] == x && p[|p| - 1] == y && Path(loop, program, n, p);
    var q: seq<Instance> :| |q| >= 2 && q[0] == y && q[|q| - 1] == z && Path(loop, program, n, q);
    var r := p + q[1..];
    forall k | 0 <= k < |r| - 1 ensures Link(loop, program, r[k], r[k + 1]) {
      if k < |p| - 1 {
        assert Link(loop, program, p[k], p[k + 1]);
      } else {
        assert Link(loop, program, q[k - (|p| - 1)], q[k - (|p| - 1) + 1]);
      }
    }
    assert Path(loop, program, n, r);
  }

  lemma OneLink(loop: Loop, program: bool, n: nat, x: Instance, y: Instance)
    requires LoopOk(loop) && Link(loop, program, x, y) && x.iter < n && y.iter < n
    ensures Reaches(loop, program, n, x, y)
  {
    var p := [x, y];
    assert Path(loop, program, n, p);
  }

  // ---------------------------------------------------------------------------------------------
  // Unrolling preserves the order of the program

  /** The execution of the access at position `x` of the repeated chain. */
  function InstanceAt(c: Chain, x: nat): Instance
    requires c.kinds != [] && |c.tasks| == |c.kinds|
  {
    Instance(Iteration(c.kinds, x), c.tasks[Index(c.kinds, x)])
  }

  lemma NeighboursAreLinked(loop: Loop, a: nat, x: nat, y: nat)
    requires LoopOk(loop) && a in loop.chains
    requires Group(loop.chains[a].kinds, y) == Group(loop.chains[a].kinds, x) + 1
    ensures UnrolledLink(loop, InstanceAt(loop.chains[a], x), InstanceAt(loop.chains[a], y))
  {
    var c := loop.chains[a];
    var k, i, l, j := Iteration(c.kinds, x), Index(c.kinds, x), Iteration(c.kinds, y), Index(c.kinds, y);
    PosOfParts(c.kinds, x);
    PosOfParts(c.kinds, y);
    UnrolledEdgesAreNeighbours(c.kinds, k, i, l, j);
    assert ChainEdge(c, Edge(c.tasks[i], c.tasks[j], l == k + 1), i, j);
  }

  lemma {:induction false} IterationMonotone(t: seq<Kind>, x: nat, y: nat)
    requires t != [] && x <= y
    ensures Iteration(t, x) <= Iteration(t, y)
    decreases x
  {
    if x >= |t| { IterationMonotone(t, x - |t|, y - |t|); }
  }

  /** Positions in different groups of one chain are connected in the unrolled graph. */
  lemma {:induction false} ChainReaches(loop: Loop, a: nat, n: nat, x: nat, y: nat)
    requires LoopOk(loop) && a in loop.chains
    requires Group(loop.chains[a].kinds, x) < Group(loop.chains[a].kinds, y)
    requires Iteration(loop.chains[a].kinds, y) < n
    ensures Reaches(loop, false, n, InstanceAt(loop.chains[a], x), InstanceAt(loop.chains[a], y))
    decreases Group(loop.chains[a].kinds, y) - Group(loop.chains[a].kinds, x)
  {
    var c := loop.chains[a];
    var z := NextGroupStart(c.kinds, x, y);
    IterationMonotone(c.kinds, x, y);
    IterationMonotone(c.kinds, z, y);
    if Group(c.kinds, y) == Group(c.kinds, x) + 1 {
      NeighboursAreLinked(loop, a, x, y);
      OneLink(loop, false, n, InstanceAt(c, x), InstanceAt(c, y));
    } else {
      NeighboursAreLinked(loop, a, x, z);
      OneLink(loop, false, n, InstanceAt(c, x), InstanceAt(c, z));
      ChainReaches(loop, a, n, z, y);
      Compose(loop, false, n, InstanceAt(c, x), InstanceAt(c, z), InstanceAt(c, y));
    }
  }

  lemma ProgramLinkIsReached(loop: Loop, n: nat, x: Instance, y: Instance)
    requires LoopOk(loop) && ProgramLink(loop, x, y) && x.iter < n && y.iter < n
    ensures Reaches(loop, false, n, x, y)
  {
    var a, i: nat, j: nat :| a in loop.chains && ChainConflict(loop.chains[a], x, y, i, j);
    var c := loop.chains[a];
    PartsOfPos(c.kinds, x.iter, i);
    PartsOfPos(c.kinds, y.iter, j);
    ConflictSeparates(c.kinds, Pos(c.kinds, x.iter, i), Pos(c.kinds, y.iter, j));
    ChainReaches(loop, a, n, Pos(c.kinds, x.iter, i), Pos(c.kinds, y.iter, j));
  }

  lemma UnrolledLinkIsProgramLink(loop: Loop, x: Instance, y: Instance)
    requires LoopOk(loop) && UnrolledLink(loop, x, y)
    ensures ProgramLink(loop, x, y)
  {
    var e := if x.iter == y.iter && HasEdge(loop, Edge(x.task, y.task, false)) then Edge(x.task, y.task, false)
             else Edge(x.task, y.task, true);
    var a, i: nat, j: nat :| a in loop.chains && ChainEdge(loop.chains[a], e, i, j);
    var c := loop.chains[a];
    UnrolledEdgesAreNeighbours(c.kinds, x.iter, i, y.iter, j);
    NeighboursConflict(c.kinds, Pos(c.kinds, x.iter, i), Pos(c.kinds, y.iter, j));
    assert ChainConflict(c, x, y, i, j);
  }

  lemma {:induction false} ProgramPathIsReached(loop: Loop, n: nat, p: seq<Instance>)
    requires LoopOk(loop) && |p| >= 2 && Path(loop, true, n, p)
    ensures Reaches(loop, false, n, p[0], p[|p| - 1])
    decreases |p|
  {
    assert Link(loop, true, p[0], p[0 + 1]);
    ProgramLinkIsReached(loop, n, p[0], p[1]);
    if |p| > 2 {
      var q := p[1..];
      forall k | 0 <= k < |q| - 1 ensures Link(loop, true, q[k], q[k + 1]) {
        assert Link(loop, true, p[k + 1], p[k + 1 + 1]);
      }
      assert Path(loop, true, n, q);
      ProgramPathIsReached(loop, n, q);
      Compose(loop, false, n, p[0], p[1], p[|p| - 1]);
    }
  }

  /** Loop unrolling preserves meaning: over any number of iterations, the copies of the body edges with the cross
      edges order exactly the executions that the repeated program orders. */
  lemma UnrollingPreservesOrder(loop: Loop, n: nat, x: Instance, y: Instance)
    requires LoopOk(loop)
    ensures Reaches(loop, false, n, x, y) <==> Reaches(loop, true, n, x, y)
  {
    if Reaches(loop, false, n, x, y) {
      var p: seq<Instance> :| |p| >= 2 && p[0] == x && p[|p| - 1] == y && Path(loop, false, n, p);
      forall k | 0 <= k < |p| - 1 ensures Link(loop, true, p[k], p[k + 1]) {
        assert Link(loop, false, p[k], p[k + 1]);
        UnrolledLinkIsProgramLink(loop, p[k], p[k + 1]);
      }
      assert Path(loop, true, n, p);
    }
    if Reaches(loop, true, n, x, y) {
      var p: seq<Instance> :| |p| >= 2 && p[0] == x && p[|p| - 1] == y && Path(loop, true, n, p);
      ProgramPathIsReached(loop, n, p);
    }
  }

  // ---------------------------------------------------------------------------------------------
  // Every edge lies on a cycle with one cross edge

  /** Consecutive edges of the closed graph. */
  ghost predicate Walk(loop: Loop, w: seq<Edge>, from: nat, to: nat)
    requires LoopOk(loop)
    decreases |w|
  {
    if w == [] then from == to
    else HasEdge(loop, w[0]) && w[0].from == from && Walk(loop, w[1..], w[0].to, to)
  }

  function Crossings(w: seq<Edge>): nat {
    if w == [] then 0 else (if w[0].cross then 1 else 0) + Crossings(w[1..])
  }

  /** A path of the unrolled graph follows a walk that crosses once per iteration it advances. */
  lemma {:induction false} PathIsWalk(loop: Loop, n: nat, p: seq<Instance>) returns (w: seq<Edge>)
    requires LoopOk(loop) && |p| >= 1 && Path(loop, false, n, p)
    ensures Walk(loop, w, p[0].task, p[|p| - 1].task)
    ensures p[|p| - 1].iter == p[0].iter + Crossings(w)
    decreases |p|
  {
    if |p| == 1 {
      w := [];
    } else {
      assert Link(loop, false, p[0], p[0 + 1]);
      var q := p[1..];
      forall k | 0 <= k < |q| - 1 ensures Link(loop, false, q[k], q[k + 1]) {
        assert Link(loop, false, p[k + 1], p[k + 1 + 1]);
      }
      var v := PathIsWalk(loop, n, q);
      var cross := !(p[0].iter == p[1].iter && HasEdge(loop, Edge(p[0].task, p[1].task, false)));
      w := [Edge(p[0].task, p[1].task, cross)] + v;
      assert w[1..] == v;
    }
  }

  /** From the end of any edge the graph leads back to its start; the whole cycle crosses to the next iteration once. */
  lemma EdgeOnCycle(loop: Loop, e: Edge) returns (w: seq<Edge>)
    requires LoopOk(loop) && HasEdge(loop, e)
    ensures Walk(loop, w, e.to, e.from)
    ensures Crossings(w) + (if e.cross then 1 else 0) == 1
  {
    var a, i: nat, j: nat :| a in loop.chains && ChainEdge(loop.chains[a], e, i, j);
    var c := loop.chains[a];
    var t := c.kinds;
    PartsOfPos(t, 0, i);
    PartsOfPos(t, 0, j);
    PartsOfPos(t, 1, i);
    PartsOfPos(t, 1, j);
    assert Pos(t, 1, i) == |t| + i && Pos(t, 1, j) == |t| + j;
    if e.cross {
      NeighboursConflict(t, i, |t| + j);
      NeighboursAreClose(t, i, |t| + j);
      if j == i {
        w := [];
      } else {
        ConflictSeparates(t, j, i);
        ChainReaches(loop, a, 1, j, i);
        var p: seq<Instance> :| |p| >= 2 && p[0] == InstanceAt(c, j) && p[|p| - 1] == InstanceAt(c, i)
          && Path(loop, false, 1, p);
        w := PathIsWalk(loop, 1, p);
      }
    } else {
      NeighboursConflict(t, i, j);
      ConflictSeparates(t, j, |t| + i);
      ChainReaches(loop, a, 2, j, |t| + i);
      var p: seq<Instance> :| |p| >= 2 && p[0] == InstanceAt(c, j) && p[|p| - 1] == InstanceAt(c, |t| + i)
        && Path(loop, false, 2, p);
      w := PathIsWalk(loop, 2, p);
    }
  }
}
