/** What the recorded graph orders, in terms of the accesses as they were registered: exactly what the access types ask
    for. */
module TaskiterOrder {
  import opened AccessFlags
  import opened TaskiterUnroll
  import opened TaskiterLoop
  import opened TaskiterExecution
  import opened TaskiterGraph

  /** Two accesses to one address that need no order: both read, or both are concurrent. A commutative access is ordered
      like a write. */
  predicate Together(t: AccessType, u: AccessType) {
    (t.ReadAccess? && u.ReadAccess?) || (t.ConcurrentAccess? && u.ConcurrentAccess?)
  }

  /** Earlier in the repeated program. */
  predicate Sooner(x: Instance, y: Instance) {
    x.iter < y.iter || (x.iter == y.iter && x.task < y.task)
  }

  /** The two executions access some address in ways that need an order, `x` first. */
  ghost predicate Conflicts(log: seq<Access>, x: Instance, y: Instance) {
    Sooner(x, y)
      && exists p, q :: p in log && q in log && p.task == x.task && q.task == y.task && NeedOrder(p, q)
  }

  predicate NeedOrder(p: Access, q: Access) {
    p.address == q.address && !Together(p.ty, q.ty)
  }

  // ---------------------------------------------------------------------------------------------
  // Kinds and types

  /** Positions follow the order of the program. */
  lemma SoonerByPosition(c: Chain, size: nat, x: Instance, y: Instance, i: nat, j: nat)
    requires ChainOk(c, size) && i < |c.tasks| && j < |c.tasks| && x.task == c.tasks[i] && y.task == c.tasks[j]
    ensures Pos(c.kinds, x.iter, i) < Pos(c.kinds, y.iter, j) <==> Sooner(x, y)
  {
    PosOrder(c.kinds, x.iter, i, y.iter, j);
    PosOrder(c.kinds, y.iter, j, x.iter, i);
    assert i < j ==> c.tasks[i] < c.tasks[j];
    assert j < i ==> c.tasks[j] < c.tasks[i];
  }

  lemma ConflictByTypes(c: Chain, size: nat, x: Instance, y: Instance, i: nat, j: nat, p: Access, q: Access)
    requires ChainOk(c, size) && IsAt(c, i, p) && IsAt(c, j, q) && p.task == x.task && q.task == y.task
    requires p.address == q.address
    ensures ChainConflict(c, x, y, i, j) <==> Sooner(x, y) && NeedOrder(p, q)
  {
    PartsOfPos(c.kinds, x.iter, i);
    PartsOfPos(c.kinds, y.iter, j);
    SoonerByPosition(c, size, x, y, i, j);
  }

  /** The dependencies of the repeated program are those that the access types ask for. */
  lemma LinksAreConflicts(loop: Loop, log: seq<Access>, x: Instance, y: Instance)
    requires LoopOk(loop) && Logged(log, loop.chains)
    ensures ProgramLink(loop, x, y) <==> Conflicts(log, x, y)
  {
    if ProgramLink(loop, x, y) {
      var a, i: nat, j: nat :| a in loop.chains && ChainConflict(loop.chains[a], x, y, i, j);
      assert Position(loop.chains, a, i) && Position(loop.chains, a, j);
      var p :| p in log && p.address == a && IsAt(loop.chains[a], i, p);
      var q :| q in log && q.address == a && IsAt(loop.chains[a], j, q);
      ConflictByTypes(loop.chains[a], loop.size, x, y, i, j, p, q);
    }
    if Conflicts(log, x, y) {
      var p, q :| p in log && q in log && p.task == x.task && q.task == y.task && NeedOrder(p, q);
      var i: nat :| IsAt(loop.chains[p.address], i, p);
      var j: nat :| IsAt(loop.chains[p.address], j, q);
      ConflictByTypes(loop.chains[p.address], loop.size, x, y, i, j, p, q);
    }
  }

  // ---------------------------------------------------------------------------------------------
  // Paths

  /** An edge of the graph between two executions: a body edge within an iteration, or a cross edge to the next. */
  predicate EdgeLink(edges: seq<Edge>, x: Instance, y: Instance) {
    || (x.iter == y.iter && Edge(x.task, y.task, false) in edges)
    || (y.iter == x.iter + 1 && Edge(x.task, y.task, true) in edges)
  }

  ghost predicate LinkBy(log: seq<Access>, edges: seq<Edge>, graph: bool, x: Instance, y: Instance) {
    if graph then EdgeLink(edges, x, y) else Conflicts(log, x, y)
  }

  /** The first `n` iterations order the executions, by the edges of the graph or by the accesses. */
  ghost predicate Ordered(log: seq<Access>, edges: seq<Edge>, graph: bool, n: nat, x: Instance, y: Instance) {
    exists p: seq<Instance> :: |p| >= 2 && p[0] == x && p[|p| - 1] == y && PathBy(log, edges, graph, n, p)
  }

  ghost predicate PathBy(log: seq<Access>, edges: seq<Edge>, graph: bool, n: nat, p: seq<Instance>) {
    && (forall k :: 0 <= k < |p| ==> p[k].iter < n)
    && (forall k :: 0 <= k < |p| - 1 ==> LinkBy(log, edges, graph, p[k], p[k + 1]))
  }

  lemma PathsAgree(loop: Loop, log: seq<Access>, edges: seq<Edge>, graph: bool, n: nat, p: seq<Instance>)
    requires LoopOk(loop) && Logged(log, loop.chains)
    requires forall e: Edge :: !e.cross || n > 1 ==> (e in edges <==> HasEdge(loop, e))
    ensures PathBy(log, edges, graph, n, p) <==> Path(loop, !graph, n, p)
  {
    forall k | 0 <= k < |p| - 1 && p[k].iter < n && p[k + 1].iter < n
      ensures LinkBy(log, edges, graph, p[k], p[k + 1]) <==> Link(loop, !graph, p[k], p[k + 1])
    {
      LinksAreConflicts(loop, log, p[k], p[k + 1]);
    }
  }

  lemma OrdersAgree(loop: Loop, log: seq<Access>, edges: seq<Edge>, n: nat, x: Instance, y: Instance)
    requires LoopOk(loop) && Logged(log, loop.chains)
    requires forall e: Edge :: !e.cross || n > 1 ==> (e in edges <==> HasEdge(loop, e))
    ensures Ordered(log, edges, true, n, x, y) <==> Ordered(log, edges, false, n, x, y)
  {
    UnrollingPreservesOrder(loop, n, x, y);
    forall graph: bool ensures Ordered(log, edges, graph, n, x, y) <==> Reaches(loop, !graph, n, x, y) {
      forall p: seq<Instance> ensures PathBy(log, edges, graph, n, p) <==> Path(loop, !graph, n, p) {
        PathsAgree(loop, log, edges, graph, n, p);
      }
    }
  }

  /** At any time while a body is recorded: the edges drawn so far order two tasks if and only if a chain of accesses
      that need an order leads from the one to the other. */
  lemma RecordedOrder(size: nat, chains: map<nat, Chain>, bottom: map<nat, AccessChain>, log: seq<Access>,
      edges: seq<Edge>, t: nat, u: nat)
    requires Recording(size, chains, bottom, edges) && Logged(log, chains)
    ensures Ordered(log, edges, true, 1, Instance(0, t), Instance(0, u))
            <==> Ordered(log, edges, false, 1, Instance(0, t), Instance(0, u))
  {
    OrdersAgree(Loop(size, chains), log, edges, 1, Instance(0, t), Instance(0, u));
  }

  /** The same of the closed graph and of any number of iterations. */
  lemma ClosedOrder(size: nat, chains: map<nat, Chain>, log: seq<Access>, edges: seq<Edge>, n: nat, x: Instance,
      y: Instance)
    requires LoopOk(Loop(size, chains)) && Logged(log, chains)
    requires forall e :: e in edges <==> HasEdge(Loop(size, chains), e)
    ensures Ordered(log, edges, true, n, x, y) <==> Ordered(log, edges, false, n, x, y)
  {
    OrdersAgree(Loop(size, chains), log, edges, n, x, y);
  }

  lemma OneConflict(log: seq<Access>, edges: seq<Edge>, n: nat, x: Instance, y: Instance)
    requires Conflicts(log, x, y) && x.iter < n && y.iter < n
    ensures Ordered(log, edges, false, n, x, y)
  {
    assert PathBy(log, edges, false, n, [x, y]);
  }

  /** Two accesses to one address, unless both read or both are concurrent: their tasks are ordered by the graph as soon
      as they are recorded, in the order of their creation, and later each execution of the one precedes all executions
      of the other in later iterations. */
  lemma PairIsOrdered(size: nat, chains: map<nat, Chain>, bottom: map<nat, AccessChain>, log: seq<Access>,
      edges: seq<Edge>, closed: seq<Edge>, n: nat, p: Access, q: Access, k: nat, l: nat)
    requires Recording(size, chains, bottom, edges) && Logged(log, chains) && p in log && q in log
    requires forall e :: e in closed <==> HasEdge(Loop(size, chains), e)
    requires p.address == q.address && !(p.ty.ReadAccess? && q.ty.ReadAccess?)
    requires !(p.ty.ConcurrentAccess? && q.ty.ConcurrentAccess?)
    ensures p.task < q.task ==> Ordered(log, edges, true, 1, Instance(0, p.task), Instance(0, q.task))
    ensures k < l < n || (k == l < n && p.task < q.task) ==>
              Ordered(log, closed, true, n, Instance(k, p.task), Instance(l, q.task))
  {
    if p.task < q.task {
      OneConflict(log, edges, 1, Instance(0, p.task), Instance(0, q.task));
      RecordedOrder(size, chains, bottom, log, edges, p.task, q.task);
    }
    if k < l < n || (k == l < n && p.task < q.task) {
      OneConflict(log, closed, n, Instance(k, p.task), Instance(l, q.task));
      ClosedOrder(size, chains, log, closed, n, Instance(k, p.task), Instance(l, q.task));
    }
  }

  /** An edge is drawn only between tasks with accesses to one address that are neither both reads nor both concurrent.
      */
  lemma EdgeNeedsConflict(loop: Loop, log: seq<Access>, e: Edge)
    requires LoopOk(loop) && Logged(log, loop.chains) && HasEdge(loop, e)
    ensures exists p, q :: p in log && q in log && p.task == e.from && q.task == e.to && NeedOrder(p, q)
    ensures !e.cross ==> e.from < e.to
  {
    var x, y := Instance(0, e.from), Instance(if e.cross then 1 else 0, e.to);
    assert UnrolledLink(loop, x, y);
    UnrolledLinkIsProgramLink(loop, x, y);
    LinksAreConflicts(loop, log, x, y);
  }

  /** When the graph is executed, whatever the threads do: of two executions with accesses to one address that are
      neither both reads nor both concurrent, the later one is submitted only when the earlier one has completed. */
  lemma ConflictsRunInOrder(g: Graph, run: seq<Step>, log: seq<Access>, x: Instance, y: Instance)
    requires GraphOk(g) && Execution(g, run) && Logged(log, g.loop.chains) && Conflicts(log, x, y)
    requires y.task < g.loop.size && y.iter <= g.rounds && Started(g, After(g, run), y)
    ensures x.task < g.loop.size && Completed(g, After(g, run), x)
  {
    LinksAreConflicts(g.loop, log, x, y);
    OneLink(g.loop, true, g.rounds + 1, x, y);
    ProgramOrderIsKept(g, After(g, run), x, y);
  }
}
