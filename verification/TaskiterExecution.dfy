/** Re-execution of a closed task graph with one predecessor counter per task. Any thread may take the next step: the
    counters are decremented in place while other tasks of other iterations are finishing. */
module TaskiterExecution {
  import opened TaskiterUnroll
  import opened TaskiterLoop

  /** The graph that is executed: the edges may repeat, and edges implied by others may be missing. `rounds` is the
      number of executions after the recorded one, which is at least one. */
  datatype Graph = Graph(loop: Loop, edges: seq<Edge>, rounds: nat)

  /** `count` is the iteration counter, `pred` the predecessor counter, `guard` the extra predecessor that protects a
      task until all degrees are set; `ready` holds the submitted tasks. `pending[e]` counts the decrements that
      finished tasks still have to make along the edge, `sent[e]` the ones already made. */
  datatype State = State(count: seq<int>, pred: seq<int>, guard: seq<bool>, ready: set<nat>, pending: seq<nat>,
      sent: seq<nat>)

  datatype Step = RemoveGuard(task: nat) | Complete(task: nat) | Deliver(edge: nat)

  /** A walk that uses only the edges in the list. */
  predicate EdgeWalk(edges: seq<Edge>, w: seq<Edge>, from: nat, to: nat)
    decreases |w|
  {
    if w == [] then from == to
    else w[0] in edges && w[0].from == from && EdgeWalk(edges, w[1..], w[0].to, to)
  }

  /** The edge is replaced by a walk that crosses as often. */
  ghost predicate Implied(edges: seq<Edge>, e: Edge) {
    exists w: seq<Edge> :: EdgeWalk(edges, w, e.from, e.to) && Crossings(w) == Cross(e)
  }

  ghost predicate GraphOk(g: Graph) {
    && LoopOk(g.loop) && g.rounds >= 1
    && (forall e :: e in g.edges ==> HasEdge(g.loop, e))
    && (forall e :: HasEdge(g.loop, e) ==> Implied(g.edges, e))
  }

  function Cross(e: Edge): nat { if e.cross then 1 else 0 }

  /** The number of edges into the task among the first `n`; a cross edge counts only if `all`. */
  function InDegree(edges: seq<Edge>, n: nat, t: nat, all: bool): nat
    requires n <= |edges|
  {
    if n == 0 then 0
    else InDegree(edges, n - 1, t, all) + (if edges[n - 1].to == t && (all || !edges[n - 1].cross) then 1 else 0)
  }

  predicate Sized(g: Graph, s: State) {
    && |s.count| == |s.pred| == |s.guard| == g.loop.size
    && |s.pending| == |s.sent| == |g.edges|
  }

  /** Completed executions of the task after the recorded one. */
  function Done(g: Graph, s: State, t: nat): int
    requires t < |s.count|
  {
    g.rounds + 1 - s.count[t]
  }

  /** The state in which all degrees are set and no guard is removed yet. */
  function Start(g: Graph): State {
    State(
      seq(g.loop.size, t => g.rounds + 1),
      seq(g.loop.size, (t: nat) => 1 + InDegree(g.edges, |g.edges|, t, false)),
      seq(g.loop.size, t => true),
      {},
      seq(|g.edges|, e => 0),
      seq(|g.edges|, e => 0))
  }

  predicate Enabled(g: Graph, s: State, step: Step)
    requires Sized(g, s)
  {
    match step
    case RemoveGuard(t) => t < g.loop.size && s.guard[t]
    case Complete(t) => t < g.loop.size && t in s.ready
    case Deliver(e) => e < |g.edges| && s.pending[e] > 0
  }

  /** The finished task owes a decrement along each of its edges, along the cross edges only if it will run again. */
  function Owe(g: Graph, s: State, t: nat, keep: bool): seq<nat>
    requires Sized(g, s)
  {
    seq(|g.edges|, e requires 0 <= e < |g.edges| =>
      s.pending[e] + if g.edges[e].from == t && (keep || !g.edges[e].cross) then 1 else 0)
  }

  function Next(g: Graph, s: State, step: Step): State
    requires LoopSized(g) && Sized(g, s) && Enabled(g, s, step)
  {
    match step
    case RemoveGuard(t) =>
      var pred := s.pred[t] - 1;
      s.(guard := s.guard[t := false], pred := s.pred[t := pred], ready := if pred == 0 then s.ready + {t} else s.ready)
    case Complete(t) =>
      var keep := s.count[t] - 1 > 1;
      var original := InDegree(g.edges, |g.edges|, t, true);
      s.(count := s.count[t := s.count[t] - 1],
         pred := if keep then s.pred[t := s.pred[t] + original] else s.pred,
         ready := if keep && original == 0 then s.ready else s.ready - {t},
         pending := Owe(g, s, t, keep))
    case Deliver(e) =>
      var t := g.edges[e].to;
      var pred := s.pred[t] - 1;
      s.(pending := s.pending[e := s.pending[e] - 1], sent := s.sent[e := s.sent[e] + 1],
         pred := s.pred[t := pred], ready := if pred == 0 then s.ready + {t} else s.ready)
  }

  predicate LoopSized(g: Graph) {
    forall e :: 0 <= e < |g.edges| ==> g.edges[e].from < g.loop.size && g.edges[e].to < g.loop.size
  }

  // ---------------------------------------------------------------------------------------------
  // The graph

  lemma EdgesInside(g: Graph)
    requires GraphOk(g)
    ensures LoopSized(g)
  {
    forall e | 0 <= e < |g.edges| ensures g.edges[e].from < g.loop.size && g.edges[e].to < g.loop.size {
      assert HasEdge(g.loop, g.edges[e]);
      var a, i: nat, j: nat :| a in g.loop.chains && ChainEdge(g.loop.chains[a], g.edges[e], i, j);
    }
  }

  /** Keeping the edges of the closed graph, with or without repetitions, keeps every dependency. */
  lemma ExactGraph(g: Graph)
    requires LoopOk(g.loop) && g.rounds >= 1
    requires forall e :: e in g.edges <==> HasEdge(g.loop, e)
    ensures GraphOk(g)
  {
    forall e | HasEdge(g.loop, e) ensures Implied(g.edges, e) {
      var w := [e];
      assert w[1..] == [];
      assert EdgeWalk(g.edges, w[1..], e.to, e.to);
      assert Crossings(w) == Cross(e) + Crossings(w[1..]);
      assert EdgeWalk(g.edges, w, e.from, e.to);
    }
  }

  // ---------------------------------------------------------------------------------------------
  // The invariant

  /** What the edge has made available to its target: the recorded execution counts for a cross edge. */
  function Avail(g: Graph, s: State, e: nat): nat
    requires Sized(g, s) && e < |g.edges|
  {
    s.sent[e] + Cross(g.edges[e])
  }

  /** The decrements that the source of the edge has been due so far. */
  function Due(g: Graph, s: State, e: nat): int
    requires Sized(g, s) && LoopSized(g) && e < |g.edges|
  {
    var d := Done(g, s, g.edges[e].from);
    if g.edges[e].cross && d == g.rounds then d - 1 else d
  }

  /** The edges into the task, among the first `n`, that have not yet arrived for its next execution. */
  function Missing(g: Graph, s: State, n: nat, t: nat): nat
    requires Sized(g, s) && n <= |g.edges| && t < g.loop.size
  {
    if n == 0 then 0
    else Missing(g, s, n - 1, t) + (if g.edges[n - 1].to == t && Avail(g, s, n - 1) <= Done(g, s, t) then 1 else 0)
  }

  ghost predicate EdgeInv(g: Graph, s: State, e: nat)
    requires Sized(g, s) && LoopSized(g) && e < |g.edges|
  {
    && s.sent[e] + s.pending[e] == Due(g, s, e)
    && Done(g, s, g.edges[e].to) <= Avail(g, s, e)
  }

  ghost predicate TaskInv(g: Graph, s: State, t: nat)
    requires Sized(g, s) && t < g.loop.size
  {
    && 0 <= Done(g, s, t) <= g.rounds
    && (Done(g, s, t) < g.rounds ==> s.pred[t] == (if s.guard[t] then 1 else 0) + Missing(g, s, |g.edges|, t))
    && (Done(g, s, t) == g.rounds ==> !s.guard[t] && s.pred[t] == 0)
    && (t in s.ready <==> Done(g, s, t) < g.rounds && s.pred[t] == 0)
  }

  ghost predicate Inv(g: Graph, s: State) {
    && LoopSized(g) && Sized(g, s)
    && (forall e :: 0 <= e < |g.edges| ==> EdgeInv(g, s, e))
    && (forall t :: 0 <= t < g.loop.size ==> TaskInv(g, s, t))
  }

  // ---------------------------------------------------------------------------------------------
  // No task runs ahead

  /** A walk bounds how far its end can be ahead of its start. */
  lemma {:induction false} WalkBounds(g: Graph, s: State, w: seq<Edge>, from: nat, to: nat)
    requires Inv(g, s) && EdgeWalk(g.edges, w, from, to) && from < g.loop.size && to < g.loop.size
    ensures Done(g, s, to) <= Done(g, s, from) + Crossings(w)
    decreases |w|
  {
    if w != [] {
      var e :| 0 <= e < |g.edges| && g.edges[e] == w[0];
      assert EdgeInv(g, s, e);
      WalkBounds(g, s, w[1..], w[0].to, to);
    }
  }

  lemma DependencyBounds(g: Graph, s: State, e: Edge)
    requires GraphOk(g) && Inv(g, s) && HasEdge(g.loop, e)
    ensures e.from < g.loop.size && e.to < g.loop.size
    ensures Done(g, s, e.to) <= Done(g, s, e.from) + Cross(e)
  {
    var a, i: nat, j: nat :| a in g.loop.chains && ChainEdge(g.loop.chains[a], e, i, j);
    var w: seq<Edge> :| EdgeWalk(g.edges, w, e.from, e.to) && Crossings(w) == Cross(e);
    WalkBounds(g, s, w, e.from, e.to);
  }

  lemma {:induction false} LoopWalkBounds(g: Graph, s: State, w: seq<Edge>, from: nat, to: nat)
    requires GraphOk(g) && Inv(g, s) && Walk(g.loop, w, from, to) && from < g.loop.size && to < g.loop.size
    ensures Done(g, s, to) <= Done(g, s, from) + Crossings(w)
    decreases |w|
  {
    if w != [] {
      DependencyBounds(g, s, w[0]);
      LoopWalkBounds(g, s, w[1..], w[0].to, to);
    }
  }

  /** No predecessor runs two iterations ahead: an edge never offers more than the next execution needs, because the
      graph leads back from its target to its source across one iteration boundary. */
  lemma NeverTwoAhead(g: Graph, s: State, e: nat)
    requires GraphOk(g) && Inv(g, s) && e < |g.edges|
    ensures Avail(g, s, e) + s.pending[e] <= Done(g, s, g.edges[e].to) + 1
    ensures Avail(g, s, e) + s.pending[e] <= g.rounds
  {
    var x := g.edges[e];
    assert HasEdge(g.loop, x) && EdgeInv(g, s, e) && TaskInv(g, s, x.from);
    var w := EdgeOnCycle(g.loop, x);
    LoopWalkBounds(g, s, w, x.to, x.from);
  }

  // ---------------------------------------------------------------------------------------------
  // Every step keeps the invariant

  lemma {:induction false} MissingSame(g: Graph, s: State, s': State, n: nat, t: nat)
    requires Sized(g, s) && Sized(g, s') && n <= |g.edges| && t < g.loop.size
    requires s'.count[t] == s.count[t]
    requires forall e :: 0 <= e < n && g.edges[e].to == t ==> s'.sent[e] == s.sent[e]
    ensures Missing(g, s', n, t) == Missing(g, s, n, t)
  {
    if n > 0 { MissingSame(g, s, s', n - 1, t); }
  }

  lemma {:induction false} MissingOneLess(g: Graph, s: State, s': State, n: nat, t: nat, x: nat)
    requires Sized(g, s) && Sized(g, s') && x < n <= |g.edges| && t < g.loop.size
    requires s'.count == s.count && s'.sent == s.sent[x := s.sent[x] + 1]
    requires g.edges[x].to == t && Avail(g, s, x) == Done(g, s, t)
    ensures Missing(g, s', n, t) == Missing(g, s, n, t) - 1
  {
    if n - 1 == x { MissingSame(g, s, s', n - 1, t); } else { MissingOneLess(g, s, s', n - 1, t, x); }
  }

  /** After an execution every edge into the task is missing. */
  lemma {:induction false} MissingAll(g: Graph, s: State, n: nat, t: nat)
    requires Sized(g, s) && n <= |g.edges| && t < g.loop.size
    requires forall e :: 0 <= e < n && g.edges[e].to == t ==> Avail(g, s, e) == Done(g, s, t)
    ensures Missing(g, s, n, t) == InDegree(g.edges, n, t, true)
  {
    if n > 0 { MissingAll(g, s, n - 1, t); }
  }

  lemma {:induction false} NoneMissing(g: Graph, s: State, n: nat, t: nat, e: nat)
    requires Sized(g, s) && e < n <= |g.edges| && t < g.loop.size
    requires Missing(g, s, n, t) == 0 && g.edges[e].to == t
    ensures Avail(g, s, e) > Done(g, s, t)
  {
    if e < n - 1 { NoneMissing(g, s, n - 1, t, e); }
  }

  lemma {:induction false} SomeIsMissing(g: Graph, s: State, n: nat, t: nat, e: nat)
    requires Sized(g, s) && e < n <= |g.edges| && t < g.loop.size
    requires g.edges[e].to == t && Avail(g, s, e) <= Done(g, s, t)
    ensures Missing(g, s, n, t) > 0
  {
    if e < n - 1 { SomeIsMissing(g, s, n - 1, t, e); }
  }

  lemma {:induction false} MissingAtStart(g: Graph, n: nat, t: nat)
    requires n <= |g.edges| && t < g.loop.size
    ensures Missing(g, Start(g), n, t) == InDegree(g.edges, n, t, false)
  {
    if n > 0 { MissingAtStart(g, n - 1, t); }
  }

  lemma StartInv(g: Graph)
    requires GraphOk(g)
    ensures Inv(g, Start(g))
  {
    EdgesInside(g);
    forall t | 0 <= t < g.loop.size ensures TaskInv(g, Start(g), t) { MissingAtStart(g, |g.edges|, t); }
  }

  /** A submitted task finds every edge into it arrived for exactly its next execution. */
  lemma ReadyHasAll(g: Graph, s: State, t: nat, e: nat)
    requires GraphOk(g) && Inv(g, s) && t in s.ready && t < g.loop.size && e < |g.edges| && g.edges[e].to == t
    ensures Avail(g, s, e) == Done(g, s, t) + 1
  {
    assert TaskInv(g, s, t);
    NoneMissing(g, s, |g.edges|, t, e);
    NeverTwoAhead(g, s, e);
  }

  lemma GuardKeepsInv(g: Graph, s: State, t: nat)
    requires GraphOk(g) && Inv(g, s) && Enabled(g, s, RemoveGuard(t))
    ensures Inv(g, Next(g, s, RemoveGuard(t)))
  {
    var s' := Next(g, s, RemoveGuard(t));
    assert TaskInv(g, s, t);
    forall e | 0 <= e < |g.edges| ensures EdgeInv(g, s', e) { assert EdgeInv(g, s, e); }
    forall u | 0 <= u < g.loop.size ensures TaskInv(g, s', u) {
      assert TaskInv(g, s, u);
      MissingSame(g, s, s', |g.edges|, u);
    }
  }

  lemma DeliverKeepsInv(g: Graph, s: State, e: nat)
    requires GraphOk(g) && Inv(g, s) && Enabled(g, s, Deliver(e))
    ensures Inv(g, Next(g, s, Deliver(e)))
  {
    var s' := Next(g, s, Deliver(e));
    var t := g.edges[e].to;
    NeverTwoAhead(g, s, e);
    assert EdgeInv(g, s, e) && TaskInv(g, s, t);
    MissingOneLess(g, s, s', |g.edges|, t, e);
    forall f | 0 <= f < |g.edges| ensures EdgeInv(g, s', f) { assert EdgeInv(g, s, f); }
    forall u | 0 <= u < g.loop.size ensures TaskInv(g, s', u) {
      assert TaskInv(g, s, u);
      if u != t { MissingSame(g, s, s', |g.edges|, u); }
    }
  }

  lemma CompleteKeepsInv(g: Graph, s: State, t: nat)
    requires GraphOk(g) && Inv(g, s) && Enabled(g, s, Complete(t))
    ensures Inv(g, Next(g, s, Complete(t)))
  {
    var s' := Next(g, s, Complete(t));
    assert TaskInv(g, s, t);
    forall e | 0 <= e < |g.edges| ensures EdgeInv(g, s', e) {
      assert EdgeInv(g, s, e);
      if g.edges[e].to == t { ReadyHasAll(g, s, t, e); }
    }
    forall u | 0 <= u < g.loop.size ensures TaskInv(g, s', u) {
      assert TaskInv(g, s, u);
      if u != t {
        MissingSame(g, s, s', |g.edges|, u);
      } else {
        forall e | 0 <= e < |g.edges| && g.edges[e].to == t ensures Avail(g, s', e) == Done(g, s', t) {
          ReadyHasAll(g, s, t, e);
        }
        MissingAll(g, s', |g.edges|, t);
      }
    }
  }

  lemma StepInv(g: Graph, s: State, step: Step)
    requires GraphOk(g) && Inv(g, s) && Enabled(g, s, step)
    ensures Inv(g, Next(g, s, step))
  {
    match step
    case RemoveGuard(t) => GuardKeepsInv(g, s, t);
    case Complete(t) => CompleteKeepsInv(g, s, t);
    case Deliver(e) => DeliverKeepsInv(g, s, e);
  }

  // ---------------------------------------------------------------------------------------------
  // Runs

  /** The steps can be taken one after the other. */
  ghost predicate CanRun(g: Graph, s: State, run: seq<Step>)
    requires GraphOk(g) && Inv(g, s)
    decreases |run|
  {
    run != [] ==> Enabled(g, s, run[0]) && (StepInv(g, s, run[0]); CanRun(g, Next(g, s, run[0]), run[1..]))
  }

  ghost function Run(g: Graph, s: State, run: seq<Step>): (r: State)
    requires GraphOk(g) && Inv(g, s) && CanRun(g, s, run)
    ensures Inv(g, r)
    decreases |run|
  {
    if run == [] then s else StepInv(g, s, run[0]); Run(g, Next(g, s, run[0]), run[1..])
  }

  /** A run of the loop from its start, and the state it leads to. */
  ghost predicate Execution(g: Graph, run: seq<Step>)
    requires GraphOk(g)
  {
    StartInv(g); CanRun(g, Start(g), run)
  }

  ghost function After(g: Graph, run: seq<Step>): (s: State)
    requires GraphOk(g) && Execution(g, run)
    ensures Inv(g, s)
  {
    StartInv(g); Run(g, Start(g), run)
  }

  /** How often the step occurs. */
  function Count(run: seq<Step>, step: Step): nat {
    if run == [] then 0 else (if run[0] == step then 1 else 0) + Count(run[1..], step)
  }

  /** The executions and the decrements of a run are what the counters say. */
  lemma {:induction false} CountersCount(g: Graph, s: State, run: seq<Step>, t: nat, e: nat)
    requires GraphOk(g) && Inv(g, s) && CanRun(g, s, run) && t < g.loop.size
    ensures Done(g, Run(g, s, run), t) == Done(g, s, t) + Count(run, Complete(t))
    ensures e < |g.edges| ==> Run(g, s, run).sent[e] == s.sent[e] + Count(run, Deliver(e))
    decreases |run|
  {
    if run != [] {
      StepInv(g, s, run[0]);
      CountersCount(g, Next(g, s, run[0]), run[1..], t, e);
    }
  }

  lemma ExecutionCounts(g: Graph, run: seq<Step>, t: nat, e: nat)
    requires GraphOk(g) && Execution(g, run) && t < g.loop.size
    ensures Done(g, After(g, run), t) == Count(run, Complete(t)) <= g.rounds
    ensures e < |g.edges| ==> After(g, run).sent[e] == Count(run, Deliver(e))
  {
    StartInv(g);
    CountersCount(g, Start(g), run, t, e);
    assert TaskInv(g, After(g, run), t);
  }

  /** Between two executions of a task every edge into it contributes exactly one decrement. */
  lemma OneDecrementPerEdge(g: Graph, s: State, t: nat, run: seq<Step>, e: nat)
    requires GraphOk(g) && Inv(g, s) && Enabled(g, s, Complete(t))
    requires CanRun(g, s, [Complete(t)] + run) && Count(run, Complete(t)) == 0
    requires t in Run(g, s, [Complete(t)] + run).ready
    requires e < |g.edges| && g.edges[e].to == t
    ensures Count(run, Deliver(e)) == 1
  {
    var all := [Complete(t)] + run;
    assert all[0] == Complete(t) && all[1..] == run;
    StepInv(g, s, all[0]);
    var s' := Next(g, s, all[0]);
    var r := Run(g, s', run);
    assert r == Run(g, s, all);
    CountersCount(g, s', run, t, e);
    ReadyHasAll(g, s, t, e);
    ReadyHasAll(g, r, t, e);
  }

  /** The first execution waits for one decrement along every body edge and for none along a cross edge, which the
      recorded execution has satisfied. */
  lemma FirstExecution(g: Graph, run: seq<Step>, t: nat, e: nat)
    requires GraphOk(g) && Execution(g, run) && Count(run, Complete(t)) == 0
    requires t < g.loop.size && t in After(g, run).ready && e < |g.edges| && g.edges[e].to == t
    ensures Count(run, Deliver(e)) == (if g.edges[e].cross then 0 else 1)
  {
    ExecutionCounts(g, run, t, e);
    ReadyHasAll(g, After(g, run), t, e);
  }

  /** The shared counter never goes negative, never holds tokens of two iterations, and a task is submitted only by the
      decrement that brings its counter to zero, never while it is submitted already. */
  lemma CounterIsExact(g: Graph, s: State, step: Step, t: nat)
    requires GraphOk(g) && Inv(g, s) && Enabled(g, s, step) && t < g.loop.size
    ensures Next(g, s, step).pred[t] >= 0
    ensures Done(g, s, t) < g.rounds ==> s.pred[t] == (if s.guard[t] then 1 else 0) + Missing(g, s, |g.edges|, t)
    ensures step.Deliver? && g.edges[step.edge].to == t
            ==> s.pred[t] >= 1 && t !in s.ready && Done(g, s, t) < g.rounds && Avail(g, s, step.edge) == Done(g, s, t)
    ensures step == RemoveGuard(t) ==> s.pred[t] >= 1 && t !in s.ready
    ensures t in Next(g, s, step).ready && t !in s.ready ==> Next(g, s, step).pred[t] == 0 && !step.Complete?
  {
    StepInv(g, s, step);
    assert TaskInv(g, s, t) && TaskInv(g, Next(g, s, step), t);
    if step.Deliver? && g.edges[step.edge].to == t {
      NeverTwoAhead(g, s, step.edge);
      assert EdgeInv(g, s, step.edge);
      SomeIsMissing(g, s, |g.edges|, t, step.edge);
    }
  }

  // ---------------------------------------------------------------------------------------------
  // The order of the program

  /** The execution has been submitted. Iteration zero is the recorded one. */
  predicate Started(g: Graph, s: State, x: Instance)
    requires Sized(g, s) && x.task < g.loop.size
  {
    x.iter <= Done(g, s, x.task) || (x.iter == Done(g, s, x.task) + 1 && x.task in s.ready)
  }

  predicate Completed(g: Graph, s: State, x: Instance)
    requires Sized(g, s) && x.task < g.loop.size
  {
    x.iter <= Done(g, s, x.task)
  }

  /** What has arrived along a walk by the time its end is submitted. */
  lemma {:induction false} StartedAfterWalk(g: Graph, s: State, w: seq<Edge>, from: nat, to: nat)
    requires GraphOk(g) && Inv(g, s) && EdgeWalk(g.edges, w, from, to) && w != []
    requires from < g.loop.size && to < g.loop.size && to in s.ready
    ensures Done(g, s, to) + 1 <= Done(g, s, from) + Crossings(w)
    decreases |w|
  {
    var e :| 0 <= e < |g.edges| && g.edges[e] == w[0];
    EdgesInside(g);
    assert EdgeInv(g, s, e);
    if |w| == 1 {
      assert w[1..] == [];
      ReadyHasAll(g, s, to, e);
    } else {
      StartedAfterWalk(g, s, w[1..], w[0].to, to);
    }
  }

  lemma LinkCompletes(g: Graph, s: State, x: Instance, y: Instance)
    requires GraphOk(g) && Inv(g, s) && UnrolledLink(g.loop, x, y)
    requires y.task < g.loop.size && Started(g, s, y)
    ensures x.task < g.loop.size && Completed(g, s, x)
  {
    var e := if x.iter == y.iter && HasEdge(g.loop, Edge(x.task, y.task, false)) then Edge(x.task, y.task, false)
             else Edge(x.task, y.task, true);
    DependencyBounds(g, s, e);
    if !Completed(g, s, y) {
      var w: seq<Edge> :| EdgeWalk(g.edges, w, e.from, e.to) && Crossings(w) == Cross(e);
      if w == [] {
        LoopEdgeNotLocal(g.loop, e);
      } else {
        StartedAfterWalk(g, s, w, e.from, e.to);
      }
    }
  }

  /** An edge from a task to itself is a cross edge. */
  lemma LoopEdgeNotLocal(loop: Loop, e: Edge)
    requires LoopOk(loop) && HasEdge(loop, e) && !e.cross
    ensures e.from < e.to
  {
    var a, i: nat, j: nat :| a in loop.chains && ChainEdge(loop.chains[a], e, i, j);
    NeighboursConflict(loop.chains[a].kinds, i, j);
  }

  lemma {:induction false} PathCompletes(g: Graph, s: State, n: nat, p: seq<Instance>)
    requires GraphOk(g) && Inv(g, s) && |p| >= 2 && Path(g.loop, false, n, p)
    requires p[|p| - 1].task < g.loop.size && Started(g, s, p[|p| - 1])
    ensures p[0].task < g.loop.size && Completed(g, s, p[0])
    decreases |p|
  {
    hide Inv, Path, UnrolledLink;
    PathSplits(g.loop, n, p);
    LinkCompletes(g, s, p[|p| - 2], p[|p| - 1]);
    if |p| > 2 { PathCompletes(g, s, n, p[..|p| - 1]); }
  }

  lemma PathSplits(loop: Loop, n: nat, p: seq<Instance>)
    requires LoopOk(loop) && |p| >= 2 && Path(loop, false, n, p)
    ensures UnrolledLink(loop, p[|p| - 2], p[|p| - 1]) && Path(loop, false, n, p[..|p| - 1])
  {
    var q := p[..|p| - 1];
    assert Link(loop, false, p[|p| - 2], p[|p| - 1]);
    forall i | 0 <= i < |q| - 1 ensures Link(loop, false, q[i], q[i + 1]) {
      assert Link(loop, false, p[i], p[i + 1]);
    }
  }

  /** Whatever the threads do, an execution is submitted only when every execution that the sequential program orders
      before it, in any iteration, has completed. */
  lemma ProgramOrderIsKept(g: Graph, s: State, x: Instance, y: Instance)
    requires GraphOk(g) && Inv(g, s) && Reaches(g.loop, true, g.rounds + 1, x, y)
    requires y.task < g.loop.size && Started(g, s, y)
    ensures x.task < g.loop.size && Completed(g, s, x)
  {
    UnrollingPreservesOrder(g.loop, g.rounds + 1, x, y);
    var p: seq<Instance> :| |p| >= 2 && p[0] == x && p[|p| - 1] == y && Path(g.loop, false, g.rounds + 1, p);
    PathCompletes(g, s, g.rounds + 1, p);
  }

  // ---------------------------------------------------------------------------------------------
  // Progress

  ghost predicate Stuck(g: Graph, s: State)
    requires Sized(g, s)
  {
    forall step :: !Enabled(g, s, step)
  }

  lemma {:induction false} SomeMissing(g: Graph, s: State, n: nat, t: nat) returns (e: nat)
    requires Sized(g, s) && n <= |g.edges| && t < g.loop.size && Missing(g, s, n, t) > 0
    ensures e < n && g.edges[e].to == t && Avail(g, s, e) <= Done(g, s, t)
  {
    if g.edges[n - 1].to == t && Avail(g, s, n - 1) <= Done(g, s, t) {
      e := n - 1;
    } else {
      e := SomeMissing(g, s, n - 1, t);
    }
  }

  /** A task that waits for ever would wait for an earlier execution that waits for ever. */
  lemma {:induction false} StuckTaskIsDone(g: Graph, s: State, t: nat)
    requires GraphOk(g) && Inv(g, s) && Stuck(g, s) && t < g.loop.size
    ensures Done(g, s, t) == g.rounds
    decreases Done(g, s, t), t
  {
    assert TaskInv(g, s, t);
    if Done(g, s, t) < g.rounds {
      assert !Enabled(g, s, Complete(t)) && !Enabled(g, s, RemoveGuard(t));
      var e := SomeMissing(g, s, |g.edges|, t);
      var x := g.edges[e];
      assert !Enabled(g, s, Deliver(e)) && EdgeInv(g, s, e) && TaskInv(g, s, x.from) && HasEdge(g.loop, x);
      if !x.cross { LoopEdgeNotLocal(g.loop, x); }
      StuckTaskIsDone(g, s, x.from);
    }
  }

  /** Each step makes progress by one. */
  function Work(g: Graph, s: State, n: nat, m: nat): int
    requires Sized(g, s) && n <= g.loop.size && m <= |g.edges|
  {
    if n > 0 then Work(g, s, n - 1, m) + (if s.guard[n - 1] then 1 else 0) + (g.rounds - Done(g, s, n - 1))
    else if m > 0 then Work(g, s, n, m - 1) + (g.rounds - Cross(g.edges[m - 1]) - s.sent[m - 1])
    else 0
  }

  /** The work before the first step: guards, executions and decrements. */
  function TotalWork(g: Graph): int {
    g.loop.size * (1 + g.rounds) + |g.edges| * g.rounds - CrossEdges(g.edges, |g.edges|)
  }

  function CrossEdges(edges: seq<Edge>, n: nat): nat
    requires n <= |edges|
  {
    if n == 0 then 0 else CrossEdges(edges, n - 1) + Cross(edges[n - 1])
  }

  lemma {:induction false} WorkAtStart(g: Graph, n: nat, m: nat)
    requires n <= g.loop.size && m <= |g.edges|
    ensures Work(g, Start(g), n, m) == n * (1 + g.rounds) + m * g.rounds - CrossEdges(g.edges, m)
  {
    if n > 0 {
      WorkAtStart(g, n - 1, m);
      assert n * (1 + g.rounds) == (n - 1) * (1 + g.rounds) + 1 + g.rounds;
    } else if m > 0 {
      WorkAtStart(g, n, m - 1);
      assert m * g.rounds == (m - 1) * g.rounds + g.rounds;
    }
  }

  lemma {:induction false} WorkDecreases(g: Graph, s: State, step: Step, n: nat, m: nat)
    requires LoopSized(g) && Sized(g, s) && Enabled(g, s, step) && n <= g.loop.size && m <= |g.edges|
    ensures Work(g, Next(g, s, step), n, m) == Work(g, s, n, m) - (if step.Deliver? then (if step.edge < m then 1
            else 0) else if step.task < n then 1 else 0)
  {
    if n > 0 { WorkDecreases(g, s, step, n - 1, m); } else if m > 0 { WorkDecreases(g, s, step, n, m - 1); }
  }

  lemma {:induction false} WorkIsLeft(g: Graph, s: State, n: nat, m: nat)
    requires GraphOk(g) && Inv(g, s) && n <= g.loop.size && m <= |g.edges|
    ensures Work(g, s, n, m) >= 0
  {
    if n > 0 {
      assert TaskInv(g, s, n - 1);
      WorkIsLeft(g, s, n - 1, m);
    } else if m > 0 {
      WorkIsLeft(g, s, n, m - 1);
      var e := m - 1;
      assert EdgeInv(g, s, e) && TaskInv(g, s, g.edges[e].from);
    }
  }

  lemma {:induction false} RunUsesWork(g: Graph, s: State, run: seq<Step>)
    requires GraphOk(g) && Inv(g, s) && CanRun(g, s, run)
    ensures |run| + Work(g, Run(g, s, run), g.loop.size, |g.edges|) == Work(g, s, g.loop.size, |g.edges|)
    decreases |run|
  {
    if run != [] {
      WorkDecreases(g, s, run[0], g.loop.size, |g.edges|);
      StepInv(g, s, run[0]);
      RunUsesWork(g, Next(g, s, run[0]), run[1..]);
    }
  }

  lemma NoWorkIsStuck(g: Graph, s: State)
    requires GraphOk(g) && Inv(g, s) && Work(g, s, g.loop.size, |g.edges|) == 0
    ensures Stuck(g, s)
  {
    forall step | Enabled(g, s, step) ensures false {
      WorkDecreases(g, s, step, g.loop.size, |g.edges|);
      StepInv(g, s, step);
      WorkIsLeft(g, Next(g, s, step), g.loop.size, |g.edges|);
    }
  }

  lemma {:induction false} AllDoneIsNoWork(g: Graph, s: State, n: nat, m: nat)
    requires GraphOk(g) && Inv(g, s) && n <= g.loop.size && m <= |g.edges|
    requires forall t :: 0 <= t < g.loop.size ==> Done(g, s, t) == g.rounds
    ensures Work(g, s, n, m) == 0
  {
    if n > 0 {
      assert TaskInv(g, s, n - 1);
      AllDoneIsNoWork(g, s, n - 1, m);
    } else if m > 0 {
      var e := m - 1;
      assert EdgeInv(g, s, e);
      NeverTwoAhead(g, s, e);
      AllDoneIsNoWork(g, s, n, m - 1);
    }
  }

  lemma ExecutionWork(g: Graph, run: seq<Step>)
    requires GraphOk(g) && Execution(g, run)
    ensures |run| <= TotalWork(g)
    ensures |run| == TotalWork(g) <==> Work(g, After(g, run), g.loop.size, |g.edges|) == 0
    ensures |run| == TotalWork(g) ==> Stuck(g, After(g, run))
  {
    StartInv(g);
    WorkAtStart(g, g.loop.size, |g.edges|);
    RunUsesWork(g, Start(g), run);
    WorkIsLeft(g, After(g, run), g.loop.size, |g.edges|);
    if |run| == TotalWork(g) { NoWorkIsStuck(g, After(g, run)); }
  }

  lemma AllExecutedIsNoWork(g: Graph, run: seq<Step>)
    requires GraphOk(g) && Execution(g, run)
    requires forall t :: 0 <= t < g.loop.size ==> Count(run, Complete(t)) == g.rounds
    ensures |run| == TotalWork(g)
  {
    var s := After(g, run);
    forall t | 0 <= t < g.loop.size ensures Done(g, s, t) == g.rounds {
      ExecutionCounts(g, run, t, |g.edges|);
      assert Count(run, Complete(t)) == g.rounds;
    }
    AllDoneIsNoWork(g, s, g.loop.size, |g.edges|);
    ExecutionWork(g, run);
  }

  /** The counted loop: no run is longer than the total work; a run can stop only when every task has executed in every
      iteration, and then nothing is left in flight and the run had exactly that length. */
  lemma EveryTaskRunsInEveryIteration(g: Graph, run: seq<Step>)
    requires GraphOk(g) && Execution(g, run)
    ensures |run| <= TotalWork(g)
    ensures forall t :: 0 <= t < g.loop.size ==> Count(run, Complete(t)) <= g.rounds
    ensures Stuck(g, After(g, run)) <==> |run| == TotalWork(g)
    ensures Stuck(g, After(g, run)) <==> forall t :: 0 <= t < g.loop.size ==> Count(run, Complete(t)) == g.rounds
  {
    ExecutionWork(g, run);
    forall t | 0 <= t < g.loop.size ensures Count(run, Complete(t)) <= g.rounds {
      ExecutionCounts(g, run, t, |g.edges|);
    }
    if Stuck(g, After(g, run)) {
      forall t | 0 <= t < g.loop.size ensures Count(run, Complete(t)) == g.rounds {
        ExecutionCounts(g, run, t, |g.edges|);
        StuckTaskIsDone(g, After(g, run), t);
      }
    }
    if forall t :: 0 <= t < g.loop.size ==> Count(run, Complete(t)) == g.rounds {
      AllExecutedIsNoWork(g, run);
    }
  }
}
