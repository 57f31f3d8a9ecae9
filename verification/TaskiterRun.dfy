/** The runtime's side of the execution of a counted loop: what the thread that unregisters a task does, and the loop
    of a thread that executes submitted tasks in any order until none is left. */
module TaskiterRun {
  import opened TaskiterLoop
  import opened TaskiterExecution

  lemma {:induction false} RunSnoc(g: Graph, s: State, run: seq<Step>, step: Step)
    requires GraphOk(g) && Inv(g, s) && CanRun(g, s, run) && Enabled(g, Run(g, s, run), step)
    ensures CanRun(g, s, run + [step])
    ensures Run(g, s, run + [step]) == (StepInv(g, Run(g, s, run), step); Next(g, Run(g, s, run), step))
    decreases |run|
  {
    var all := run + [step];
    if run == [] {
      assert all[0] == step && all[1..] == [];
      StepInv(g, s, step);
    } else {
      assert all[0] == run[0] && all[1..] == run[1..] + [step];
      StepInv(g, s, run[0]);
      RunSnoc(g, Next(g, s, run[0]), run[1..], step);
    }
  }

  lemma ExecutionSnoc(g: Graph, run: seq<Step>, step: Step)
    requires GraphOk(g) && Execution(g, run) && Enabled(g, After(g, run), step)
    ensures Execution(g, run + [step]) && After(g, run + [step]) == Next(g, After(g, run), step)
  {
    StartInv(g);
    RunSnoc(g, Start(g), run, step);
  }

  /** What the task owes along the edges from `n` on, and nothing else. */
  ghost predicate Owes(g: Graph, s: State, t: nat, keep: bool, n: nat)
    requires Sized(g, s)
  {
    forall e :: 0 <= e < |g.edges| ==>
        s.pending[e] == if n <= e && g.edges[e].from == t && (keep || !g.edges[e].cross) then 1 else 0
  }

  ghost predicate Settled(g: Graph, s: State)
    requires Sized(g, s)
  {
    forall e :: 0 <= e < |g.edges| ==> s.pending[e] == 0
  }

  lemma StartIsSettled(g: Graph)
    requires GraphOk(g)
    ensures Sized(g, Start(g)) && Settled(g, Start(g))
  {
  }

  /** The finished task has satisfied its successors along the edges before `n`, since the state was `was`. */
  ghost predicate Served(g: Graph, was: State, s: State, t: nat, keep: bool, n: nat) {
    && LoopSized(g) && Sized(g, was) && Sized(g, s)
    && s.count == was.count && s.guard == was.guard && Owes(g, s, t, keep, n)
    && forall f :: 0 <= f < |g.edges| ==>
         s.sent[f] == was.sent[f] + if f < n && g.edges[f].from == t && (keep || !g.edges[f].cross) then 1 else 0
  }

  lemma ServesNone(g: Graph, was: State, t: nat)
    requires LoopSized(g) && Sized(g, was) && Enabled(g, was, Complete(t)) && Settled(g, was)
    ensures var s := Next(g, was, Complete(t));
            && Served(g, s, s, t, was.count[t] - 1 > 1, 0)
            && s.count == was.count[t := was.count[t] - 1] && s.guard == was.guard && s.sent == was.sent
  {
  }

  lemma ServesNext(g: Graph, was: State, s: State, t: nat, keep: bool, e: nat)
    requires Served(g, was, s, t, keep, e) && e < |g.edges|
    ensures if g.edges[e].from == t && (keep || !g.edges[e].cross)
            then Enabled(g, s, Deliver(e)) && Served(g, was, Next(g, s, Deliver(e)), t, keep, e + 1)
            else Served(g, was, s, t, keep, e + 1)
  {
  }

  lemma ServedAll(g: Graph, was: State, s: State, t: nat, keep: bool)
    requires Served(g, was, s, t, keep, |g.edges|)
    ensures Sized(g, was) && Sized(g, s) && Settled(g, s) && s.count == was.count && s.guard == was.guard
    ensures forall e :: 0 <= e < |g.edges| ==>
              s.sent[e] == was.sent[e] + if g.edges[e].from == t && (keep || !g.edges[e].cross) then 1 else 0
  {
  }

  class TaskiterRun {
    const g: Graph
    var state: State
    ghost var run: seq<Step>

    ghost predicate Valid()
      reads this
    {
      GraphOk(g) && Execution(g, run) && After(g, run) == state
    }

    constructor (graph: Graph)
      requires GraphOk(graph)
      ensures Valid() && g == graph && run == [] && Settled(g, state)
    {
      g := graph;
      state := Start(graph);
      run := [];
      new;
      StartIsSettled(g);
    }

    /** One atomic step. */
    method Perform(step: Step)
      requires Valid() && Enabled(g, state, step)
      modifies this
      ensures Valid() && run == old(run) + [step] && state == Next(g, old(state), step)
    {
      ExecutionSnoc(g, run, step);
      state := Next(g, state, step);
      run := run + [step];
    }

    /** Unregisters an executed task: counts the iteration, renews the predecessors, and satisfies the successors, those
        of the next iteration only if the task itself runs again. */
    method UnregisterTask(t: nat)
      requires Valid() && t < g.loop.size && t in state.ready && Settled(g, state)
      modifies this
      ensures Valid() && Settled(g, state) && |run| > |old(run)| && run[..|old(run)|] == old(run)
      ensures state.count == old(state.count)[t := old(state.count)[t] - 1] && state.guard == old(state.guard)
      ensures forall e :: 0 <= e < |g.edges| ==>
                state.sent[e] == old(state.sent)[e] + if g.edges[e].from == t
                  && (state.count[t] > 1 || !g.edges[e].cross) then 1 else 0
    {
      hide Served, Next, Owes;
      ServesNone(g, state, t);
      Perform(Complete(t));
      var keep := state.count[t] > 1;
      ghost var was := state;
      for e := 0 to |g.edges|
        invariant Valid() && Served(g, was, state, t, keep, e)
        invariant |run| > |old(run)| && run[..|old(run)|] == old(run)
      {
        ServesNext(g, was, state, t, keep, e);
        if g.edges[e].from == t && (keep || !g.edges[e].cross) {
          Perform(Deliver(e));
        }
      }
      ServedAll(g, was, state, t, keep);
    }

    /** Removes the guard of every task, which submits the tasks without predecessors. */
    method RemoveGuards()
      requires Valid() && run == [] && Settled(g, state)
      modifies this
      ensures Valid() && Settled(g, state) && state.guard == seq(g.loop.size, t => false)
    {
      for t := 0 to g.loop.size
        invariant Valid() && Settled(g, state)
        invariant forall u :: 0 <= u < g.loop.size ==> state.guard[u] == (u >= t)
      {
        Perform(RemoveGuard(t));
      }
    }

    /** Executes submitted tasks, in any order, until there is none: then every task has executed once more in each of
        the remaining iterations. */
    method ExecuteLoop()
      requires Valid() && run == [] && Settled(g, state)
      modifies this
      ensures Valid() && state.ready == {}
      ensures forall t :: 0 <= t < g.loop.size ==> Count(run, Complete(t)) == g.rounds
      ensures |run| == TotalWork(g)
    {
      RemoveGuards();
      while state.ready != {}
        invariant Valid() && Settled(g, state) && state.guard == seq(g.loop.size, t => false)
        decreases TotalWork(g) - |run|
      {
        var t :| t in state.ready;
        ReadyInside(g, state, run, t);
        UnregisterTask(t);
        EveryTaskRunsInEveryIteration(g, run);
      }
      assert Stuck(g, state);
      EveryTaskRunsInEveryIteration(g, run);
    }
  }

  lemma {:induction false} ReadyBelow(g: Graph, s: State, run: seq<Step>)
    requires GraphOk(g) && Inv(g, s) && CanRun(g, s, run) && forall t :: t in s.ready ==> t < g.loop.size
    ensures forall t :: t in Run(g, s, run).ready ==> t < g.loop.size
    decreases |run|
  {
    if run != [] {
      StepInv(g, s, run[0]);
      ReadyBelow(g, Next(g, s, run[0]), run[1..]);
    }
  }

  /** Only tasks of the graph are ever submitted. */
  lemma ReadyInside(g: Graph, s: State, run: seq<Step>, t: nat)
    requires GraphOk(g) && Execution(g, run) && After(g, run) == s && t in s.ready
    ensures t < g.loop.size
  {
    StartInv(g);
    ReadyBelow(g, Start(g), run);
  }
}
