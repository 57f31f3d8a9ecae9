/** Delayed release: a task that was created with a wait clause keeps its accesses until everything below it has
    finished, and no other task does. */
module TaskRelease {
  import opened AccessFlags
  import opened TaskTree
  import opened TaskTreeSafety

  /** The step that creates the `k`-th task of the run. */
  function Creation(run: seq<Step>, k: nat): (c: Option<Step>)
    ensures c.Some? ==> c.value.Spawn?
  {
    if run == [] then None
    else if !run[0].Spawn? then Creation(run[1..], k)
    else if k == 0 then Some(run[0])
    else Creation(run[1..], k - 1)
  }

  /** Whether that task is created with a wait clause. */
  function WaitClause(run: seq<Step>, k: nat): Option<bool> {
    match Creation(run, k)
    case Some(c) => Some(c.wait)
    case None => None
  }

  /** What is known of a task that was created with (`w`) or without a wait clause. */
  predicate KnowsClause(t: Task, w: bool) {
    match t.phase
    case Active => t.wait == w
    case Blocked => t.wait == w
    case Resumed => t.wait == w
    case Delayed => w
    case DelayOver => w
    case Finished => w ==> t.wake == 0
    case _ => w ==> t.wake == 1
  }

  /** What a step leaves of what the task was created with: its parent stays, and only the disposal of one of its
      accesses leaves one less. */
  predicate Follows(t: Task, t': Task, w: bool, disposes: bool) {
    KnowsClause(t', w) && t'.parent == t.parent && t'.live == t.live - if disposes then 1 else 0
  }

  lemma ToldKeepsClause(t: Task, t': Task, w: bool)
    requires KnowsClause(t, w) && t.wake > (if Counted(t.phase) then 1 else 0) && t' == Told(t).(walker := t'.walker)
    requires t.phase != Resumed && t.phase != DelayOver
    ensures Follows(t, t', w, false)
  {
  }

  lemma ClimbKeepsClause(ts: seq<Task>, s: nat, t: nat, w: bool)
    requires Inv(ts) && Enabled(ts, Climb(s)) && t < |ts| && KnowsClause(ts[t], w)
    ensures t < |Next(ts, Climb(s))| && Follows(ts[t], Next(ts, Climb(s))[t], w, false)
  {
    hide Inv, Next, Told, ClimbsOn;
    var u := Here(ts, s);
    if ts[u].parent.Some? {
      var walk := ClimbShape(ts, s);
      ClimberUnreported(ts, s);
      ParentWaits(ts, u, ts[u].parent.value);
      if t == ts[u].parent.value { ToldKeepsClause(ts[t], Next(ts, Climb(s))[t], w); }
    } else {
      RootShape(ts, s);
    }
  }

  lemma DisposeKeepsClause(ts: seq<Task>, x: nat, t: nat, w: bool)
    requires Inv(ts) && Enabled(ts, Dispose(x)) && t < |ts| && KnowsClause(ts[t], w)
    ensures t < |Next(ts, Dispose(x))| && Follows(ts[t], Next(ts, Dispose(x))[t], w, false)
  {
    hide Inv, Next;
    DisposeShape(ts, x);
  }

  lemma WorkKeepsClause(ts: seq<Task>, step: Step, t: nat, w: bool)
    requires Inv(ts) && Enabled(ts, step) && t < |ts| && KnowsClause(ts[t], w)
    requires step.EndDelay? || step.Unregister? || step.FinishSelf? || step.DropDelayed? || step.DropOwn?
    ensures t < |Next(ts, step)| && Follows(ts[t], Next(ts, step)[t], w, step == DisposeAccess(t))
  {
    hide CountInv, WalkInv, Above, Children;
    assert LocalInv(ts[t]);
  }

  lemma TaskKeepsClause(ts: seq<Task>, step: Step, t: nat, w: bool)
    requires Inv(ts) && Enabled(ts, step) && t < |ts| && KnowsClause(ts[t], w)
    requires step.Spawn? || step.Block? || step.Unblock? || step.Complete? || step.DisposeAccess?
    ensures t < |Next(ts, step)| && Follows(ts[t], Next(ts, step)[t], w, step == DisposeAccess(t))
  {
    hide CountInv, WalkInv;
    assert LocalInv(ts[t]);
  }

  lemma StepKeepsClause(ts: seq<Task>, step: Step, t: nat, w: bool)
    requires Inv(ts) && Enabled(ts, step) && t < |ts| && KnowsClause(ts[t], w)
    ensures t < |Next(ts, step)| && Follows(ts[t], Next(ts, step)[t], w, step == DisposeAccess(t))
  {
    hide Inv, Next, KnowsClause, Follows;
    match step
    case Climb(s) => ClimbKeepsClause(ts, s, t, w);
    case Dispose(x) => DisposeKeepsClause(ts, x, t, w);
    case Spawn(_, _, _) => TaskKeepsClause(ts, step, t, w);
    case Block(_) => TaskKeepsClause(ts, step, t, w);
    case Unblock(_) => TaskKeepsClause(ts, step, t, w);
    case Complete(_) => TaskKeepsClause(ts, step, t, w);
    case DisposeAccess(_) => TaskKeepsClause(ts, step, t, w);
    case _ => WorkKeepsClause(ts, step, t, w);
  }

  lemma {:induction false} RunKeepsClause(ts: seq<Task>, run: seq<Step>, t: nat, w: bool)
    requires Inv(ts) && CanRun(ts, run) && t < |ts| && KnowsClause(ts[t], w)
    ensures t < |Run(ts, run)| && KnowsClause(Run(ts, run)[t], w)
    ensures Run(ts, run)[t].parent == ts[t].parent && Run(ts, run)[t].live == ts[t].live - Times(run, DisposeAccess(t))
    decreases |run|
  {
    hide Inv, Next, KnowsClause;
    if run != [] {
      StepKeepsClause(ts, run[0], t, w);
      StepInv(ts, run[0]);
      RunKeepsClause(Next(ts, run[0]), run[1..], t, w);
    }
  }

  /** Only creation adds tasks, one at a time. */
  lemma OnlySpawnAdds(ts: seq<Task>, step: Step)
    requires Enabled(ts, step)
    ensures |Next(ts, step)| == |ts| + if step.Spawn? then 1 else 0
    ensures step.Spawn? ==>
              var t := Next(ts, step)[|ts|];
              KnowsClause(t, step.wait) && t.parent == step.parent && t.live == step.accesses
  {
  }

  /** No access of a task is disposed before the task is there. */
  lemma {:induction false} RunKnowsClause(ts: seq<Task>, run: seq<Step>, t: nat)
    requires Inv(ts) && CanRun(ts, run) && |ts| <= t < |Run(ts, run)|
    ensures Creation(run, t - |ts|).Some?
    ensures var c, u := Creation(run, t - |ts|).value, Run(ts, run)[t];
            KnowsClause(u, c.wait) && u.parent == c.parent && u.live + Times(run, DisposeAccess(t)) == c.accesses
    decreases |run|
  {
    hide Inv, Next, KnowsClause;
    if run == [] { return; }
    var ts' := Next(ts, run[0]);
    OnlySpawnAdds(ts, run[0]);
    StepInv(ts, run[0]);
    if t < |ts'| {
      RunKeepsClause(ts', run[1..], t, run[0].wait);
    } else {
      RunKnowsClause(ts', run[1..], t);
    }
  }

  /** A task keeps the parent that it was created with, and has been disposed only after as many of its accesses as it
      was created with. */
  lemma TaskIsAsCreated(run: seq<Step>, t: nat)
    requires CanRun([], run) && t < |Run([], run)|
    ensures Creation(run, t).Some?
    ensures var c, u := Creation(run, t).value, Run([], run)[t];
            && u.parent == c.parent && u.live + Times(run, DisposeAccess(t)) == c.accesses
            && (u.disposed ==> Times(run, DisposeAccess(t)) == c.accesses)
  {
    RunKnowsClause([], run, t);
    DisposedOnceAndInTime(run, t);
  }

  /** A task that was created with a wait clause releases its accesses only when everything below it has finished, and
      by then it cannot create anything more. */
  lemma ReleasesAfterDescendants(run: seq<Step>, s: nat, d: nat)
    requires CanRun([], run)
    requires Enabled(Run([], run), Unregister(s)) && WaitClause(run, Here(Run([], run), s)) == Some(true)
    requires Above(Run([], run), d, Here(Run([], run), s)) && d != Here(Run([], run), s)
    ensures SubtreeDone(Run([], run), d)
  {
    hide Run, CanRun, Above, Creation, LocalInv, WalkInv;
    var ts := Run([], run);
    var t := Here(ts, s);
    RunKnowsClause([], run, t);
    assert CountInv(ts, t);
    ReportedMeansDone(ts, t, d);
  }

  /** What the end of the body does: a task with a wait clause that has children unreported is delayed; any other task
      goes on to release its accesses, at once if it has no wait clause. */
  lemma CompletionByClause(run: seq<Step>, t: nat)
    requires CanRun([], run) && Enabled(Run([], run), Complete(t))
    ensures t < |Next(Run([], run), Complete(t))| && WaitClause(run, t).Some?
    ensures var ts := Run([], run); var u := Next(ts, Complete(t))[t];
            if !WaitClause(run, t).value then u.phase == Releasing && u.walk == At(t)
            else if Children(ts, |ts|, t, false) == 0 then u.phase == DelayOver && u.walk == At(t)
            else u.phase == Delayed && u.walk == NoWalk
  {
    var ts := Run([], run);
    RunKnowsClause([], run, t);
    ActiveIsClean(ts, t);
    assert CountInv(ts, t);
  }
}
