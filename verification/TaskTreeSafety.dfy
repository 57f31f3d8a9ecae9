/** Whole runs of the task tree: nobody proceeds before its descendants have finished, every task is reclaimed exactly
    once and in time, and no walk touches a reclaimed task. */
module TaskTreeSafety {
  import opened AccessFlags
  import opened TaskTree

  ghost predicate CanRun(ts: seq<Task>, run: seq<Step>)
    requires Inv(ts)
    decreases |run|
  {
    run != [] ==> Enabled(ts, run[0]) && (StepInv(ts, run[0]); CanRun(Next(ts, run[0]), run[1..]))
  }

  ghost function Run(ts: seq<Task>, run: seq<Step>): (r: seq<Task>)
    requires Inv(ts) && CanRun(ts, run)
    ensures Inv(r)
    decreases |run|
  {
    if run == [] then ts else StepInv(ts, run[0]); Run(Next(ts, run[0]), run[1..])
  }

  /** Some run from the empty tree leads here. */
  ghost predicate Reachable(ts: seq<Task>) {
    exists run: seq<Step> :: CanRun([], run) && Run([], run) == ts
  }

  lemma ReachableInv(ts: seq<Task>)
    requires Reachable(ts)
    ensures Inv(ts)
  {
    var run: seq<Step> :| CanRun([], run) && Run([], run) == ts;
  }

  /** In every run the two counters are what they should be: the wake-up counter is the number of children that have not
      reported a finished subtree, plus one unless the task is blocked or finished; the removal counter is the number of
      children not yet disposed, plus one for the task itself, plus one while some of its accesses is left. */
  lemma CountersAreExact(ts: seq<Task>, t: nat)
    requires Reachable(ts) && t < |ts|
    ensures ts[t].wake == Children(ts, |ts|, t, false) + (if Counted(ts[t].phase) then 1 else 0) >= 0
    ensures ts[t].removal == Children(ts, |ts|, t, true) + (if ts[t].own then 1 else 0)
                             + (if ts[t].live > 0 || (ts[t].accesses && ts[t].phase != Released
                               && ts[t].phase != Finished) then 1 else 0)
  {
    ReachableInv(ts);
    assert CountInv(ts, t) && LocalInv(ts[t]);
  }

  // ---------------------------------------------------------------------------------------------
  // Nobody proceeds early

  /** The task and all below it have finished and told their parents. */
  predicate SubtreeDone(ts: seq<Task>, d: nat) {
    d < |ts| && ts[d].phase == Finished && ts[d].wake == 0
  }

  /** Below a task whose children have all reported everything has finished. */
  lemma {:induction false} ReportedMeansDone(ts: seq<Task>, t: nat, d: nat)
    requires Inv(ts) && t < |ts| && Children(ts, |ts|, t, false) == 0 && Above(ts, d, t) && d != t
    ensures SubtreeDone(ts, d) && ts[d].reported
    decreases d
  {
    var q := ts[d].parent.value;
    if q != t {
      ReportedMeansDone(ts, t, q);
      assert CountInv(ts, q);
    }
    assert LocalInv(ts[d]);
    if !ts[d].reported { ChildCounts(ts, |ts|, q, false, d); }
  }

  /** Below a task whose counter is zero everything has finished. */
  lemma ZeroMeansDone(ts: seq<Task>, t: nat, d: nat)
    requires Inv(ts) && t < |ts| && ts[t].wake == 0 && Above(ts, d, t) && d != t
    ensures SubtreeDone(ts, d) && ts[d].reported
  {
    assert CountInv(ts, t);
    ReportedMeansDone(ts, t, d);
  }

  /** A taskwait returns, and a task with delayed release gives up its accesses, only after all descendants have
      finished. The counter is then zero, as the code asserts. */
  lemma WaitsForDescendants(ts: seq<Task>, step: Step, t: nat, d: nat)
    requires Reachable(ts) && Enabled(ts, step) && t < |ts|
    requires step == Unblock(t) || (step.EndDelay? && Here(ts, step.task) == t)
    requires Above(ts, d, t) && d != t
    ensures ts[t].wake == 0 && SubtreeDone(ts, d)
  {
    ReachableInv(ts);
    assert LocalInv(ts[t]);
    ZeroMeansDone(ts, t, d);
  }

  /** A task tells its parent that it has finished only when everything below it has. */
  lemma ReportsWholeSubtree(ts: seq<Task>, s: nat, d: nat)
    requires Reachable(ts) && Enabled(ts, Climb(s)) && Above(ts, d, Here(ts, s))
    ensures SubtreeDone(ts, d) && !ts[Here(ts, s)].reported
  {
    ReachableInv(ts);
    var u := Here(ts, s);
    assert WalkInv(ts, s) && LocalInv(ts[u]);
    if d != u { ZeroMeansDone(ts, u, d); }
  }

  /** A delayed task that a walk releases has nothing left to wait for: giving up its own count brings it to zero. Its
      removal count stays positive while the walk goes on. */
  lemma DelayedFinishesAtOnce(ts: seq<Task>, s: nat)
    requires Reachable(ts)
    ensures Enabled(ts, FinishSelf(s)) && Here(ts, s) != s ==> ts[Here(ts, s)].wake == 1
    ensures Enabled(ts, DropDelayed(s)) ==> Here(ts, s) != s && ts[Here(ts, s)].removal > 1
  {
    ReachableInv(ts);
    if Walking(ts, s) {
      WalkedTask(ts, s);
      assert WalkInv(ts, s);
    }
  }

  // ---------------------------------------------------------------------------------------------
  // Exactly one resumption per taskwait

  /** How often the run blocks the task, resumes it, and ends its taskwait. */
  function Times(run: seq<Step>, step: Step): nat {
    if run == [] then 0 else (if run[0] == step then 1 else 0) + Times(run[1..], step)
  }

  ghost function Resumptions(ts: seq<Task>, run: seq<Step>, t: nat): nat
    requires Inv(ts) && CanRun(ts, run)
    decreases |run|
  {
    if run == [] then 0
    else
      StepInv(ts, run[0]);
      var ts' := Next(ts, run[0]);
      (if ResumedBy(ts, ts', t) then 1 else 0) + Resumptions(ts', run[1..], t)
  }

  function IsPhase(ts: seq<Task>, t: nat, phase: Phase): nat {
    if t < |ts| && ts[t].phase == phase then 1 else 0
  }

  /** The task was resumed by the step. */
  predicate ResumedBy(ts: seq<Task>, ts': seq<Task>, t: nat) {
    t < |ts| && t < |ts'| && ts[t].phase != Resumed && ts'[t].phase == Resumed
  }

  /** A step moves a task from blocked to resumed to active, and nowhere else. */
  predicate WaitMoves(ts: seq<Task>, step: Step, ts': seq<Task>, t: nat) {
    var resumed := if ResumedBy(ts, ts', t) then 1 else 0;
    && IsPhase(ts', t, Blocked) - IsPhase(ts, t, Blocked) == (if step == Block(t) then 1 else 0) - resumed
    && IsPhase(ts', t, Resumed) - IsPhase(ts, t, Resumed) == resumed - (if step == Unblock(t) then 1 else 0)
    && (resumed == 1 ==> step == Block(t) || (step.Climb? && ts[t].phase == Blocked))
  }

  lemma ClimberUnreported(ts: seq<Task>, s: nat)
    requires Inv(ts) && Enabled(ts, Climb(s))
    ensures !ts[Here(ts, s)].reported
  {
    assert WalkInv(ts, s) && LocalInv(ts[Here(ts, s)]);
  }

  lemma ReportMoves(ts: seq<Task>, s: nat, t: nat)
    requires Inv(ts) && Enabled(ts, Climb(s)) && ts[Here(ts, s)].parent.Some?
    ensures WaitMoves(ts, Climb(s), Next(ts, Climb(s)), t)
  {
    hide Inv, Next;
    var w := ClimbShape(ts, s);
    ClimberUnreported(ts, s);
    ParentWaits(ts, Here(ts, s), ts[Here(ts, s)].parent.value);
  }

  lemma ClimbMoves(ts: seq<Task>, s: nat, t: nat)
    requires Inv(ts) && Enabled(ts, Climb(s))
    ensures WaitMoves(ts, Climb(s), Next(ts, Climb(s)), t)
  {
    if ts[Here(ts, s)].parent.Some? {
      ReportMoves(ts, s, t);
    } else {
      RootShape(ts, s);
    }
  }

  lemma TaskMoves(ts: seq<Task>, step: Step, t: nat)
    requires Inv(ts) && Enabled(ts, step) && (step.Block? || step.Unblock? || step.Complete? || step.Spawn?)
    ensures WaitMoves(ts, step, Next(ts, step), t)
  {
    hide CountInv, WalkInv;
  }

  /** A walk at work, and disposal, leave taskwaits alone. */
  lemma WorkMoves(ts: seq<Task>, step: Step, t: nat)
    requires Inv(ts) && Enabled(ts, step) && !step.Block? && !step.Unblock? && !step.Complete? && !step.Spawn?
    requires !step.Climb?
    ensures WaitMoves(ts, step, Next(ts, step), t)
  {
    hide CountInv, WalkInv, LocalInv;
  }

  lemma WaitStep(ts: seq<Task>, step: Step, t: nat)
    requires Inv(ts) && Enabled(ts, step)
    ensures WaitMoves(ts, step, Next(ts, step), t)
  {
    hide Inv, Next, WaitMoves;
    match step
    case Climb(s) => ClimbMoves(ts, s, t);
    case Block(_) => TaskMoves(ts, step, t);
    case Unblock(_) => TaskMoves(ts, step, t);
    case Complete(_) => TaskMoves(ts, step, t);
    case Spawn(_, _, _) => TaskMoves(ts, step, t);
    case _ => WorkMoves(ts, step, t);
  }

  lemma {:induction false} WaitsAndResumes(ts: seq<Task>, run: seq<Step>, t: nat)
    requires Inv(ts) && CanRun(ts, run)
    ensures Times(run, Block(t)) - Resumptions(ts, run, t)
            == IsPhase(Run(ts, run), t, Blocked) - IsPhase(ts, t, Blocked)
    ensures Resumptions(ts, run, t) - Times(run, Unblock(t))
            == IsPhase(Run(ts, run), t, Resumed) - IsPhase(ts, t, Resumed)
    decreases |run|
  {
    if run != [] {
      WaitStep(ts, run[0], t);
      StepInv(ts, run[0]);
      WaitsAndResumes(Next(ts, run[0]), run[1..], t);
    }
  }

  /** Every taskwait is resumed exactly once: a task is resumed as often as it blocks, unless it is blocked now, and it
      proceeds as often as it is resumed, unless it is resumed now. */
  lemma ResumedOncePerTaskwait(run: seq<Step>, t: nat)
    requires CanRun([], run)
    ensures Times(run, Block(t)) == Resumptions([], run, t) + IsPhase(Run([], run), t, Blocked)
    ensures Resumptions([], run, t) == Times(run, Unblock(t)) + IsPhase(Run([], run), t, Resumed)
  {
    WaitsAndResumes([], run, t);
  }

  // ---------------------------------------------------------------------------------------------
  // Reclamation

  lemma {:induction false} DisposalsCount(ts: seq<Task>, run: seq<Step>, t: nat)
    requires Inv(ts) && CanRun(ts, run)
    ensures Times(run, Dispose(t)) == IsDisposed(Run(ts, run), t) - IsDisposed(ts, t)
    decreases |run|
  {
    if run != [] {
      DisposalStep(ts, run[0], t);
      StepInv(ts, run[0]);
      DisposalsCount(Next(ts, run[0]), run[1..], t);
    }
  }

  function IsDisposed(ts: seq<Task>, t: nat): nat {
    if t < |ts| && ts[t].disposed then 1 else 0
  }

  lemma ClimbDisposesNone(ts: seq<Task>, s: nat, t: nat)
    requires Inv(ts) && Enabled(ts, Climb(s))
    ensures IsDisposed(Next(ts, Climb(s)), t) == IsDisposed(ts, t)
  {
    hide Inv, Next;
    if ts[Here(ts, s)].parent.Some? { var w := ClimbShape(ts, s); } else { RootShape(ts, s); }
  }

  lemma DisposalIs(ts: seq<Task>, x: nat, t: nat)
    requires Inv(ts) && Enabled(ts, Dispose(x))
    ensures IsDisposed(Next(ts, Dispose(x)), t) - IsDisposed(ts, t) == if x == t then 1 else 0
  {
    hide CountInv, WalkInv, Next;
    DisposeShape(ts, x);
    assert LocalInv(ts[x]);
  }

  lemma DisposalStep(ts: seq<Task>, step: Step, t: nat)
    requires Inv(ts) && Enabled(ts, step)
    ensures IsDisposed(Next(ts, step), t) - IsDisposed(ts, t) == if step == Dispose(t) then 1 else 0
  {
    hide CountInv, WalkInv, LocalInv;
    match step
    case Dispose(x) => DisposalIs(ts, x, t);
    case Climb(s) => ClimbDisposesNone(ts, s, t);
    case _ =>
  }

  /** A task is disposed at most once in any run, and only after it and everything below it has finished and its parent
      knows, its accesses are all disposed, its children are disposed, and its thread has let go of it. */
  lemma DisposedOnceAndInTime(run: seq<Step>, t: nat)
    requires CanRun([], run)
    ensures Times(run, Dispose(t)) <= 1
    ensures var ts := Run([], run);
            Enabled(ts, Dispose(t)) || (t < |ts| && ts[t].disposed) ==>
              && SubtreeDone(ts, t) && (ts[t].parent.Some? ==> ts[t].reported)
              && ts[t].live == 0 && !ts[t].own && ts[t].walk == NoWalk
              && Children(ts, |ts|, t, true) == 0
  {
    DisposalsCount([], run, t);
    var ts := Run([], run);
    if t < |ts| && (ts[t].doomed || ts[t].disposed) {
      assert LocalInv(ts[t]) && CountInv(ts, t);
      NothingLeft(ts, t);
    }
  }

  /** Without undisposed children there are no unreported ones. */
  lemma {:induction false} NoneUnreported(ts: seq<Task>, n: nat, t: nat)
    requires Inv(ts) && n <= |ts| && Children(ts, n, t, true) == 0
    requires forall c :: 0 <= c < |ts| && ts[c].parent == Some(t) && ts[c].disposed ==> ts[c].reported
    ensures Children(ts, n, t, false) == 0
  {
    if n > 0 { NoneUnreported(ts, n - 1, t); }
  }

  lemma {:induction false} NothingLeft(ts: seq<Task>, t: nat)
    requires Inv(ts) && t < |ts| && ts[t].removal == 0
    ensures SubtreeDone(ts, t) && (ts[t].parent.Some? ==> ts[t].reported)
    decreases |ts| - t
  {
    assert LocalInv(ts[t]) && CountInv(ts, t) && WalkInv(ts, t);
    forall c | 0 <= c < |ts| && ts[c].parent == Some(t) && ts[c].disposed ensures ts[c].reported {
      assert LocalInv(ts[c]) && WalkInv(ts, c);
      NothingLeft(ts, c);
    }
    NoneUnreported(ts, |ts|, t);
    if ts[t].walker.Some? { WalkedTask(ts, ts[t].walker.value); }
  }

  /** The ancestor walk never touches a reclaimed task: while a thread has not given up the removal count of the task it
      completed, that task and all its ancestors are there, and none can become disposable under the walk. */
  lemma WalkTouchesOnlyLive(ts: seq<Task>, s: nat, u: nat)
    requires Reachable(ts) && s < |ts| && ts[s].walk != NoWalk && Above(ts, s, u)
    ensures u < |ts| && !ts[u].disposed && !ts[u].doomed && ts[u].removal > 0
    ensures Walking(ts, s) ==> Above(ts, s, Here(ts, s)) && !ts[Here(ts, s)].disposed
  {
    ReachableInv(ts);
    assert LocalInv(ts[s]) && CountInv(ts, s);
    AncestorsLive(ts, s, u);
    assert LocalInv(ts[u]);
    if Walking(ts, s) { WalkedTask(ts, s); }
  }

  /** Two walks are never at the same task. */
  lemma OneWalkPerTask(ts: seq<Task>, s: nat, r: nat)
    requires Reachable(ts) && Walking(ts, s) && Walking(ts, r) && Here(ts, s) == Here(ts, r)
    ensures s == r
  {
    ReachableInv(ts);
    assert WalkInv(ts, s) && WalkInv(ts, r);
  }

  /** The shortcut of taskwait: a removal count of one means that all descendants are gone, so there is no need to
      block. */
  lemma {:induction false} ShortcutIsSound(ts: seq<Task>, t: nat, d: nat)
    requires Reachable(ts) && t < |ts| && Above(ts, d, t) && d != t
    requires (ts[t].phase == Active && ts[t].removal == 1) || ts[t].disposed
    ensures ts[d].disposed && SubtreeDone(ts, d)
    decreases d
  {
    ReachableInv(ts);
    var q := ts[d].parent.value;
    if q != t {
      AboveSelf(ts, d, q);
      ShortcutIsSound(ts, t, q);
    }
    assert LocalInv(ts[q]) && CountInv(ts, q);
    if !ts[d].disposed { ChildCounts(ts, |ts|, q, true, d); }
    assert LocalInv(ts[d]);
    NothingLeft(ts, d);
  }

  // ---------------------------------------------------------------------------------------------
  // Nothing is left behind

  ghost predicate Stuck(ts: seq<Task>) {
    forall step: Step :: !step.Spawn? ==> !Enabled(ts, step)
  }

  /** In a stuck state every task has finished with all its children. */
  lemma {:induction false} StuckIsDone(ts: seq<Task>, t: nat)
    requires Inv(ts) && Stuck(ts) && t < |ts|
    ensures SubtreeDone(ts, t) && (ts[t].parent.Some? ==> ts[t].reported) && !ts[t].own
    decreases |ts| - t
  {
    assert LocalInv(ts[t]) && CountInv(ts, t) && WalkInv(ts, t);
    assert !Enabled(ts, Block(t)) && !Enabled(ts, Unblock(t)) && !Enabled(ts, DropOwn(t));
    NoStuckWalk(ts, t);
    if ts[t].walker.Some? { NoStuckWalk(ts, ts[t].walker.value); }
    if Children(ts, |ts|, t, false) > 0 {
      var c := SomeChild(ts, |ts|, t, false);
      assert WalkInv(ts, c);
      StuckIsDone(ts, c);
    }
  }

  /** A walk can always go on. */
  lemma WalkGoesOn(ts: seq<Task>, s: nat) returns (step: Step)
    requires Inv(ts) && s < |ts| && ts[s].walk.At?
    ensures !step.Spawn? && Enabled(ts, step)
  {
    assert WalkInv(ts, s);
    var u := Here(ts, s);
    assert LocalInv(ts[u]) && WalkInv(ts, u);
    if ts[u].phase == DelayOver {
      step := EndDelay(s);
    } else if ts[u].phase == Releasing {
      step := Unregister(s);
    } else if ts[u].phase == Released {
      step := FinishSelf(s);
    } else if DelayedHere(ts, s) {
      step := DropDelayed(s);
    } else {
      step := Climb(s);
    }
  }

  lemma NoStuckWalk(ts: seq<Task>, s: nat)
    requires Inv(ts) && Stuck(ts)
    ensures s < |ts| ==> !ts[s].walk.At?
  {
    if s < |ts| && ts[s].walk.At? {
      var step := WalkGoesOn(ts, s);
    }
  }

  /** No leak: whatever the interleaving, a run can only stop when every task has been disposed. */
  lemma {:induction false} EveryTaskIsReclaimed(ts: seq<Task>, t: nat)
    requires Reachable(ts) && Stuck(ts) && t < |ts|
    ensures ts[t].disposed
    decreases |ts| - t
  {
    ReachableInv(ts);
    StuckIsDone(ts, t);
    assert LocalInv(ts[t]) && CountInv(ts, t) && WalkInv(ts, t);
    assert !Enabled(ts, DisposeAccess(t)) && !Enabled(ts, Dispose(t));
    if Children(ts, |ts|, t, true) > 0 {
      var c := SomeChild(ts, |ts|, t, true);
      assert WalkInv(ts, c);
      EveryTaskIsReclaimed(ts, c);
    }
  }

  /** Nothing is refused: a task that runs can create tasks, wait and complete, a resumed one goes on, and accesses and
      tasks that can be disposed are. */
  lemma NothingIsRefused(ts: seq<Task>, t: nat, wait: bool, n: nat)
    requires Reachable(ts)
    ensures Enabled(ts, Spawn(None, wait, n))
    ensures t < |ts| && ts[t].phase == Active ==>
              Enabled(ts, Spawn(Some(t), wait, n)) && Enabled(ts, Block(t)) && Enabled(ts, Complete(t))
    ensures t < |ts| && ts[t].phase == Resumed ==> Enabled(ts, Unblock(t))
    ensures t < |ts| && ts[t].live > 0 ==> Enabled(ts, DisposeAccess(t))
    ensures t < |ts| && ts[t].removal == 0 && !ts[t].disposed ==> Enabled(ts, Dispose(t))
  {
    ReachableInv(ts);
    if t < |ts| { assert LocalInv(ts[t]) && WalkInv(ts, t); }
  }
}
