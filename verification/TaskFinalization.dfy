/** The runtime's calls on the task tree, each run by one thread without interference: they leave no walk and no
    disposal behind, and then the counters of every task mean what they should. */
module TaskFinalization {
  import opened AccessFlags
  import opened TaskTree
  import opened TaskTreeSafety
  import opened TaskRelease

  lemma {:induction false} RunSnoc(ts: seq<Task>, run: seq<Step>, step: Step)
    requires Inv(ts) && CanRun(ts, run) && Enabled(Run(ts, run), step)
    ensures CanRun(ts, run + [step])
    ensures Run(ts, run + [step]) == (StepInv(Run(ts, run), step); Next(Run(ts, run), step))
    decreases |run|
  {
    var all := run + [step];
    if run == [] {
      assert all[0] == step && all[1..] == [];
      StepInv(ts, step);
    } else {
      assert all[0] == run[0] && all[1..] == run[1..] + [step];
      StepInv(ts, run[0]);
      RunSnoc(Next(ts, run[0]), run[1..], step);
    }
  }

  /** Only the task `s`, if any, has a walk, and only the task `d`, if any, waits to be disposed. */
  predicate AllBut(ts: seq<Task>, s: Option<nat>, d: Option<nat>) {
    forall i :: 0 <= i < |ts| ==> (s != Some(i) ==> ts[i].walk == NoWalk) && (d != Some(i) ==> !ts[i].doomed)
  }

  predicate Settled(ts: seq<Task>) { AllBut(ts, None, None) }

  // ---------------------------------------------------------------------------------------------
  // What the counters mean when nothing is in progress

  predicate Child(ts: seq<Task>, c: nat, t: nat) {
    c < |ts| && ts[c].parent == Some(t)
  }

  lemma {:induction false} NoPending(ts: seq<Task>, n: nat, p: nat, alive: bool)
    requires n <= |ts| && forall c :: 0 <= c < n && Child(ts, c, p) ==> !Pending(ts[c], alive)
    ensures Children(ts, n, p, alive) == 0
  {
    if n > 0 { NoPending(ts, n - 1, p, alive); }
  }

  lemma SettledReports(ts: seq<Task>, c: nat)
    requires Inv(ts) && Settled(ts) && c < |ts| && ts[c].parent.Some?
    ensures ts[c].reported <==> SubtreeDone(ts, c)
  {
    assert LocalInv(ts[c]) && WalkInv(ts, c);
  }

  lemma UnreportedChild(ts: seq<Task>, t: nat)
    requires Inv(ts) && Settled(ts) && t < |ts|
    ensures Children(ts, |ts|, t, false) > 0 <==> exists c: nat :: Child(ts, c, t) && !SubtreeDone(ts, c)
  {
    if Children(ts, |ts|, t, false) > 0 {
      var c := SomeChild(ts, |ts|, t, false);
      SettledReports(ts, c);
      assert Child(ts, c, t);
    }
    forall c: nat | Child(ts, c, t) && !SubtreeDone(ts, c) ensures Children(ts, |ts|, t, false) > 0 {
      SettledReports(ts, c);
      ChildCounts(ts, |ts|, t, false, c);
    }
  }

  /** With nothing in progress: a subtree is done if and only if its task has finished and the subtrees of its children
      are done; a task in a taskwait or with delayed release has a child whose subtree is not done; and a task is
      disposed if and only if it has finished, its accesses are disposed and its children are disposed. */
  lemma SettledMeaning(ts: seq<Task>, t: nat)
    requires Inv(ts) && Settled(ts) && t < |ts|
    ensures SubtreeDone(ts, t) <==> ts[t].phase == Finished && forall c: nat :: Child(ts, c, t) ==> SubtreeDone(ts, c)
    ensures ts[t].phase == Blocked || ts[t].phase == Delayed ==> exists c: nat :: Child(ts, c, t) && !SubtreeDone(ts, c)
    ensures ts[t].disposed
            <==> ts[t].phase == Finished && ts[t].live == 0 && forall c: nat :: Child(ts, c, t) ==> ts[c].disposed
  {
    assert LocalInv(ts[t]) && CountInv(ts, t) && WalkInv(ts, t);
    forall c: nat | Child(ts, c, t) ensures ts[c].reported <==> SubtreeDone(ts, c) { SettledReports(ts, c); }
    if Children(ts, |ts|, t, false) > 0 {
      var c := SomeChild(ts, |ts|, t, false);
      assert Child(ts, c, t);
    } else {
      forall c: nat | Child(ts, c, t)
        ensures ts[c].reported
      {
        if !ts[c].reported { ChildCounts(ts, |ts|, t, false, c); }
      }
    }
    if Children(ts, |ts|, t, true) > 0 {
      var c := SomeChild(ts, |ts|, t, true);
      assert Child(ts, c, t);
    } else {
      forall c: nat | Child(ts, c, t)
        ensures ts[c].disposed
      {
        if !ts[c].disposed { ChildCounts(ts, |ts|, t, true, c); }
      }
    }
  }

  // ---------------------------------------------------------------------------------------------
  // The walk

  /** A step of the walk from `s` other than its last one. */
  predicate WalkStep(step: Step, s: nat) {
    step == EndDelay(s) || step == Unregister(s) || step == FinishSelf(s) || step == DropDelayed(s) || step == Climb(s)
  }

  /** How much the walk still has to do at its task. */
  function Rank(t: Task): nat {
    match t.phase
    case DelayOver => 4
    case Releasing => 3
    case Released => 2
    case _ => if t.own then 1 else 0
  }

  /** The walk goes up or gets on with its task. */
  predicate Ahead(ts: seq<Task>, ts': seq<Task>, s: nat)
    requires Walking(ts, s)
  {
    Walking(ts', s) ==>
      Here(ts', s) < Here(ts, s) || (Here(ts', s) == Here(ts, s) && Rank(ts'[Here(ts', s)]) < Rank(ts[Here(ts, s)]))
  }

  lemma ReportGoesAhead(ts: seq<Task>, s: nat, ts': seq<Task>)
    requires Inv(ts) && Enabled(ts, Climb(s)) && AllBut(ts, Some(s), None) && ts' == Next(ts, Climb(s))
    requires ts[Here(ts, s)].parent.Some?
    ensures |ts'| == |ts| && AllBut(ts', Some(s), None) && ts'[s].walk != NoWalk && ts'[s].phase == ts[s].phase
    ensures Ahead(ts, ts', s)
  {
    var u := Here(ts, s);
    assert WalkInv(ts, u) && WalkInv(ts, s);
    var w := ClimbShape(ts, s);
  }

  lemma RootGoesAhead(ts: seq<Task>, s: nat, ts': seq<Task>)
    requires Inv(ts) && Enabled(ts, Climb(s)) && AllBut(ts, Some(s), None) && ts' == Next(ts, Climb(s))
    requires ts[Here(ts, s)].parent.None?
    ensures |ts'| == |ts| && AllBut(ts', Some(s), None) && ts'[s].walk == Ended && ts'[s].phase == ts[s].phase
  {
    RootShape(ts, s);
  }

  lemma ClimbGoesAhead(ts: seq<Task>, s: nat, ts': seq<Task>)
    requires Inv(ts) && Enabled(ts, Climb(s)) && AllBut(ts, Some(s), None) && ts' == Next(ts, Climb(s))
    ensures |ts'| == |ts| && AllBut(ts', Some(s), None) && ts'[s].walk != NoWalk && ts'[s].phase == ts[s].phase
    ensures Ahead(ts, ts', s)
  {
    if ts[Here(ts, s)].parent.Some? { ReportGoesAhead(ts, s, ts'); } else { RootGoesAhead(ts, s, ts'); }
  }

  lemma ReleaseGoesAhead(ts: seq<Task>, step: Step, s: nat, ts': seq<Task>)
    requires Inv(ts) && Enabled(ts, step) && (step == EndDelay(s) || step == Unregister(s)) && AllBut(ts, Some(s), None)
    requires ts' == Next(ts, step)
    ensures |ts'| == |ts| && AllBut(ts', Some(s), None) && ts'[s].walk != NoWalk
    ensures Here(ts, s) != s ==> ts'[s].phase == ts[s].phase
    ensures Ahead(ts, ts', s)
  {
    hide CountInv, WalkInv, Above;
    WalkedTask(ts, s);
    assert LocalInv(ts[s]) && LocalInv(ts[Here(ts, s)]);
  }

  lemma FinishGoesAhead(ts: seq<Task>, step: Step, s: nat, ts': seq<Task>)
    requires Inv(ts) && Enabled(ts, step) && (step == FinishSelf(s) || step == DropDelayed(s))
    requires AllBut(ts, Some(s), None) && ts' == Next(ts, step)
    ensures |ts'| == |ts| && AllBut(ts', Some(s), None) && ts'[s].walk != NoWalk
    ensures Here(ts, s) != s ==> ts'[s].phase == ts[s].phase
    ensures Ahead(ts, ts', s)
  {
    hide CountInv, WalkInv, Above;
    WalkedTask(ts, s);
    assert LocalInv(ts[s]) && LocalInv(ts[Here(ts, s)]);
  }

  lemma WalkGoesAhead(ts: seq<Task>, step: Step, s: nat, ts': seq<Task>)
    requires Inv(ts) && Enabled(ts, step) && WalkStep(step, s) && AllBut(ts, Some(s), None) && ts' == Next(ts, step)
    ensures |ts'| == |ts| && AllBut(ts', Some(s), None) && ts'[s].walk != NoWalk
    ensures Here(ts, s) != s || step == Climb(s) ==> ts'[s].phase == ts[s].phase
    ensures Ahead(ts, ts', s)
  {
    hide Inv, Next, Ahead;
    if step == Climb(s) {
      ClimbGoesAhead(ts, s, ts');
    } else if step == EndDelay(s) || step == Unregister(s) {
      ReleaseGoesAhead(ts, step, s, ts');
    } else {
      FinishGoesAhead(ts, step, s, ts');
    }
  }

  lemma WalkStarts(ts: seq<Task>, t: nat, ts': seq<Task>)
    requires Inv(ts) && Enabled(ts, Complete(t)) && Settled(ts) && ts' == Next(ts, Complete(t))
    ensures |ts'| == |ts| && AllBut(ts', Some(t), None)
    ensures if ts'[t].phase == Delayed then ts'[t].walk == NoWalk else ts'[t].walk == At(t)
  {
  }

  lemma DisposeGoesUp(ts: seq<Task>, t: nat, ts': seq<Task>)
    requires Inv(ts) && Enabled(ts, Dispose(t)) && AllBut(ts, None, Some(t)) && ts' == Next(ts, Dispose(t))
    ensures |ts'| == |ts| && ts'[t].disposed && ts'[t].phase == ts[t].phase
    ensures if ts[t].parent.Some? then ts[t].parent.value < t && AllBut(ts', None, ts[t].parent) else Settled(ts')
  {
    assert WalkInv(ts, t);
    DisposeShape(ts, t);
  }

  // ---------------------------------------------------------------------------------------------
  // Only the task and its ancestors are touched

  ghost predicate OnlyAbove(ts: seq<Task>, ts': seq<Task>, t: nat) {
    && |ts'| == |ts| && (forall i :: 0 <= i < |ts| ==> ts'[i].parent == ts[i].parent)
    && (forall i :: 0 <= i < |ts| && !Above(ts, t, i) ==> ts'[i] == ts[i])
  }

  lemma OnlyAboveTwice(ts: seq<Task>, ts': seq<Task>, ts'': seq<Task>, t: nat)
    requires OnlyAbove(ts, ts', t) && OnlyAbove(ts', ts'', t)
    ensures OnlyAbove(ts, ts'', t)
  {
    forall i | 0 <= i < |ts| && !Above(ts, t, i) ensures ts''[i] == ts[i] {
      if Above(ts', t, i) { AboveSame(ts', ts, t, i); }
    }
  }

  lemma ReportTouches(ts: seq<Task>, s: nat, ts': seq<Task>)
    requires Inv(ts) && Enabled(ts, Climb(s)) && ts' == Next(ts, Climb(s)) && ts[Here(ts, s)].parent.Some?
    ensures OnlyAbove(ts, ts', s)
  {
    WalkedTask(ts, s);
    assert WalkInv(ts, Here(ts, s)) && Above(ts, s, s);
    AboveUp(ts, s, Here(ts, s));
    var w := ClimbShape(ts, s);
  }

  lemma RootTouches(ts: seq<Task>, s: nat, ts': seq<Task>)
    requires Inv(ts) && Enabled(ts, Climb(s)) && ts' == Next(ts, Climb(s)) && ts[Here(ts, s)].parent.None?
    ensures OnlyAbove(ts, ts', s)
  {
    WalkedTask(ts, s);
    assert Above(ts, s, s);
    RootShape(ts, s);
  }

  lemma WalkTouches(ts: seq<Task>, step: Step, s: nat, ts': seq<Task>)
    requires Inv(ts) && Enabled(ts, step) && WalkStep(step, s) && ts' == Next(ts, step)
    ensures OnlyAbove(ts, ts', s)
  {
    hide CountInv, WalkInv, LocalInv;
    if step == Climb(s) {
      if ts[Here(ts, s)].parent.Some? { ReportTouches(ts, s, ts'); } else { RootTouches(ts, s, ts'); }
    } else {
      WalkedTask(ts, s);
      assert Above(ts, s, s);
    }
  }

  lemma DisposalTouches(ts: seq<Task>, u: nat, t: nat, ts': seq<Task>)
    requires Inv(ts) && Enabled(ts, Dispose(u)) && Above(ts, t, u) && ts' == Next(ts, Dispose(u))
    ensures OnlyAbove(ts, ts', t)
    ensures ts[u].parent.Some? ==> Above(ts', t, ts[u].parent.value)
  {
    DisposeShape(ts, u);
    assert WalkInv(ts, u);
    if ts[u].parent.Some? {
      AboveUp(ts, t, u);
      AboveSame(ts, ts', t, ts[u].parent.value);
    }
  }

  lemma CompletionTouches(ts: seq<Task>, t: nat, ts': seq<Task>)
    requires Enabled(ts, Complete(t)) && ts' == Next(ts, Complete(t))
    ensures |ts'| == |ts| && (forall i :: 0 <= i < |ts| && i != t ==> ts'[i] == ts[i]) && OnlyAbove(ts, ts', t)
  {
    assert Above(ts, t, t);
  }

  class TaskFinalization {
    var ts: seq<Task>
    ghost var run: seq<Step>

    ghost predicate Valid()
      reads this
    {
      CanRun([], run) && Run([], run) == ts
    }

    constructor ()
      ensures Valid() && ts == [] && Settled(ts)
    {
      ts, run := [], [];
    }

    /** One atomic step. */
    method Perform(step: Step)
      requires Valid() && Enabled(ts, step)
      modifies this
      ensures Valid() && Inv(old(ts)) && Inv(ts) && run == old(run) + [step] && ts == Next(old(ts), step)
    {
      RunSnoc([], run, step);
      StepInv(ts, step);
      ts := Next(ts, step);
      run := run + [step];
    }

    /** The climb of `taskFinished`, including the release of the accesses of the task itself and of each delayed
        ancestor on the way. */
    method FinishTask(s: nat)
      requires Valid() && Walking(ts, s) && Here(ts, s) == s && AllBut(ts, Some(s), None)
      modifies this
      ensures Valid() && OnlyAbove(old(ts), ts, s)
      ensures AllBut(ts, Some(s), None) && ts[s].walk == Ended && ts[s].phase == Finished
    {
      while ts[s].walk.At?
        invariant Valid() && OnlyAbove(old(ts), ts, s) && AllBut(ts, Some(s), None) && ts[s].walk != NoWalk && Inv(ts)
        decreases if Walking(ts, s) then Here(ts, s) + 1 else 0, if Walking(ts, s) then Rank(ts[Here(ts, s)]) else 0
      {
        assert WalkInv(ts, s);
        ghost var before := ts;
        var step := NextWalkStep(s);
        Perform(step);
        WalkGoesAhead(before, step, s, ts);
        WalkTouches(before, step, s, ts);
        OnlyAboveTwice(old(ts), before, ts, s);
      }
      assert LocalInv(ts[s]);
    }

    /** What the walk does next, by the state of the task where it is. */
    method NextWalkStep(s: nat) returns (step: Step)
      requires Inv(ts) && Walking(ts, s)
      ensures WalkStep(step, s) && Enabled(ts, step)
    {
      assert WalkInv(ts, s);
      var u := ts[s].walk.task;
      assert LocalInv(ts[u]) && WalkInv(ts, u);
      if ts[u].phase == DelayOver {
        step := EndDelay(s);
      } else if ts[u].phase == Releasing {
        step := Unregister(s);
      } else if ts[u].phase == Released {
        step := FinishSelf(s);
      } else if DelayedHere(ts, s) {
        step := DropDelayed(s);
      } else {
        step := Climb(s);
      }
    }

    /** Disposes the task and then each ancestor that it leaves without anything to wait for. */
    method DisposeTask(t: nat)
      requires Valid() && t < |ts| && ts[t].doomed && AllBut(ts, None, Some(t))
      modifies this
      ensures Valid() && Settled(ts) && OnlyAbove(old(ts), ts, t) && ts[t].disposed && ts[t].phase == old(ts)[t].phase
    {
      var u: Option<nat> := Some(t);
      while u.Some? && u.value < |ts| && ts[u.value].doomed
        invariant Valid() && Inv(ts) && OnlyAbove(old(ts), ts, t) && AllBut(ts, None, u)
        invariant (u.Some? ==> Above(ts, t, u.value))
        invariant if u == Some(t) then ts == old(ts)
                  else (u.Some? ==> u.value < t) && ts[t].disposed && ts[t].phase == old(ts)[t].phase
        decreases if u.Some? then u.value + 1 else 0
      {
        var parent := ts[u.value].parent;
        assert WalkInv(ts, u.value);
        ghost var before := ts;
        Perform(Dispose(u.value));
        DisposeGoesUp(before, u.value, ts);
        DisposalKeeps(before, u.value, ts, t);
        DisposalTouches(before, u.value, t, ts);
        OnlyAboveTwice(old(ts), before, ts, t);
        u := parent;
      }
    }

    /** Gives up the task's own removal count once its walk has ended. */
    method DropAndDispose(t: nat)
      requires Valid() && t < |ts| && ts[t].walk == Ended && AllBut(ts, Some(t), None)
      modifies this
      ensures Valid() && Settled(ts) && OnlyAbove(old(ts), ts, t) && ts[t].phase == old(ts)[t].phase
    {
      ghost var before := ts;
      Perform(DropOwn(t));
      assert LocalInv(before[t]) && Above(before, t, t);
      if ts[t].doomed {
        ghost var dropped := ts;
        DisposeTask(t);
        OnlyAboveTwice(before, dropped, ts, t);
      }
    }

    /** The callback at the end of a task: it delays the task if and only if that was created with a wait clause and has
        a child whose subtree is not done. Otherwise the task releases its accesses and finishes. */
    method CompleteTask(t: nat)
      requires Valid() && Settled(ts) && t < |ts| && ts[t].phase == Active
      modifies this
      ensures Valid() && Settled(ts) && OnlyAbove(old(ts), ts, t)
      ensures var delayed := WaitClause(old(run), t) == Some(true)
                && exists c: nat :: Child(old(ts), c, t) && !SubtreeDone(old(ts), c);
              && ts[t].phase == (if delayed then Delayed else Finished)
              && (delayed ==> forall i :: 0 <= i < |ts| && i != t ==> ts[i] == old(ts)[i])
    {
      hide Inv, Next, Children, Above, OnlyAbove, WaitClause, Run, CanRun, SubtreeDone;
      ghost var before := ts;
      ReachableNow();
      CompletionByClause(run, t);
      UnreportedChild(ts, t);
      Perform(Complete(t));
      WalkStarts(before, t, ts);
      CompletionTouches(before, t, ts);
      if ts[t].phase != Delayed {
        ghost var started := ts;
        FinishTask(t);
        OnlyAboveTwice(before, started, ts, t);
        ghost var ended := ts;
        DropAndDispose(t);
        OnlyAboveTwice(before, ended, ts, t);
      }
    }

    /** A taskwait: blocks unless there is nothing to wait for. */
    method Taskwait(t: nat) returns (blocked: bool)
      requires Valid() && Settled(ts) && t < |ts| && ts[t].phase == Active
      modifies this
      ensures Valid() && Settled(ts) && |ts| == |old(ts)| && forall i :: 0 <= i < |ts| && i != t ==> ts[i] == old(ts)[i]
      ensures blocked <==> exists c: nat :: Child(ts, c, t) && !SubtreeDone(ts, c)
      ensures ts[t].phase == if blocked then Blocked else Active
    {
      ReachableNow();
      if ts[t].removal == 1 {
        blocked := false;
        forall c: nat | Child(ts, c, t) ensures SubtreeDone(ts, c) {
          assert WalkInv(ts, c) && Above(ts, t, t);
          ShortcutIsSound(ts, t, c);
        }
        return;
      }
      ghost var before := ts;
      Perform(Block(t));
      blocked := ts[t].phase == Blocked;
      SettledMeaning(ts, t);
      if !blocked {
        before := ts;
        forall c: nat | Child(ts, c, t) ensures c != t && SubtreeDone(ts, c) {
          assert WalkInv(ts, c) && LocalInv(ts[t]) && Above(ts, t, t);
          ZeroMeansDone(ts, t, c);
        }
        Perform(Unblock(t));
        forall c: nat | Child(ts, c, t) ensures SubtreeDone(ts, c) {
          assert Child(before, c, t);
        }
      }
    }

    lemma ReachableNow()
      requires Valid()
      ensures Reachable(ts) && Inv(ts)
    {
      assert CanRun([], run) && Run([], run) == ts;
      ReachableInv(ts);
    }
  }

  lemma DisposalKeeps(ts: seq<Task>, u: nat, ts': seq<Task>, t: nat)
    requires Inv(ts) && Enabled(ts, Dispose(u)) && ts' == Next(ts, Dispose(u)) && t < |ts|
    ensures |ts'| == |ts| && ts'[t].phase == ts[t].phase && (ts'[t].disposed <==> ts[t].disposed || t == u)
  {
    DisposeShape(ts, u);
  }
}
