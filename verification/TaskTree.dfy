/** Detecting that a subtree of tasks has finished, and reclaiming it. Every task has a wake-up counter and a removal
    counter; the thread that brings a counter to zero carries on at the parent. All threads interleave freely. */
module TaskTree {
  import opened AccessFlags

  /** `Active` covers the time from registration to the end of the body except inside a taskwait; `Delayed` is a
      finished task that waits for its children before it releases its accesses. */
  datatype Phase = Active | Blocked | Resumed | Delayed | DelayOver | Releasing | Released | Finished

  /** The thread that completed a task climbs from it: `At` says where it is, `Ended` that it has stopped and is about
      to give up the task's own removal count. */
  datatype Walk = NoWalk | At(task: nat) | Ended

  /** `wake` counts the children not yet reported finished, plus one unless blocked or finished; `removal` the children
      not yet disposed, plus one for the task itself (`own`), plus one while it has accesses (`deletable` above zero).
      `reported`, `live` (accesses not yet disposed) and `walker` record history: what the parent has been told, and
      whose walk stands here. */
  datatype Task = Task(
    parent: Option<nat>, wait: bool, phase: Phase, wake: int, removal: int, own: bool,
    accesses: bool, deletable: int, live: nat,
    reported: bool, doomed: bool, disposed: bool, walk: Walk, walker: Option<nat>)

  datatype Step =
    | Spawn(parent: Option<nat>, wait: bool, accesses: nat)  // a running task creates a child
    | Block(task: nat)           // taskwait
    | Unblock(task: nat)         // the end of a taskwait
    | Complete(task: nat)        // the body has finished
    | EndDelay(task: nat)        // the walk from the task ends the delay of the task where it is
    | Unregister(task: nat)      // the walk releases the accesses of the task where it is
    | FinishSelf(task: nat)      // the walk gives up the wake-up count of the task where it is
    | DropDelayed(task: nat)     // the walk gives up the removal count of a delayed task
    | Climb(task: nat)           // the walk reports to the parent
    | DropOwn(task: nat)         // the walk has ended
    | DisposeAccess(task: nat)   // one of the accesses is disposed
    | Dispose(task: nat)

  function Own(t: Task): nat { if t.own then 1 else 0 }

  function Hold(t: Task): nat { if t.accesses && t.deletable > 0 then 1 else 0 }

  predicate Counted(phase: Phase) { phase == Active || phase == Releasing || phase == Released }

  predicate Walking(ts: seq<Task>, s: nat) {
    s < |ts| && ts[s].walk.At? && ts[s].walk.task < |ts|
  }

  /** Where the walk from `s` is. */
  function Here(ts: seq<Task>, s: nat): (u: nat)
    requires Walking(ts, s)
    ensures u < |ts|
  {
    ts[s].walk.task
  }

  /** The walk has just finished a delayed task, which no thread of its own will take care of. */
  predicate DelayedHere(ts: seq<Task>, s: nat)
    requires Walking(ts, s)
  {
    var t := ts[Here(ts, s)];
    t.phase == Finished && t.own && t.walk == NoWalk
  }

  predicate Enabled(ts: seq<Task>, step: Step) {
    match step
    case Spawn(p, _, _) => p.Some? ==> p.value < |ts| && ts[p.value].phase == Active
    case Block(t) => t < |ts| && ts[t].phase == Active
    case Unblock(t) => t < |ts| && ts[t].phase == Resumed
    case Complete(t) => t < |ts| && ts[t].phase == Active
    case EndDelay(s) => Walking(ts, s) && ts[Here(ts, s)].phase == DelayOver
    case Unregister(s) => Walking(ts, s) && ts[Here(ts, s)].phase == Releasing
    case FinishSelf(s) => Walking(ts, s) && ts[Here(ts, s)].phase == Released
    case DropDelayed(s) => Walking(ts, s) && DelayedHere(ts, s)
    case Climb(s) =>
      && Walking(ts, s) && ts[Here(ts, s)].phase == Finished && !DelayedHere(ts, s)
      && (ts[Here(ts, s)].parent.Some? ==> ts[Here(ts, s)].parent.value < |ts|)
    case DropOwn(s) => s < |ts| && ts[s].walk.Ended?
    case DisposeAccess(t) => t < |ts| && ts[t].live > 0
    case Dispose(t) => t < |ts| && ts[t].doomed && (ts[t].parent.Some? ==> ts[t].parent.value < |ts|)
  }

  /** One removal count less; the task is doomed when it was the last. */
  function Removed(t: Task): Task {
    t.(removal := t.removal - 1, doomed := t.doomed || t.removal - 1 == 0)
  }

  function NewTask(p: Option<nat>, wait: bool, n: nat): Task {
    Task(p, wait, Active, 1, if n > 0 then 2 else 1, true, n > 0, 1 + n, n, false, false, false, NoWalk, None)
  }

  function Leave(ts: seq<Task>, s: nat): seq<Task>
    requires Walking(ts, s)
  {
    var ts1 := ts[Here(ts, s) := ts[Here(ts, s)].(walker := None)];
    ts1[s := ts1[s].(walk := Ended)]
  }

  /** The parent has one unfinished child less. When that was the last event it waited for, a blocked parent is
      resumed, a delayed one may release its accesses, a finished one is finished with its whole subtree. */
  function Told(t: Task): Task {
    var last := t.wake - 1 == 0;
    t.(wake := t.wake - 1,
       phase := if !last || t.phase == Finished then t.phase else if t.phase == Delayed then DelayOver else Resumed)
  }

  predicate ClimbsOn(t: Task) { t.wake - 1 == 0 && (t.phase == Finished || t.phase == Delayed) }

  /** The walk from `s` reports to the parent `p` of the task where it is, and goes there if there is more to do. */
  function Report(ts: seq<Task>, s: nat, p: nat): seq<Task>
    requires Walking(ts, s) && p < |ts|
  {
    var u := Here(ts, s);
    var on := ClimbsOn(ts[p]);
    var ts1 := ts[u := ts[u].(reported := true, walker := None)];
    var ts2 := ts1[s := ts1[s].(walk := if on then At(p) else Ended)];
    ts2[p := Told(ts2[p]).(walker := if on then Some(s) else ts2[p].walker)]
  }

  function Next(ts: seq<Task>, step: Step): seq<Task>
    requires Enabled(ts, step)
  {
    match step
    case Spawn(p, wait, n) =>
      var ts1 := if p.Some?
          then ts[p.value := ts[p.value].(wake := ts[p.value].wake + 1, removal := ts[p.value].removal + 1)] else ts;
      ts1 + [NewTask(p, wait, n)]
    case Block(t) =>
      ts[t := ts[t].(wake := ts[t].wake - 1, phase := if ts[t].wake - 1 == 0 then Resumed else Blocked)]
    case Unblock(t) =>
      ts[t := ts[t].(wake := ts[t].wake + 1, phase := Active)]
    case Complete(t) =>
      if !ts[t].wait then ts[t := ts[t].(phase := Releasing, walk := At(t), walker := Some(t))]
      else if ts[t].wake - 1 == 0 then ts[t := ts[t].(wake := 0, phase := DelayOver, walk := At(t), walker := Some(t))]
      else ts[t := ts[t].(wake := ts[t].wake - 1, phase := Delayed)]
    case EndDelay(s) =>
      var u := Here(ts, s);
      ts[u := ts[u].(wake := ts[u].wake + 1, wait := false, phase := Releasing)]
    case Unregister(s) =>
      var u := Here(ts, s);
      var t := ts[u].(phase := Released);
      if !t.accesses then ts[u := t]
      else ts[u := t.(deletable := t.deletable - 1, removal := if t.deletable - 1 == 0 then t.removal - 1
          else t.removal)]
    case FinishSelf(s) =>
      var u := Here(ts, s);
      var ts1 := ts[u := ts[u].(wake := ts[u].wake - 1, phase := Finished)];
      if ts1[u].wake == 0 then ts1 else Leave(ts1, s)
    case DropDelayed(s) =>
      var u := Here(ts, s);
      ts[u := Removed(ts[u]).(own := false)]
    case Climb(s) =>
      var u := Here(ts, s);
      if ts[u].parent.None? then Leave(ts, s) else Report(ts, s, ts[u].parent.value)
    case DropOwn(s) =>
      ts[s := Removed(ts[s]).(own := false, walk := NoWalk)]
    case DisposeAccess(t) =>
      var t' := ts[t].(live := ts[t].live - 1, deletable := ts[t].deletable - 1);
      ts[t := if t'.deletable == 0 then Removed(t') else t']
    case Dispose(t) =>
      var ts1 := ts[t := ts[t].(doomed := false, disposed := true)];
      if ts[t].parent.None? then ts1 else ts1[ts[t].parent.value := Removed(ts1[ts[t].parent.value])]
  }

  // ---------------------------------------------------------------------------------------------
  // Counting children

  predicate Pending(t: Task, alive: bool) { if alive then !t.disposed else !t.reported }

  /** The children of `p` among the first `n` tasks that are not yet disposed (or not yet reported). */
  function Children(ts: seq<Task>, n: nat, p: nat, alive: bool): nat
    requires n <= |ts|
  {
    if n == 0 then 0
    else Children(ts, n - 1, p, alive) + (if ts[n - 1].parent == Some(p) && Pending(ts[n - 1], alive) then 1 else 0)
  }

  lemma {:induction false} ChildrenSame(ts: seq<Task>, ts': seq<Task>, n: nat, p: nat, alive: bool)
    requires n <= |ts| && n <= |ts'|
    requires forall i :: 0 <= i < n ==>
               && ts'[i].parent == ts[i].parent
               && (ts[i].parent == Some(p) ==> Pending(ts'[i], alive) == Pending(ts[i], alive))
    ensures Children(ts', n, p, alive) == Children(ts, n, p, alive)
  {
    if n > 0 { ChildrenSame(ts, ts', n - 1, p, alive); }
  }

  lemma {:induction false} ChildrenLess(ts: seq<Task>, ts': seq<Task>, n: nat, p: nat, alive: bool, c: nat)
    requires n <= |ts| && n <= |ts'| && c < n && ts[c].parent == Some(p) && Pending(ts[c], alive)
    requires !Pending(ts'[c], alive)
    requires forall i :: 0 <= i < n ==>
             ts'[i].parent == ts[i].parent && (i != c ==> Pending(ts'[i], alive) == Pending(ts[i], alive))
    ensures Children(ts', n, p, alive) == Children(ts, n, p, alive) - 1
  {
    if c == n - 1 { ChildrenSame(ts, ts', n - 1, p, alive); } else { ChildrenLess(ts, ts', n - 1, p, alive, c); }
  }

  lemma {:induction false} ChildCounts(ts: seq<Task>, n: nat, p: nat, alive: bool, c: nat)
    requires n <= |ts| && c < n && ts[c].parent == Some(p) && Pending(ts[c], alive)
    ensures Children(ts, n, p, alive) > 0
  {
    if c < n - 1 { ChildCounts(ts, n - 1, p, alive, c); }
  }

  lemma {:induction false} SomeChild(ts: seq<Task>, n: nat, p: nat, alive: bool) returns (c: nat)
    requires n <= |ts| && Children(ts, n, p, alive) > 0
    ensures c < n && ts[c].parent == Some(p) && Pending(ts[c], alive)
  {
    if ts[n - 1].parent == Some(p) && Pending(ts[n - 1], alive) {
      c := n - 1;
    } else {
      c := SomeChild(ts, n - 1, p, alive);
    }
  }

  // ---------------------------------------------------------------------------------------------
  // The invariant

  /** What holds of one task alone. */
  predicate LocalInv(t: Task) {
    && (t.phase != Finished ==> t.own)
    && (t.reported ==> t.phase == Finished && t.wake == 0)
    && (t.phase == Blocked || t.phase == Delayed ==> t.wake > 0)
    && (t.phase == Resumed || t.phase == DelayOver ==> t.wake == 0)
    && (t.phase == Delayed ==> t.wait)
    && (t.accesses ==> t.deletable == t.live + (if t.phase == Released || t.phase == Finished then 0 else 1))
    && (!t.accesses ==> t.live == 0)
    && (t.doomed <==> t.removal == 0 && !t.disposed)
    && (t.disposed ==> t.removal == 0)
    && (t.phase == DelayOver || t.phase == Releasing || t.phase == Released ==> t.walker.Some?)
    && (t.phase == Finished && t.wake == 0 && !t.reported && t.parent.Some? ==> t.walker.Some?)
    && (t.phase == Finished && t.own ==> t.walk != NoWalk || t.walker.Some?)
    && (t.walk != NoWalk ==> t.own && (t.walk.Ended? ==> t.phase == Finished))
    && (t.walker.Some? ==>
          t.phase == DelayOver || t.phase == Releasing || t.phase == Released || (t.phase == Finished && t.wake == 0))
    && (t.walker.Some? ==> !t.reported)
  }

  predicate CountInv(ts: seq<Task>, t: nat)
    requires t < |ts|
  {
    && ts[t].wake == (if Counted(ts[t].phase) then 1 else 0) + Children(ts, |ts|, t, false)
    && ts[t].removal == Own(ts[t]) + Hold(ts[t]) + Children(ts, |ts|, t, true)
  }

  /** `u` is `s` or one of its ancestors. */
  predicate Above(ts: seq<Task>, s: nat, u: nat) {
    s < |ts| && (s == u || (ts[s].parent.Some? && ts[s].parent.value < s && Above(ts, ts[s].parent.value, u)))
  }

  /** A walk is at the task that knows of it, which is above its start; a delayed task that it releases has no
      unfinished children. */
  predicate WalkTo(ts: seq<Task>, s: nat)
    requires s < |ts|
  {
    ts[s].walk.At? ==>
      var u := ts[s].walk.task;
      && Above(ts, s, u) && u < |ts| && ts[u].walker == Some(s)
      && (u != s ==>
            && ts[s].phase == Finished
            && (ts[u].phase == Releasing || ts[u].phase == Released ==> ts[u].wake == 1))
  }

  predicate WalkFrom(ts: seq<Task>, u: nat)
    requires u < |ts|
  {
    ts[u].walker.Some? ==> ts[u].walker.value < |ts| && ts[ts[u].walker.value].walk == At(u)
  }

  predicate WalkInv(ts: seq<Task>, s: nat)
    requires s < |ts|
  {
    (ts[s].parent.Some? ==> ts[s].parent.value < s) && WalkTo(ts, s) && WalkFrom(ts, s)
  }

  predicate Inv(ts: seq<Task>) {
    && (forall t :: 0 <= t < |ts| ==> LocalInv(ts[t]))
    && (forall t :: 0 <= t < |ts| ==> CountInv(ts, t))
    && (forall s :: 0 <= s < |ts| ==> WalkInv(ts, s))
  }

  lemma {:induction false} AboveSame(ts: seq<Task>, ts': seq<Task>, s: nat, u: nat)
    requires |ts| <= |ts'| && forall i :: 0 <= i < |ts| ==> ts'[i].parent == ts[i].parent
    requires Above(ts, s, u)
    ensures Above(ts', s, u)
  {
    if s != u { AboveSame(ts, ts', ts[s].parent.value, u); }
  }

  lemma {:induction false} AboveUp(ts: seq<Task>, s: nat, u: nat)
    requires Above(ts, s, u) && u < |ts| && ts[u].parent.Some? && ts[u].parent.value < u
    ensures Above(ts, s, ts[u].parent.value)
  {
    if s != u { AboveUp(ts, ts[s].parent.value, u); }
  }

  // ---------------------------------------------------------------------------------------------
  // Ancestors stay

  /** The ancestors of a task that is not disposed are not disposed either, and keep a removal count. */
  lemma {:induction false} AncestorsLive(ts: seq<Task>, s: nat, u: nat)
    requires Inv(ts) && s < |ts| && !ts[s].disposed && Above(ts, s, u)
    ensures u < |ts| && !ts[u].disposed && (u != s ==> ts[u].removal > 0)
  {
    assert LocalInv(ts[s]) && WalkInv(ts, s);
    if s != u {
      var p := ts[s].parent.value;
      ChildCounts(ts, |ts|, p, true, s);
      assert CountInv(ts, p) && LocalInv(ts[p]);
      AncestorsLive(ts, p, u);
    }
  }

  // ---------------------------------------------------------------------------------------------
  // Steps on a single task

  /** Only task `t` changes, and neither its place in the tree nor what its parent counts. */
  predicate OnlyAt(ts: seq<Task>, ts': seq<Task>, t: nat) {
    && |ts'| == |ts| && t < |ts| && (forall i :: 0 <= i < |ts| && i != t ==> ts'[i] == ts[i])
    && ts'[t].parent == ts[t].parent && ts'[t].reported == ts[t].reported && ts'[t].disposed == ts[t].disposed
  }

  lemma OnlyAtCounts(ts: seq<Task>, ts': seq<Task>, t: nat, i: nat)
    requires Inv(ts) && OnlyAt(ts, ts', t) && i < |ts|
    requires ts'[t].wake - ts[t].wake
             == (if Counted(ts'[t].phase) then 1 else 0) - (if Counted(ts[t].phase) then 1 else 0)
    requires ts'[t].removal - ts[t].removal == Own(ts'[t]) + Hold(ts'[t]) - Own(ts[t]) - Hold(ts[t])
    ensures CountInv(ts', i)
  {
    assert CountInv(ts, i);
    ChildrenSame(ts, ts', |ts|, i, false);
    ChildrenSame(ts, ts', |ts|, i, true);
  }

  /** The walks stay as they are. */
  lemma OnlyAtWalks(ts: seq<Task>, ts': seq<Task>, t: nat, i: nat)
    requires Inv(ts) && OnlyAt(ts, ts', t) && i < |ts|
    requires ts'[t].walk == ts[t].walk && ts'[t].walker == ts[t].walker
    requires ts[t].phase == Finished ==> ts'[t].phase == Finished
    requires ts[t].walker.Some? && (ts'[t].phase == Releasing || ts'[t].phase == Released) ==>
             ts'[t].wake == 1 || ts[t].walker == Some(t)
    ensures WalkInv(ts', i)
  {
    assert WalkInv(ts, i) && WalkInv(ts, t);
    if ts[i].walk.At? { AboveSame(ts, ts', i, ts[i].walk.task); }
  }

  lemma ActiveIsClean(ts: seq<Task>, t: nat)
    requires Inv(ts) && t < |ts| && ts[t].phase != Finished
    ensures !ts[t].reported && !ts[t].disposed && !ts[t].doomed && ts[t].removal > 0
    ensures ts[t].phase == Active || ts[t].phase == Resumed || ts[t].phase == Blocked || ts[t].phase == Delayed
            ==> ts[t].walk == NoWalk && ts[t].walker == None
  {
    assert LocalInv(ts[t]) && CountInv(ts, t) && WalkInv(ts, t);
    if ts[t].walk.At? { assert LocalInv(ts[ts[t].walk.task]); }
  }

  /** Steps of a task, or of the walk at a task, that change only its own counters. */
  predicate Quiet(ts: seq<Task>, step: Step, t: nat) {
    match step
    case Block(x) => x == t
    case Unblock(x) => x == t
    case Complete(x) => x == t && t < |ts| && ts[t].wait && ts[t].wake != 1
    case EndDelay(s) => Walking(ts, s) && Here(ts, s) == t
    case Unregister(s) => Walking(ts, s) && Here(ts, s) == t
    case FinishSelf(s) => Walking(ts, s) && Here(ts, s) == t && ts[t].wake == 1
    case DropDelayed(s) => Walking(ts, s) && Here(ts, s) == t
    case DisposeAccess(x) => x == t
    case _ => false
  }

  lemma WalkedTask(ts: seq<Task>, s: nat)
    requires Inv(ts) && Walking(ts, s)
    ensures Here(ts, s) == s ==> ts[s].walk != NoWalk
    ensures ts[Here(ts, s)].walker == Some(s) && Above(ts, s, Here(ts, s)) && ts[s].own && !ts[s].disposed
    ensures ts[s].removal > 0
    ensures !ts[Here(ts, s)].disposed && ts[Here(ts, s)].removal > 0
    ensures Here(ts, s) != s && ts[Here(ts, s)].own ==> ts[Here(ts, s)].removal > 1
  {
    var u := Here(ts, s);
    assert WalkInv(ts, s) && LocalInv(ts[s]) && CountInv(ts, s) && CountInv(ts, u) && LocalInv(ts[u]);
    AncestorsLive(ts, s, u);
    if u != s { ChildOnTheWay(ts, s, u); }
  }

  /** An ancestor of a live task has a live child. */
  lemma {:induction false} ChildOnTheWay(ts: seq<Task>, s: nat, u: nat)
    requires Inv(ts) && s < |ts| && !ts[s].disposed && Above(ts, s, u) && u != s
    ensures Children(ts, |ts|, u, true) > 0
  {
    var p := ts[s].parent.value;
    if p == u {
      ChildCounts(ts, |ts|, u, true, s);
    } else {
      AncestorsLive(ts, s, p);
      AboveSelf(ts, s, p);
      ChildOnTheWay(ts, p, u);
    }
  }

  lemma AboveSelf(ts: seq<Task>, s: nat, p: nat)
    requires s < |ts| && ts[s].parent == Some(p) && p < s
    ensures Above(ts, s, p)
  {
    assert Above(ts, p, p);
  }

  /** One record changes, in which the counters still agree with the phase, and no walk moves. */
  predicate Accounted(ts: seq<Task>, ts': seq<Task>, t: nat) {
    && OnlyAt(ts, ts', t) && LocalInv(ts'[t])
    && ts'[t].wake - ts[t].wake
       == (if Counted(ts'[t].phase) then 1 else 0) - (if Counted(ts[t].phase) then 1 else 0)
    && ts'[t].removal - ts[t].removal == Own(ts'[t]) + Hold(ts'[t]) - Own(ts[t]) - Hold(ts[t])
    && ts'[t].walk == ts[t].walk && ts'[t].walker == ts[t].walker
    && (ts[t].phase == Finished ==> ts'[t].phase == Finished)
    && (ts[t].walker.Some? && (ts'[t].phase == Releasing || ts'[t].phase == Released) ==>
          ts'[t].wake == 1 || ts[t].walker == Some(t))
  }

  /** The task itself pauses, goes on or completes. */
  lemma QuietTask(ts: seq<Task>, step: Step, t: nat)
    requires Inv(ts) && Enabled(ts, step) && Quiet(ts, step, t) && (step.Block? || step.Unblock? || step.Complete?)
    ensures Accounted(ts, Next(ts, step), t)
  {
    hide Above, Children, WalkTo, WalkFrom;
    assert LocalInv(ts[t]) && CountInv(ts, t);
    ActiveIsClean(ts, t);
  }

  /** The walk works at the task. */
  lemma QuietWalk(ts: seq<Task>, step: Step, t: nat)
    requires Inv(ts) && Enabled(ts, step) && Quiet(ts, step, t) && (step.EndDelay? || step.FinishSelf?)
    ensures Accounted(ts, Next(ts, step), t)
  {
    hide Above, Children;
    assert LocalInv(ts[t]);
    ActiveIsClean(ts, t);
    WalkedTask(ts, step.task);
  }

  /** The wake-up count of a task with a walk from below is one while its accesses are released. */
  lemma WalkedWake(ts: seq<Task>, s: nat, t: nat)
    requires Inv(ts) && Walking(ts, s) && Here(ts, s) == t && s != t
    ensures ts[t].phase == Releasing || ts[t].phase == Released ==> ts[t].wake == 1
  {
    assert WalkInv(ts, s);
  }

  lemma QuietRelease(ts: seq<Task>, s: nat, t: nat)
    requires Inv(ts) && Enabled(ts, Unregister(s)) && Here(ts, s) == t
    ensures Accounted(ts, Next(ts, Unregister(s)), t)
  {
    hide Above, Children, WalkInv;
    assert LocalInv(ts[t]) && CountInv(ts, t);
    WalkedTask(ts, s);
    if s != t { WalkedWake(ts, s, t); }
  }

  lemma QuietDrop(ts: seq<Task>, s: nat, t: nat)
    requires Inv(ts) && Enabled(ts, DropDelayed(s)) && Here(ts, s) == t
    ensures Accounted(ts, Next(ts, DropDelayed(s)), t)
  {
    hide Above, Children, WalkInv, CountInv;
    assert LocalInv(ts[t]);
    WalkedTask(ts, s);
  }

  lemma QuietAccess(ts: seq<Task>, t: nat)
    requires Inv(ts) && Enabled(ts, DisposeAccess(t))
    ensures Accounted(ts, Next(ts, DisposeAccess(t)), t)
  {
    hide Above, Children, WalkTo;
    assert LocalInv(ts[t]) && CountInv(ts, t) && WalkInv(ts, t);
    if ts[t].walker.Some? && ts[t].walker != Some(t) { WalkedWake(ts, ts[t].walker.value, t); }
  }

  lemma QuietChange(ts: seq<Task>, step: Step, t: nat)
    requires Inv(ts) && Enabled(ts, step) && Quiet(ts, step, t)
    ensures Accounted(ts, Next(ts, step), t)
  {
    hide Inv, Next, Accounted;
    match step
    case DisposeAccess(_) => QuietAccess(ts, t);
    case EndDelay(_) => QuietWalk(ts, step, t);
    case FinishSelf(_) => QuietWalk(ts, step, t);
    case Unregister(s) => QuietRelease(ts, s, t);
    case DropDelayed(s) => QuietDrop(ts, s, t);
    case _ => QuietTask(ts, step, t);
  }

  lemma QuietStep(ts: seq<Task>, step: Step, t: nat)
    requires Inv(ts) && Enabled(ts, step) && Quiet(ts, step, t)
    ensures Inv(Next(ts, step))
  {
    var ts' := Next(ts, step);
    QuietChange(ts, step, t);
    forall i | 0 <= i < |ts'| ensures LocalInv(ts'[i]) && CountInv(ts', i) && WalkInv(ts', i) {
      assert LocalInv(ts[i]);
      OnlyAtCounts(ts, ts', t, i);
      OnlyAtWalks(ts, ts', t, i);
    }
  }

  // ---------------------------------------------------------------------------------------------
  // Steps that start or end a walk at its own task

  predicate StartsWalk(ts: seq<Task>, ts': seq<Task>, t: nat)
    requires t < |ts| && t < |ts'|
  {
    ts[t].walk == NoWalk && ts[t].walker == None && ts'[t].walk == At(t) && ts'[t].walker == Some(t)
  }

  predicate EndsWalk(ts: seq<Task>, ts': seq<Task>, t: nat)
    requires t < |ts| && t < |ts'|
  {
    ts[t].walk == At(t) && ts[t].walker == Some(t) && ts'[t].walk == Ended && ts'[t].walker == None
  }

  predicate DropsWalk(ts: seq<Task>, ts': seq<Task>, t: nat)
    requires t < |ts| && t < |ts'|
  {
    ts[t].walk == Ended && ts'[t].walk == NoWalk && ts'[t].walker == ts[t].walker && ts'[t].phase == ts[t].phase
  }

  lemma OwnWalkKept(ts: seq<Task>, ts': seq<Task>, t: nat, i: nat)
    requires Inv(ts) && OnlyAt(ts, ts', t) && i < |ts|
    requires StartsWalk(ts, ts', t) || EndsWalk(ts, ts', t) || DropsWalk(ts, ts', t)
    requires ts'[t].wake == ts[t].wake || !DropsWalk(ts, ts', t)
    ensures WalkInv(ts', i)
  {
    assert WalkInv(ts, i) && WalkInv(ts, t) && LocalInv(ts[t]);
    if ts[i].walk.At? { AboveSame(ts, ts', i, ts[i].walk.task); }
  }

  lemma OwnStep(ts: seq<Task>, ts': seq<Task>, t: nat)
    requires Inv(ts) && OnlyAt(ts, ts', t) && LocalInv(ts'[t])
    requires ts'[t].wake - ts[t].wake
             == (if Counted(ts'[t].phase) then 1 else 0) - (if Counted(ts[t].phase) then 1 else 0)
    requires ts'[t].removal - ts[t].removal == Own(ts'[t]) + Hold(ts'[t]) - Own(ts[t]) - Hold(ts[t])
    requires StartsWalk(ts, ts', t) || EndsWalk(ts, ts', t) || DropsWalk(ts, ts', t)
    requires ts'[t].wake == ts[t].wake || !DropsWalk(ts, ts', t)
    ensures Inv(ts')
  {
    forall i | 0 <= i < |ts'| ensures LocalInv(ts'[i]) && CountInv(ts', i) && WalkInv(ts', i) {
      assert LocalInv(ts[i]);
      OnlyAtCounts(ts, ts', t, i);
      OwnWalkKept(ts, ts', t, i);
    }
  }

  lemma CompleteStep(ts: seq<Task>, t: nat)
    requires Inv(ts) && Enabled(ts, Complete(t)) && !Quiet(ts, Complete(t), t)
    ensures Inv(Next(ts, Complete(t)))
  {
    assert LocalInv(ts[t]) && CountInv(ts, t);
    ActiveIsClean(ts, t);
    OwnStep(ts, Next(ts, Complete(t)), t);
  }

  lemma DropOwnStep(ts: seq<Task>, t: nat)
    requires Inv(ts) && Enabled(ts, DropOwn(t))
    ensures Inv(Next(ts, DropOwn(t)))
  {
    assert LocalInv(ts[t]) && CountInv(ts, t);
    OwnStep(ts, Next(ts, DropOwn(t)), t);
  }

  /** The task that starts a walk may leave with children unfinished; a delayed one never does. */
  lemma FinishSelfStep(ts: seq<Task>, s: nat)
    requires Inv(ts) && Enabled(ts, FinishSelf(s)) && !Quiet(ts, FinishSelf(s), Here(ts, s))
    ensures Here(ts, s) == s && Inv(Next(ts, FinishSelf(s)))
  {
    var u := Here(ts, s);
    assert LocalInv(ts[u]) && CountInv(ts, u) && WalkInv(ts, s);
    WalkedTask(ts, s);
    ActiveIsClean(ts, u);
    OwnStep(ts, Next(ts, FinishSelf(s)), s);
  }

  // ---------------------------------------------------------------------------------------------
  // Climbing

  lemma {:induction false} AboveIsSmaller(ts: seq<Task>, s: nat, u: nat)
    requires Above(ts, s, u)
    ensures u <= s
  {
    if s != u { AboveIsSmaller(ts, ts[s].parent.value, u); }
  }

  /** The records that a climb touches: the reporting task `u`, the task `s` whose walk it is, and the parent `p`. */
  predicate Climbed(ts: seq<Task>, ts': seq<Task>, s: nat, u: nat, p: nat, w: Walk)
    requires s < |ts| && u < |ts| && p < |ts|
  {
    && |ts'| == |ts| && p != u && p != s
    && (forall i :: 0 <= i < |ts| && i != s && i != u && i != p ==> ts'[i] == ts[i])
    && ts'[u] == ts[u].(reported := true, walker := None, walk := if u == s then w else ts[u].walk)
    && (u != s ==> ts'[s] == ts[s].(walk := w))
    && ts'[p] == Told(ts[p]).(walker := if w == At(p) then Some(s) else ts[p].walker)
    && w == (if ClimbsOn(ts[p]) then At(p) else Ended)
  }

  lemma ClimbShape(ts: seq<Task>, s: nat) returns (w: Walk)
    requires Inv(ts) && Enabled(ts, Climb(s)) && ts[Here(ts, s)].parent.Some?
    ensures Climbed(ts, Next(ts, Climb(s)), s, Here(ts, s), ts[Here(ts, s)].parent.value, w)
  {
    var u := Here(ts, s);
    var p := ts[u].parent.value;
    WalkedTask(ts, s);
    assert WalkInv(ts, u);
    AboveIsSmaller(ts, s, u);
    w := if ClimbsOn(ts[p]) then At(p) else Ended;
  }

  /** What is known of the parent that a finished subtree reports to. */
  lemma ParentWaits(ts: seq<Task>, u: nat, p: nat)
    requires Inv(ts) && u < |ts| && p < |ts| && ts[u].parent == Some(p) && !ts[u].reported
    ensures ts[p].wake > (if Counted(ts[p].phase) then 1 else 0) && !ts[p].reported
    ensures ts[p].walker.Some? ==> ts[p].walker == Some(p) && Counted(ts[p].phase)
    ensures ts[p].phase != Resumed && ts[p].phase != DelayOver
  {
    ChildCounts(ts, |ts|, p, false, u);
    assert CountInv(ts, p) && LocalInv(ts[p]) && WalkInv(ts, p);
    if ts[p].walker.Some? { assert WalkInv(ts, ts[p].walker.value); }
  }

  /** The record of a parent after a report. */
  lemma ToldParent(t: Task, t': Task)
    requires LocalInv(t) && t.wake > (if Counted(t.phase) then 1 else 0) && !t.reported
    requires t.phase != Resumed && t.phase != DelayOver && (t.walker.Some? ==> Counted(t.phase))
    requires t' == Told(t).(walker := t'.walker)
    requires if ClimbsOn(t) then t'.walker.Some? else t'.walker == t.walker
    ensures LocalInv(t')
  {
  }

  lemma ClimbLocal(ts: seq<Task>, ts': seq<Task>, s: nat, u: nat, p: nat, w: Walk, i: nat)
    requires Inv(ts) && Enabled(ts, Climb(s)) && u == Here(ts, s) && ts[u].parent == Some(p) && p < |ts|
    requires Climbed(ts, ts', s, u, p, w) && i < |ts|
    ensures LocalInv(ts'[i])
  {
    hide Children, Above, Next, CountInv;
    assert LocalInv(ts[i]);
    if i == p {
      assert !ts[u].reported by { assert WalkInv(ts, s) && LocalInv(ts[u]); }
      ParentWaits(ts, u, p);
      ToldParent(ts[p], ts'[p]);
    } else if i == s || i == u {
      assert WalkInv(ts, s) && LocalInv(ts[u]) && LocalInv(ts[s]);
    }
  }

  predicate SameCounters(t: Task, t': Task) {
    && t'.wake == t.wake && t'.removal == t.removal && t'.phase == t.phase && t'.own == t.own
    && t'.accesses == t.accesses && t'.deletable == t.deletable
  }

  /** Nothing is reported or disposed except perhaps that `u` is reported. */
  predicate OnlyReports(ts: seq<Task>, ts': seq<Task>, u: nat) {
    |ts'| == |ts| && forall i :: 0 <= i < |ts| ==>
      && ts'[i].parent == ts[i].parent && ts'[i].disposed == ts[i].disposed
         && (i != u ==> ts'[i].reported == ts[i].reported)
  }

  lemma CountsKept(ts: seq<Task>, ts': seq<Task>, u: nat, i: nat)
    requires i < |ts| && OnlyReports(ts, ts', u) && CountInv(ts, i) && SameCounters(ts[i], ts'[i])
    requires u < |ts| && (ts[u].parent != Some(i) || ts'[u].reported == ts[u].reported)
    ensures CountInv(ts', i)
  {
    ChildrenSame(ts, ts', |ts|, i, false);
    ChildrenSame(ts, ts', |ts|, i, true);
  }

  lemma ChildReported(ts: seq<Task>, ts': seq<Task>, u: nat, p: nat)
    requires p < |ts| && u < |ts| && OnlyReports(ts, ts', u) && CountInv(ts, p) && ts[u].parent == Some(p)
    requires !ts[u].reported && ts'[u].reported
    requires SameCounters(ts[p].(wake := ts[p].wake - 1, phase := ts'[p].phase), ts'[p])
    requires Counted(ts'[p].phase) == Counted(ts[p].phase)
    ensures CountInv(ts', p)
  {
    ChildrenLess(ts, ts', |ts|, p, false, u);
    ChildrenSame(ts, ts', |ts|, p, true);
  }

  lemma ClimbedReports(ts: seq<Task>, ts': seq<Task>, s: nat, u: nat, p: nat, w: Walk)
    requires s < |ts| && u < |ts| && p < |ts| && Climbed(ts, ts', s, u, p, w)
    ensures OnlyReports(ts, ts', u) && ts'[u].reported
  {
    hide ClimbsOn;
  }

  lemma ClimbedCounters(ts: seq<Task>, ts': seq<Task>, s: nat, u: nat, p: nat, w: Walk, i: nat)
    requires s < |ts| && u < |ts| && p < |ts| && Climbed(ts, ts', s, u, p, w) && i < |ts|
    ensures if i == p then SameCounters(ts[p].(wake := ts[p].wake - 1, phase := ts'[p].phase), ts'[p])
            else SameCounters(ts[i], ts'[i])
  {
    hide ClimbsOn;
  }

  lemma ClimbCounts(ts: seq<Task>, ts': seq<Task>, s: nat, u: nat, p: nat, w: Walk, i: nat)
    requires Inv(ts) && Enabled(ts, Climb(s)) && u == Here(ts, s) && ts[u].parent == Some(p) && p < |ts|
    requires Climbed(ts, ts', s, u, p, w) && i < |ts|
    ensures CountInv(ts', i)
  {
    ClimbedReports(ts, ts', s, u, p, w);
    ClimbedCounters(ts, ts', s, u, p, w, i);
    assert CountInv(ts, i);
    if i == p {
      assert !ts[u].reported by { assert WalkInv(ts, s) && LocalInv(ts[u]); }
      assert Counted(ts'[p].phase) == Counted(ts[p].phase) by { ParentWaits(ts, u, p); }
      ChildReported(ts, ts', u, p);
    } else {
      CountsKept(ts, ts', u, i);
    }
  }

  /** The walk that climbs. */
  lemma ClimbOwnWalk(ts: seq<Task>, ts': seq<Task>, s: nat, u: nat, p: nat, w: Walk)
    requires Inv(ts) && Enabled(ts, Climb(s)) && u == Here(ts, s) && ts[u].parent == Some(p) && p < |ts|
    requires Climbed(ts, ts', s, u, p, w)
    ensures WalkInv(ts', s)
  {
    hide CountInv, Children, Next, LocalInv;
    assert WalkInv(ts, s) && WalkInv(ts, u);
    AboveUp(ts, s, u);
    AboveSame(ts, ts', s, p);
  }

  /** No other walk is where this one is, and none is on its way at the parent. */
  lemma OtherWalkElsewhere(ts: seq<Task>, s: nat, u: nat, p: nat, i: nat)
    requires Inv(ts) && Enabled(ts, Climb(s)) && u == Here(ts, s) && ts[u].parent == Some(p) && p < |ts|
    requires i < |ts| && i != s && ts[i].walk.At?
    ensures WalkTo(ts, i) && ts[i].walk.task != u
    ensures ts[i].walk.task == p ==> i == p && !ClimbsOn(ts[p])
  {
    assert WalkInv(ts, i) && WalkInv(ts, s) && LocalInv(ts[u]);
    if ts[i].walk.task == p { ParentWaits(ts, u, p); }
  }

  lemma ClimbOtherWalk(ts: seq<Task>, ts': seq<Task>, s: nat, u: nat, p: nat, w: Walk, i: nat)
    requires Inv(ts) && Enabled(ts, Climb(s)) && u == Here(ts, s) && ts[u].parent == Some(p) && p < |ts|
    requires Climbed(ts, ts', s, u, p, w) && i < |ts| && i != s
    ensures WalkTo(ts', i)
  {
    hide Inv, Next, Enabled;
    if ts[i].walk.At? {
      OtherWalkElsewhere(ts, s, u, p, i);
      AboveSame(ts, ts', i, ts[i].walk.task);
    }
  }

  lemma ClimbWalker(ts: seq<Task>, ts': seq<Task>, s: nat, u: nat, p: nat, w: Walk, i: nat)
    requires Inv(ts) && Enabled(ts, Climb(s)) && u == Here(ts, s) && ts[u].parent == Some(p) && p < |ts|
    requires Climbed(ts, ts', s, u, p, w) && i < |ts| && i != s
    ensures WalkFrom(ts', i)
  {
    assert WalkInv(ts, i) && WalkInv(ts, s);
    if i == p { ParentWaits(ts, u, p); }
  }

  lemma ClimbWalks(ts: seq<Task>, ts': seq<Task>, s: nat, u: nat, p: nat, w: Walk, i: nat)
    requires Inv(ts) && Enabled(ts, Climb(s)) && u == Here(ts, s) && ts[u].parent == Some(p) && p < |ts|
    requires Climbed(ts, ts', s, u, p, w) && i < |ts|
    ensures WalkInv(ts', i)
  {
    if i == s {
      ClimbOwnWalk(ts, ts', s, u, p, w);
    } else {
      assert ts'[i].parent == ts[i].parent && WalkInv(ts, i);
      ClimbOtherWalk(ts, ts', s, u, p, w, i);
      ClimbWalker(ts, ts', s, u, p, w, i);
    }
  }

  lemma ReportStep(ts: seq<Task>, s: nat)
    requires Inv(ts) && Enabled(ts, Climb(s)) && ts[Here(ts, s)].parent.Some?
    ensures Inv(Next(ts, Climb(s)))
  {
    var ts', u := Next(ts, Climb(s)), Here(ts, s);
    var p := ts[u].parent.value;
    var w := ClimbShape(ts, s);
    forall i | 0 <= i < |ts'| ensures LocalInv(ts'[i]) && CountInv(ts', i) && WalkInv(ts', i) {
      ClimbLocal(ts, ts', s, u, p, w, i);
      ClimbCounts(ts, ts', s, u, p, w, i);
      ClimbWalks(ts, ts', s, u, p, w, i);
    }
  }

  /** At the root the walk ends. */
  lemma RootShape(ts: seq<Task>, s: nat)
    requires Inv(ts) && Enabled(ts, Climb(s)) && ts[Here(ts, s)].parent.None?
    ensures var ts', u := Next(ts, Climb(s)), Here(ts, s);
            && |ts'| == |ts| && (forall i :: 0 <= i < |ts| && i != s && i != u ==> ts'[i] == ts[i])
            && ts'[u] == ts[u].(walker := None, walk := if u == s then Ended else ts[u].walk)
            && (u != s ==> ts'[s] == ts[s].(walk := Ended))
            && LocalInv(ts'[u]) && LocalInv(ts'[s])
  {
    assert LocalInv(ts[s]) && WalkInv(ts, s) && LocalInv(ts[Here(ts, s)]);
  }

  lemma RootWalks(ts: seq<Task>, ts': seq<Task>, s: nat, i: nat)
    requires Inv(ts) && Enabled(ts, Climb(s)) && ts[Here(ts, s)].parent.None?
    requires ts' == Next(ts, Climb(s)) && i < |ts|
    ensures WalkInv(ts', i)
  {
    hide Next, CountInv, Children, LocalInv;
    RootShape(ts, s);
    assert WalkInv(ts, i) && WalkInv(ts, s);
    if ts[i].walk.At? {
      assert WalkInv(ts, ts[i].walk.task);
      AboveSame(ts, ts', i, ts[i].walk.task);
    }
  }

  lemma RootCounts(ts: seq<Task>, ts': seq<Task>, s: nat, i: nat)
    requires Inv(ts) && Enabled(ts, Climb(s)) && ts[Here(ts, s)].parent.None?
    requires ts' == Next(ts, Climb(s)) && i < |ts|
    ensures CountInv(ts', i)
  {
    hide Next, Above, Children, WalkInv, LocalInv;
    RootShape(ts, s);
    assert CountInv(ts, i);
    CountsKept(ts, ts', s, i);
  }

  lemma RootStep(ts: seq<Task>, s: nat)
    requires Inv(ts) && Enabled(ts, Climb(s)) && ts[Here(ts, s)].parent.None?
    ensures Inv(Next(ts, Climb(s)))
  {
    var ts' := Next(ts, Climb(s));
    RootShape(ts, s);
    forall i | 0 <= i < |ts'| ensures LocalInv(ts'[i]) && CountInv(ts', i) && WalkInv(ts', i) {
      assert LocalInv(ts[i]);
      RootCounts(ts, ts', s, i);
      RootWalks(ts, ts', s, i);
    }
  }

  // ---------------------------------------------------------------------------------------------
  // Disposal and creation

  /** Nothing changes for the walks. */
  lemma WalksKept(ts: seq<Task>, ts': seq<Task>, i: nat)
    requires Inv(ts) && |ts| <= |ts'| && i < |ts|
    requires forall j :: 0 <= j < |ts| ==> ts'[j].parent == ts[j].parent && ts'[j].phase == ts[j].phase
    requires forall j :: 0 <= j < |ts| ==> ts'[j].walk == ts[j].walk && ts'[j].walker == ts[j].walker
    requires forall j :: 0 <= j < |ts| && ts[j].walker.Some? ==> ts'[j].wake == ts[j].wake
    ensures WalkInv(ts', i)
  {
    assert WalkInv(ts, i);
    if ts[i].walk.At? { AboveSame(ts, ts', i, ts[i].walk.task); }
  }

  lemma DisposeShape(ts: seq<Task>, t: nat)
    requires Inv(ts) && Enabled(ts, Dispose(t))
    ensures ts[t].parent != Some(t)
    ensures var ts' := Next(ts, Dispose(t));
            && |ts'| == |ts| && (forall i :: 0 <= i < |ts| && i != t && ts[t].parent != Some(i) ==> ts'[i] == ts[i])
            && ts'[t] == ts[t].(doomed := false, disposed := true) && LocalInv(ts'[t])
            && (ts[t].parent.Some? ==> var p := ts[t].parent.value; ts'[p] == Removed(ts[p]) && LocalInv(ts'[p]))
  {
    hide Above, Children, WalkTo, WalkFrom;
    assert LocalInv(ts[t]) && WalkInv(ts, t);
    if ts[t].parent.Some? {
      var p := ts[t].parent.value;
      ChildCounts(ts, |ts|, p, true, t);
      assert CountInv(ts, p) && LocalInv(ts[p]);
    }
  }

  lemma DisposeCounts(ts: seq<Task>, ts': seq<Task>, t: nat, i: nat)
    requires Inv(ts) && Enabled(ts, Dispose(t)) && ts' == Next(ts, Dispose(t)) && i < |ts|
    ensures CountInv(ts', i)
  {
    hide Next, WalkInv, Above, Children;
    DisposeShape(ts, t);
    assert CountInv(ts, i) && LocalInv(ts[t]);
    ChildrenSame(ts, ts', |ts|, i, false);
    if ts[t].parent == Some(i) {
      ChildrenLess(ts, ts', |ts|, i, true, t);
    } else {
      ChildrenSame(ts, ts', |ts|, i, true);
    }
  }

  lemma DisposeStep(ts: seq<Task>, t: nat)
    requires Inv(ts) && Enabled(ts, Dispose(t))
    ensures Inv(Next(ts, Dispose(t)))
  {
    hide Above, Children, Next, CountInv, WalkInv;
    var ts' := Next(ts, Dispose(t));
    DisposeShape(ts, t);
    forall i | 0 <= i < |ts'| ensures LocalInv(ts'[i]) && CountInv(ts', i) && WalkInv(ts', i) {
      assert LocalInv(ts[i]);
      DisposeCounts(ts, ts', t, i);
      WalksKept(ts, ts', i);
    }
  }

  lemma {:induction false} NoChildrenYet(ts: seq<Task>, n: nat, p: nat, alive: bool)
    requires n <= |ts| && forall i :: 0 <= i < n && ts[i].parent.Some? ==> ts[i].parent.value < p
    ensures Children(ts, n, p, alive) == 0
  {
    if n > 0 { NoChildrenYet(ts, n - 1, p, alive); }
  }

  lemma SpawnLocal(ts: seq<Task>, p: Option<nat>, wait: bool, n: nat, i: nat)
    requires Inv(ts) && Enabled(ts, Spawn(p, wait, n)) && i < |ts|
    ensures LocalInv(Next(ts, Spawn(p, wait, n))[i])
  {
    hide CountInv, WalkInv;
    if p.Some? { ActiveIsClean(ts, p.value); }
    assert LocalInv(ts[i]);
  }

  lemma SpawnCounts(ts: seq<Task>, p: Option<nat>, wait: bool, n: nat, i: nat)
    requires Inv(ts) && Enabled(ts, Spawn(p, wait, n)) && i < |ts|
    ensures CountInv(Next(ts, Spawn(p, wait, n)), i)
  {
    hide LocalInv, WalkInv;
    var ts' := Next(ts, Spawn(p, wait, n));
    assert CountInv(ts, i);
    ChildrenSame(ts, ts', |ts|, i, false);
    ChildrenSame(ts, ts', |ts|, i, true);
  }

  lemma SpawnNew(ts: seq<Task>, p: Option<nat>, wait: bool, n: nat)
    requires Inv(ts) && Enabled(ts, Spawn(p, wait, n))
    ensures var ts' := Next(ts, Spawn(p, wait, n)); LocalInv(ts'[|ts|]) && CountInv(ts', |ts|) && WalkInv(ts', |ts|)
  {
    var ts' := Next(ts, Spawn(p, wait, n));
    forall i | 0 <= i < |ts'| && ts'[i].parent.Some? ensures ts'[i].parent.value < |ts| {
      if i < |ts| { assert WalkInv(ts, i); }
    }
    NoChildrenYet(ts', |ts'|, |ts|, false);
    NoChildrenYet(ts', |ts'|, |ts|, true);
  }

  lemma SpawnStep(ts: seq<Task>, p: Option<nat>, wait: bool, n: nat)
    requires Inv(ts) && Enabled(ts, Spawn(p, wait, n))
    ensures Inv(Next(ts, Spawn(p, wait, n)))
  {
    hide CountInv, LocalInv, WalkInv;
    var ts' := Next(ts, Spawn(p, wait, n));
    if p.Some? { ActiveIsClean(ts, p.value); }
    SpawnNew(ts, p, wait, n);
    forall i | 0 <= i < |ts| ensures LocalInv(ts'[i]) && CountInv(ts', i) && WalkInv(ts', i) {
      SpawnLocal(ts, p, wait, n, i);
      SpawnCounts(ts, p, wait, n, i);
      WalksKept(ts, ts', i);
    }
  }

  lemma StepInv(ts: seq<Task>, step: Step)
    requires Inv(ts) && Enabled(ts, step)
    ensures Inv(Next(ts, step))
  {
    match step
    case Spawn(p, wait, n) => SpawnStep(ts, p, wait, n);
    case Block(t) => QuietStep(ts, step, t);
    case Unblock(t) => QuietStep(ts, step, t);
    case Complete(t) => if Quiet(ts, step, t) { QuietStep(ts, step, t); } else { CompleteStep(ts, t); }
    case EndDelay(s) => QuietStep(ts, step, Here(ts, s));
    case Unregister(s) => QuietStep(ts, step, Here(ts, s));
    case FinishSelf(s) =>
      if Quiet(ts, step, Here(ts, s)) {
        QuietStep(ts, step, Here(ts, s));
      } else {
        FinishSelfStep(ts, s);
      }
    case DropDelayed(s) => QuietStep(ts, step, Here(ts, s));
    case Climb(s) => if ts[Here(ts, s)].parent.None? { RootStep(ts, s); } else { ReportStep(ts, s); }
    case DropOwn(s) => DropOwnStep(ts, s);
    case DisposeAccess(t) => QuietStep(ts, step, t);
    case Dispose(t) => DisposeStep(ts, t);
  }
}
