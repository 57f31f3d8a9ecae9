/** One task, its accesses in several trees, and the reductions of each tree: what a submitted task knows of a reduction
    that came before one of its accesses in the same chain. */
module SubmittedSuccessor {
  import opened AccessFlags
  import opened DataAccess
  import Tree = AccessTree
  import TreeInvariant = AccessTreeInvariant
  import Safety = AccessTreeSafety
  import opened ReductionOrder
  import opened ReductionInfo
  import Kept = ReductionInvariant
  import Memory = ReductionMemory
  import opened ReductionSafety
  import S = Submission
  import R = Readiness

  datatype World = World(trees: seq<ReductionInfo.State>, links: seq<S.Link>, task: R.Task)

  datatype Step =
    | Elsewhere(tree: nat, step: ReductionInfo.Step)
    | Register(tree: nat, chain: Tree.Chain, ty: AccessType, weak: bool, same: bool)
    | FindSatisfied(call: nat)
    | Count
    | SatisfyTask(access: nat, call: nat)
    | Finish

  function Start(n: nat): World {
    World(seq(n, d => ReductionInfo.EMPTY), [], R.Start(2))
  }

  /** The task and the trees alone. */
  function Task(s: World): S.State {
    S.State(seq(|s.trees|, d requires 0 <= d < |s.trees| => s.trees[d].tree), s.links, s.task)
  }

  /** The tree in which the step happens, if any, and what happens to its reductions. */
  function Where(s: World, step: Step): nat {
    match step
    case Elsewhere(d, _) => d
    case Register(d, _, _, _, _) => d
    case FindSatisfied(_) => if s.links == [] then 0 else s.links[|s.links| - 1].tree
    case SatisfyTask(j, _) => if j < |s.links| then s.links[j].tree else 0
    case _ => 0
  }

  function What(step: Step): Option<ReductionInfo.Step> {
    match step
    case Elsewhere(_, st) => Some(st)
    case Register(_, ch, ty, weak, same) => Some(Insert(ch, ty, weak, same))
    case FindSatisfied(k) => Some(Schedule(k))
    case SatisfyTask(_, k) => Some(Schedule(k))
    case _ => None
  }

  /** What the step is for the task, if anything. */
  function ForTask(s: World, step: Step): Option<S.Step> {
    match step
    case Elsewhere(d, st) =>
      if d < |s.trees| && TreeStep(s.trees[d], st).Some? then Some(S.Elsewhere(d, TreeStep(s.trees[d], st).value))
      else None
    case Register(d, ch, ty, weak, _) => Some(S.Register(d, ch, ty, weak))
    case FindSatisfied(k) =>
      var d := Where(s, step);
      if d < |s.trees| && Handling(s.trees[d], k) then Some(S.FindSatisfied(Current(s.trees[d], k))) else None
    case Count => Some(S.Count)
    case SatisfyTask(j, k) =>
      var d := Where(s, step);
      if d < |s.trees| && Handling(s.trees[d], k) then Some(S.SatisfyTask(j, Current(s.trees[d], k))) else None
    case Finish => Some(S.Finish)
  }

  /** The thread that registers in a chain has marked as closed what it took from the chain before. */
  predicate Marked(r: ReductionInfo.State, ch: Tree.Chain) {
    forall c :: c in r.closing && c < |r.reds| ==> Home(r, c) != ch
  }

  predicate ChainMarked(s: World, j: nat) {
    j < |s.links| && s.links[j].tree < |s.trees| && s.links[j].access < |s.trees[s.links[j].tree].tree.nodes| ==>
      Marked(s.trees[s.links[j].tree], s.trees[s.links[j].tree].tree.nodes[s.links[j].access].chain)
  }

  predicate TreesAllow(s: World, step: Step) {
    What(step).Some? ==> Where(s, step) < |s.trees| && ReductionInfo.Enabled(s.trees[Where(s, step)], What(step).value)
  }

  predicate TaskAllows(s: World, step: Step) {
    && (ForTask(s, step).Some? ==> S.Enabled(Task(s), ForTask(s, step).value))
    && (!step.Elsewhere? ==> ForTask(s, step).Some?)
  }

  /** Steps of the trees and of the task go together, and one thread registers the accesses of a chain. */
  predicate Enabled(s: World, step: Step) {
    && TreesAllow(s, step) && TaskAllows(s, step)
    && (What(step).Some? && What(step).value.Insert? ==> Marked(s.trees[Where(s, step)], What(step).value.chain))
    && (step.Finish? ==> forall j :: 0 <= j < |s.links| ==> ChainMarked(s, j))
  }

  function TaskAfter(s: World, step: Step): S.State
    requires TaskAllows(s, step)
  {
    if ForTask(s, step).Some? then S.Next(Task(s), ForTask(s, step).value) else Task(s)
  }

  function TreesAfter(s: World, step: Step): seq<ReductionInfo.State>
    requires TreesAllow(s, step)
  {
    var d := Where(s, step);
    if What(step).Some? then s.trees[d := ReductionInfo.Next(s.trees[d], What(step).value)] else s.trees
  }

  function Next(s: World, step: Step): World
    requires Enabled(s, step)
  {
    World(TreesAfter(s, step), TaskAfter(s, step).links, TaskAfter(s, step).task)
  }

  // ---------------------------------------------------------------------------------------------
  // What has left the bottom map stays out

  lemma {:induction false} BeforeIsSmaller(t: Tree.State, x: nat, y: nat)
    requires Safety.ChainBefore(t, x, y)
    ensures x < y < |t.nodes|
    decreases y
  {
    if t.nodes[y].pred.value != x { BeforeIsSmaller(t, x, t.nodes[y].pred.value); }
  }

  lemma {:induction false} BeforeBack(t: Tree.State, u: Tree.State, x: nat, y: nat)
    requires SameLinks(t, u) && Safety.ChainBefore(u, x, y) && y < |t.nodes|
    ensures Safety.ChainBefore(t, x, y)
    decreases y
  {
    if u.nodes[y].pred.value != x { BeforeBack(t, u, x, u.nodes[y].pred.value); }
  }

  /** Reduction `r` was created before access `a` in the chain of `a`, which does not participate in it. */
  ghost predicate Earlier(s: ReductionInfo.State, r: nat, a: nat) {
    && r < |s.reds| && a < |s.red| && s.red[a] != Some(r) && Safety.ChainBefore(s.tree, s.reds[r].first, a)
  }

  lemma EarlierIsHome(s: ReductionInfo.State, r: nat, a: nat)
    requires Inv(s) && Earlier(s, r, a)
    ensures a < |s.tree.nodes| && Home(s, r) == s.tree.nodes[a].chain
  {
    SameChain(s.tree, s.reds[r].first, a);
  }

  lemma StepStays(s: ReductionInfo.State, step: ReductionInfo.Step)
    requires Inv(s) && ReductionInfo.Enabled(s, step)
    ensures Memory.Keeps(s, ReductionInfo.Next(s, step)) && ReductionInfo.Next(s, step).tree == TreeAfter(s, step)
    ensures Inv(ReductionInfo.Next(s, step))
  {
    Memory.StepInv(s, step);
    Kept.StepStepped(s, step);
    Memory.StepKeeps(s, step, TreeAfter(s, step));
  }

  /** An access that was there before is earlier than no new reduction. */
  lemma StillEarlier(s: ReductionInfo.State, s': ReductionInfo.State, r: nat, a: nat)
    requires Inv(s) && Inv(s') && Memory.Keeps(s, s') && a < |s.red| && Earlier(s', r, a)
    requires r >= |s.reds| ==> s'.reds[r].first >= |s.red|
    ensures Earlier(s, r, a)
  {
    assert s'.red[..|s.red|][a] == s.red[a];
    BeforeIsSmaller(s'.tree, s'.reds[r].first, a);
    BeforeBack(s.tree, s'.tree, s'.reds[r].first, a);
  }

  lemma HomeStays(s: ReductionInfo.State, s': ReductionInfo.State, r: nat)
    requires Inv(s) && Memory.Keeps(s, s') && r < |s.reds|
    ensures Home(s', r) == Home(s, r)
  {
    assert FirstOk(s, r);
  }

  /** What is not open is not opened again, and only what was open is taken to be closed. */
  lemma NotOpenedAgain(s: ReductionInfo.State, step: ReductionInfo.Step, r: nat)
    requires Inv(s) && ReductionInfo.Enabled(s, step) && r < |s.reds| && !Open(s, r)
    ensures var s' := ReductionInfo.Next(s, step);
            r < |s'.reds| && !Open(s', r) && (r in s'.closing ==> r in s.closing)
  {
    StepStays(s, step);
    HomeStays(s, ReductionInfo.Next(s, step), r);
    if step.Insert? {
      InsertLeavesClosed(s, step.chain, step.ty, step.weak, step.same, TreeAfter(s, step), r);
    } else {
      OthersLeaveClosed(s, step, TreeAfter(s, step), r);
    }
  }

  lemma InsertLeavesClosed(s: ReductionInfo.State, ch: Tree.Chain, ty: AccessType, weak: bool, same: bool,
      t: Tree.State, r: nat)
    requires Inv(s) && Ready(s, Insert(ch, ty, weak, same)) && r < |s.reds| && !Open(s, r)
    ensures var s' := Apply(s, Insert(ch, ty, weak, same), t);
            (r in s'.closing ==> r in s.closing) && !(Home(s, r) in s'.entry && s'.entry[Home(s, r)] == r)
  {
    assert FirstOk(s, r) && EntryOk(s, ch);
    Kept.JoinedKinds(s, ch, ty, weak, same);
    if Prior(s, ch, ty).Some? && Prior(s, ch, ty) != Joined(s, ch, ty, same) { Kept.ClosesOpen(s, ch, ty, weak, same); }
  }

  lemma OthersLeaveClosed(s: ReductionInfo.State, step: ReductionInfo.Step, t: Tree.State, r: nat)
    requires Inv(s) && Ready(s, step) && !step.Insert? && r < |s.reds| && !Open(s, r)
    ensures var s' := Apply(s, step, t);
            (r in s'.closing ==> r in s.closing) && !(Home(s, r) in s'.entry && s'.entry[Home(s, r)] == r)
  {
    if step.Detach? { assert EntryOk(s, step.chain); }
  }

  // ---------------------------------------------------------------------------------------------
  // The invariant

  /** A reduction that came before access `j` has left the bottom map, and is closed once registration is over. */
  ghost predicate TakenOk(s: World, j: nat, r: nat) {
    j < |s.links| && s.links[j].tree < |s.trees| && Earlier(s.trees[s.links[j].tree], r, s.links[j].access) ==>
      && !Open(s.trees[s.links[j].tree], r)
      && (!s.task.registering ==> r !in s.trees[s.links[j].tree].closing)
  }

  ghost predicate WorldOk(s: World) {
    && (forall d :: 0 <= d < |s.trees| ==> Inv(s.trees[d]))
    && S.Inv(Task(s)) && (forall j: nat, r: nat :: TakenOk(s, j, r))
  }

  lemma StepTrees(s: World, step: Step, d: nat)
    requires WorldOk(s) && TreesAllow(s, step) && d < |s.trees|
    ensures |TreesAfter(s, step)| == |s.trees| && Inv(TreesAfter(s, step)[d])
    ensures TreesAfter(s, step)[d].tree
            == if What(step).Some? && d == Where(s, step) then TreeAfter(s.trees[d], What(step).value)
               else s.trees[d].tree
  {
    if What(step).Some? && d == Where(s, step) { StepStays(s.trees[d], What(step).value); }
  }

  /** What the task's step does to the trees. */
  lemma TaskTrees(s: World, step: Step, d: nat)
    requires TreesAllow(s, step) && TaskAllows(s, step) && d < |s.trees|
    ensures |TaskAfter(s, step).trees| == |s.trees|
    ensures TaskAfter(s, step).trees[d]
            == if What(step).Some? && d == Where(s, step) then TreeAfter(s.trees[d], What(step).value)
               else s.trees[d].tree
  {
    hide Tree.Enabled, Tree.Next, ReductionInfo.Ready;
    assert Task(s).trees[d] == s.trees[d].tree;
  }

  /** The trees and the task do what some step of theirs does. */
  lemma StepTask(s: World, step: Step)
    requires WorldOk(s) && Enabled(s, step)
    ensures Task(Next(s, step)) == TaskAfter(s, step)
  {
    NoTrees(s, step);
    forall d: nat | d < |s.trees|
      ensures |TreesAfter(s, step)| == |s.trees| == |TaskAfter(s, step).trees|
      ensures TreesAfter(s, step)[d].tree == TaskAfter(s, step).trees[d]
    {
      StepTrees(s, step, d);
      TaskTrees(s, step, d);
    }
    TaskIs(Next(s, step), TaskAfter(s, step));
  }

  lemma TaskIs(s: World, t: S.State)
    requires |s.trees| == |t.trees| && (forall d :: 0 <= d < |s.trees| ==> s.trees[d].tree == t.trees[d])
    requires s.links == t.links && s.task == t.task
    ensures Task(s) == t
  {
    assert Task(s).trees == t.trees;
  }

  lemma NoTrees(s: World, step: Step)
    requires Enabled(s, step)
    ensures |TaskAfter(s, step).trees| == |TreesAfter(s, step)| == |s.trees|
  {
  }

  /** An access that was linked before the step. */
  lemma LinkedTaken(s: World, step: Step, j: nat, r: nat)
    requires WorldOk(s) && Enabled(s, step) && j < |s.links| && j < |Next(s, step).links|
    requires Next(s, step).links[j].tree == s.links[j].tree && Next(s, step).links[j].access == s.links[j].access
    requires Next(s, step).task.registering == s.task.registering || step.Finish?
    ensures TakenOk(Next(s, step), j, r)
  {
    hide Tree.Inv, Inv;
    var d, a, s' := s.links[j].tree, s.links[j].access, Next(s, step);
    assert S.LinkOk(Task(s), j) && TakenOk(s, j, r);
    if What(step).Some? && d == Where(s, step) {
      if Earlier(s'.trees[d], r, a) { TreeTaken(s.trees[d], What(step).value, r, a); }
    } else if step.Finish? && Earlier(s.trees[d], r, a) {
      EarlierIsHome(s.trees[d], r, a);
      assert ChainMarked(s, j);
    }
  }

  lemma TreeTaken(t: ReductionInfo.State, step: ReductionInfo.Step, r: nat, a: nat)
    requires Inv(t) && ReductionInfo.Enabled(t, step) && a < |t.red| && Earlier(ReductionInfo.Next(t, step), r, a)
    requires Earlier(t, r, a) ==> !Open(t, r)
    ensures Earlier(t, r, a) && !Open(ReductionInfo.Next(t, step), r)
    ensures r in ReductionInfo.Next(t, step).closing ==> r in t.closing
  {
    StepStays(t, step);
    NewFirst(t, step);
    StillEarlier(t, ReductionInfo.Next(t, step), r, a);
    NotOpenedAgain(t, step, r);
  }

  lemma NewFirst(t: ReductionInfo.State, step: ReductionInfo.Step)
    requires Inv(t) && ReductionInfo.Enabled(t, step)
    ensures var t' := ReductionInfo.Next(t, step);
            forall r :: |t.reds| <= r < |t'.reds| ==> t'.reds[r].first == |t.red|
  {
    if step.Insert? { Kept.JoinedKinds(t, step.chain, step.ty, step.weak, step.same); }
  }

  /** The access that is registered: its registration takes what was open in its chain. */
  lemma RegisteredTaken(t: ReductionInfo.State, step: ReductionInfo.Step, r: nat)
    requires Inv(t) && ReductionInfo.Enabled(t, step) && step.Insert?
    requires Earlier(ReductionInfo.Next(t, step), r, |t.red|)
    ensures !Open(ReductionInfo.Next(t, step), r)
  {
    var t' := ReductionInfo.Next(t, step);
    StepStays(t, step);
    EarlierIsHome(t', r, |t.red|);
    Kept.Inserted(t.tree, step.chain, step.ty, step.weak);
  }

  /** Links are only added, by registration, and only the end of registration ends it. */
  lemma TaskLinks(t: S.State, step: S.Step)
    requires S.Enabled(t, step)
    ensures var t' := S.Next(t, step);
            && |t'.links| == |t.links| + (if step.Register? then 1 else 0)
            && (forall j :: 0 <= j < |t.links| ==>
                  t'.links[j].tree == t.links[j].tree && t'.links[j].access == t.links[j].access)
            && (t'.task.registering == t.task.registering || step.Finish?)
            && (step.Register? ==>
                  && t'.links[|t.links|] == S.Link(step.tree, |t.trees[step.tree].nodes|, false) && t.task.registering)
  {
  }

  lemma StepLinks(s: World, step: Step)
    requires TaskAllows(s, step)
    ensures var t := TaskAfter(s, step);
            && |t.links| == |s.links| + (if step.Register? then 1 else 0)
            && (forall j :: 0 <= j < |s.links| ==>
                  t.links[j].tree == s.links[j].tree && t.links[j].access == s.links[j].access)
            && (t.task.registering == s.task.registering || step.Finish?)
            && (step.Register? ==>
                  && step.tree < |s.trees| && t.task.registering
                  && t.links[|s.links|] == S.Link(step.tree, |s.trees[step.tree].tree.nodes|, false))
  {
    if ForTask(s, step).Some? { TaskLinks(Task(s), ForTask(s, step).value); }
  }

  lemma StepTaken(s: World, step: Step, j: nat, r: nat)
    requires WorldOk(s) && Enabled(s, step)
    ensures TakenOk(Next(s, step), j, r)
  {
    hide WorldOk, Earlier, Open;
    StepLinks(s, step);
    if j < |s.links| {
      LinkedTaken(s, step, j, r);
    } else if j < |Next(s, step).links| {
      NewTaken(s, step, j, r);
    }
  }

  lemma NewTaken(s: World, step: Step, j: nat, r: nat)
    requires WorldOk(s) && Enabled(s, step) && step.Register? && step.tree < |s.trees| && j < |Next(s, step).links|
    requires Next(s, step).links[j] == S.Link(step.tree, |s.trees[step.tree].tree.nodes|, false)
    requires Next(s, step).task.registering
    ensures TakenOk(Next(s, step), j, r)
  {
    if Earlier(Next(s, step).trees[step.tree], r, |s.trees[step.tree].red|) {
      RegisteredTaken(s.trees[step.tree], What(step).value, r);
    }
  }

  lemma StepOk(s: World, step: Step)
    requires WorldOk(s) && Enabled(s, step)
    ensures WorldOk(Next(s, step))
  {
    StepTask(s, step);
    if ForTask(s, step).Some? { S.StepInv(Task(s), ForTask(s, step).value); }
    forall d | 0 <= d < |Next(s, step).trees| ensures Inv(Next(s, step).trees[d]) { StepTrees(s, step, d); }
    forall j: nat, r: nat ensures TakenOk(Next(s, step), j, r) { StepTaken(s, step, j, r); }
  }

  // ---------------------------------------------------------------------------------------------
  // Whole runs

  ghost predicate CanRun(s: World, run: seq<Step>)
    decreases |run|
  {
    run != [] ==> Enabled(s, run[0]) && CanRun(Next(s, run[0]), run[1..])
  }

  ghost function Run(s: World, run: seq<Step>): World
    requires CanRun(s, run)
    decreases |run|
  {
    if run == [] then s else Run(Next(s, run[0]), run[1..])
  }

  ghost predicate Occurs(s: World) {
    exists n: nat, run: seq<Step> :: CanRun(Start(n), run) && Run(Start(n), run) == s
  }

  /** Each tree does what some run of its own does. */
  ghost predicate TreesReachable(s: World) {
    forall d :: 0 <= d < |s.trees| ==> TreeReachable(s.trees[d])
  }

  ghost predicate TreeReachable(t: ReductionInfo.State) {
    ReductionSafety.Reachable(t)
  }

  lemma StepReaches(s: World, step: Step)
    requires WorldOk(s) && Enabled(s, step) && TreesReachable(s)
    ensures TreesReachable(Next(s, step))
  {
    forall d | 0 <= d < |Next(s, step).trees| ensures TreeReachable(Next(s, step).trees[d]) {
      assert TreeReachable(s.trees[d]);
      if What(step).Some? && d == Where(s, step) { ReachesNext(s.trees[d], What(step).value); }
    }
  }

  lemma {:induction false} RunOk(s: World, run: seq<Step>)
    requires WorldOk(s) && TreesReachable(s) && CanRun(s, run)
    ensures WorldOk(Run(s, run)) && TreesReachable(Run(s, run))
    decreases |run|
  {
    if run != [] {
      StepOk(s, run[0]);
      StepReaches(s, run[0]);
      RunOk(Next(s, run[0]), run[1..]);
    }
  }

  lemma EmptyReachable()
    ensures TreeReachable(ReductionInfo.EMPTY) && Inv(ReductionInfo.EMPTY)
  {
    var none: seq<ReductionInfo.Step> := [];
    assert ReductionSafety.CanRun(ReductionInfo.EMPTY, none);
    assert ReductionSafety.Run(ReductionInfo.EMPTY, none) == ReductionInfo.EMPTY;
    ReductionSafety.ReachableInv(ReductionInfo.EMPTY);
  }

  lemma StartOk(n: nat)
    ensures WorldOk(Start(n)) && TreesReachable(Start(n))
  {
    EmptyReachable();
    assert Task(Start(n)).trees == S.Start(n).trees;
  }

  lemma OccursOk(s: World)
    requires Occurs(s)
    ensures WorldOk(s) && TreesReachable(s)
  {
    var n: nat, run: seq<Step> :| CanRun(Start(n), run) && Run(Start(n), run) == s;
    StartOk(n);
    RunOk(Start(n), run);
  }

  predicate WritesStrongly(n: Tree.Node) {
    IsWeak !in n.flags && (n.ty.WriteAccess? || n.ty.ReadWriteAccess?)
  }

  /** A submitted task that writes, and a reduction that came before its access in the same chain: all participants are
      released and the reduction is closed, so it has been combined if and only if the arrival of write permission at
      its first participant has been handled. */
  lemma SubmittedSees(s: World, j: nat, r: nat)
    requires Occurs(s) && s.task.submitted == 1 && j < |s.links| && s.links[j].tree < |s.trees|
    requires Earlier(s.trees[s.links[j].tree], r, s.links[j].access)
    requires s.links[j].access < |s.trees[s.links[j].tree].tree.nodes|
    requires WritesStrongly(s.trees[s.links[j].tree].tree.nodes[s.links[j].access])
    ensures var t := s.trees[s.links[j].tree];
            && AllReleased(t, r) && t.reds[r].closed
            && (t.reds[r].combinations == 1 <==> ArrivalHandled(t, r))
  {
    OccursOk(s);
    SeesIn(s, j, r);
  }

  lemma SeesIn(s: World, j: nat, r: nat)
    requires WorldOk(s) && TreesReachable(s) && s.task.submitted == 1 && j < |s.links| && s.links[j].tree < |s.trees|
    requires Earlier(s.trees[s.links[j].tree], r, s.links[j].access)
    requires s.links[j].access < |s.trees[s.links[j].tree].tree.nodes|
    requires WritesStrongly(s.trees[s.links[j].tree].tree.nodes[s.links[j].access])
    ensures var t := s.trees[s.links[j].tree];
            && AllReleased(t, r) && t.reds[r].closed && (t.reds[r].combinations == 1 <==> ArrivalHandled(t, r))
  {
    assert TreeReachable(s.trees[s.links[j].tree]) && TakenOk(s, j, r);
    WriterHolds(s, j);
    TreeSees(s.trees[s.links[j].tree], r, s.links[j].access);
  }

  lemma TreeSees(t: ReductionInfo.State, r: nat, y: nat)
    requires TreeReachable(t) && Inv(t) && Earlier(t, r, y) && !Open(t, r) && r !in t.closing
    requires y < |t.tree.nodes| && Sat(Write) in t.tree.nodes[y].flags
    ensures AllReleased(t, r) && t.reds[r].closed && (t.reds[r].combinations == 1 <==> ArrivalHandled(t, r))
  {
    assert RedOk(t, r);
    BeforeIsAfter(t.tree, t.reds[r].first, y);
    SuccessorSees(t, r, y);
  }

  lemma BeforeIsAfter(t: Tree.State, x: nat, y: nat)
    requires Safety.ChainBefore(t, x, y)
    ensures AtOrAfter(t, x, y)
  {
    BeforeIsSmaller(t, x, y);
    assert Safety.InSubtree(t, x, x) && Safety.InSubtree(t, y, y);
    assert Safety.Precedes(t, x, y);
  }

  /** A submitted task holds what it needs, and its registration is over. */
  lemma WriterHolds(s: World, j: nat)
    requires WorldOk(s) && s.task.submitted == 1 && j < |s.links| && s.links[j].tree < |s.trees|
    requires s.links[j].access < |s.trees[s.links[j].tree].tree.nodes|
    requires WritesStrongly(s.trees[s.links[j].tree].tree.nodes[s.links[j].access])
    ensures !s.task.registering && Sat(Write) in s.trees[s.links[j].tree].tree.nodes[s.links[j].access].flags
  {
    var d, a := s.links[j].tree, s.links[j].access;
    assert S.LinkOk(Task(s), j) && Tree.Inv(s.trees[d].tree) && Tree.ScheduleOk(s.trees[d].tree, a);
    S.StartedIsSatisfied(Task(s));
    assert S.AllStarted(Task(s));
  }
}
