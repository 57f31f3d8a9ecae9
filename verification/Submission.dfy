/** One task with accesses to several addresses, each in its own tree of accesses: the counter of `Readiness` over the
    protocol of `AccessTree`, while any thread takes the next step. */
module Submission {
  import opened AccessFlags
  import opened DataAccess
  import Tree = AccessTree
  import TreeInvariant = AccessTreeInvariant
  import Safety = AccessTreeSafety
  import Meaning = AccessTreeMeaning
  import Program = AccessTreeProgram
  import R = Readiness

  /** An access of the task: which access of which tree. `mine` says that the registering thread itself handled its
      schedule request. */
  datatype Link = Link(tree: nat, access: nat, mine: bool)

  datatype State = State(trees: seq<Tree.State>, links: seq<Link>, task: R.Task)

  datatype Step =
    | Elsewhere(tree: nat, step: Tree.Step)   // anything that is not about scheduling this task
    | Register(tree: nat, chain: Tree.Chain, ty: AccessType, weak: bool)
    | FindSatisfied(i: nat)                   // the registering thread handles the request of the access just linked
    | Count
    | SatisfyTask(access: nat, i: nat)        // another thread handles the request of an access
    | Finish

  function Start(n: nat): State {
    State(seq(n, d => Tree.EMPTY), [], R.Start(2))
  }

  predicate Known(s: State, j: nat) {
    j < |s.links| && s.links[j].tree < |s.trees| && s.links[j].access < |s.trees[s.links[j].tree].nodes|
  }

  function NodeOf(s: State, j: nat): Tree.Node
    requires Known(s, j)
  {
    s.trees[s.links[j].tree].nodes[s.links[j].access]
  }

  /** The task waits for its strong accesses that are not reductions. */
  predicate Needs(n: Tree.Node) {
    !n.ty.ReductionAccess? && IsWeak !in n.flags
  }

  /** Message `i` of tree `d` asks for the task of access `j` to be scheduled, and is about to be handled. */
  predicate Asks(s: State, j: nat, d: nat, i: nat) {
    && Known(s, j) && s.links[j].tree == d && Tree.Enabled(s.trees[d], Tree.ScheduleSender(i))
    && s.trees[d].sent[i].msg.from == s.links[j].access
  }

  predicate Enabled(s: State, step: Step) {
    match step
    case Elsewhere(d, ts) =>
      d < |s.trees| && Tree.Enabled(s.trees[d], ts)
        && (ts.ScheduleSender? ==> forall j: nat :: j < |s.links| ==> !Asks(s, j, d, ts.i))
    case Register(d, ch, ty, weak) =>
      d < |s.trees| && Tree.Enabled(s.trees[d], Tree.Insert(ch, ty, weak))
        && R.Enabled(s.task, R.Link(!weak && !ty.ReductionAccess?))
    case FindSatisfied(i) =>
      s.links != [] && Asks(s, |s.links| - 1, s.links[|s.links| - 1].tree, i) && R.Enabled(s.task, R.Immediate)
    case Count => R.Enabled(s.task, R.Count)
    case SatisfyTask(j, i) => j < |s.links| && Asks(s, j, s.links[j].tree, i) && R.Enabled(s.task, R.Satisfy(j))
    case Finish => R.Enabled(s.task, R.Finish)
  }

  function Next(s: State, step: Step): State
    requires Enabled(s, step)
  {
    match step
    case Elsewhere(d, ts) => s.(trees := s.trees[d := Tree.Next(s.trees[d], ts)])
    case Register(d, ch, ty, weak) =>
      s.(trees := s.trees[d := Tree.Next(s.trees[d], Tree.Insert(ch, ty, weak))],
         links := s.links + [Link(d, |s.trees[d].nodes|, false)],
         task := R.Next(2, s.task, R.Link(!weak && !ty.ReductionAccess?)))
    case FindSatisfied(i) =>
      var j := |s.links| - 1;
      var d := s.links[j].tree;
      s.(trees := s.trees[d := Tree.Next(s.trees[d], Tree.ScheduleSender(i))],
         links := s.links[j := s.links[j].(mine := true)], task := R.Next(2, s.task, R.Immediate))
    case Count => s.(task := R.Next(2, s.task, R.Count))
    case SatisfyTask(j, i) =>
      var d := s.links[j].tree;
      s.(trees := s.trees[d := Tree.Next(s.trees[d], Tree.ScheduleSender(i))], task := R.Next(2, s.task, R.Satisfy(j)))
    case Finish => s.(task := R.Next(2, s.task, R.Finish))
  }

  // ---------------------------------------------------------------------------------------------
  // The invariant

  /** The counter's view of an access agrees with the tree. */
  predicate LinkOk(s: State, j: nat) {
    && Known(s, j) && j < |s.task.accesses|
    && s.task.accesses[j].waits == (Needs(NodeOf(s, j)) && !s.links[j].mine)
    && s.task.accesses[j].satisfied == (Needs(NodeOf(s, j)) && !s.links[j].mine && NodeOf(s, j).started)
    && (s.links[j].mine ==> NodeOf(s, j).started)
  }

  predicate Distinct(links: seq<Link>) {
    forall j, l :: 0 <= j < l < |links| ==> links[j].tree != links[l].tree || links[j].access != links[l].access
  }

  ghost predicate Inv(s: State) {
    && (forall d :: 0 <= d < |s.trees| ==> Tree.Inv(s.trees[d]))
    && |s.links| == |s.task.accesses| && (forall j: nat :: j < |s.links| ==> LinkOk(s, j))
    && Distinct(s.links) && R.Inv(2, s.task)
  }

  /** Only its own schedule request starts an access, and nothing changes its kind. */
  lemma NodeKept(t: Tree.State, ts: Tree.Step, a: nat)
    requires Tree.Inv(t) && Tree.Enabled(t, ts) && a < |t.nodes|
    ensures a < |Tree.Next(t, ts).nodes|
    ensures Needs(Tree.Next(t, ts).nodes[a]) <==> Needs(t.nodes[a])
    ensures Tree.Next(t, ts).nodes[a].started
            <==> t.nodes[a].started || (ts.ScheduleSender? && t.sent[ts.i].msg.from == a)
  {
    TreeInvariant.StepNode(t, ts, a);
    TreeInvariant.AddedKinds(t, ts);
  }

  lemma NewNode(t: Tree.State, ch: Tree.Chain, ty: AccessType, weak: bool)
    requires Tree.Inv(t) && Tree.Enabled(t, Tree.Insert(ch, ty, weak))
    ensures var u := Tree.Next(t, Tree.Insert(ch, ty, weak)); var n := |t.nodes|;
            && n < |u.nodes| && (Needs(u.nodes[n]) <==> !weak && !ty.ReductionAccess?)
            && (Needs(u.nodes[n]) ==> !u.nodes[n].started)
  {
    assert Tree.BottomOk(t, ch);
  }

  /** A link that the step is not about. */
  lemma OtherLink(s: State, s': State, d: nat, ts: Tree.Step, j: nat)
    requires Inv(s) && j < |s.links| && d < |s.trees| && Tree.Enabled(s.trees[d], ts)
    requires !(ts.ScheduleSender? && Asks(s, j, d, ts.i))
    requires s'.trees == s.trees[d := Tree.Next(s.trees[d], ts)] && j < |s'.links| && s'.links[j] == s.links[j]
    requires j < |s'.task.accesses|
    requires s'.task.accesses[j] == s.task.accesses[j].(counted := s'.task.accesses[j].counted)
    ensures LinkOk(s', j)
  {
    assert LinkOk(s, j);
    if s.links[j].tree == d { NodeKept(s.trees[d], ts, s.links[j].access); }
  }

  /** The link whose access is started. */
  lemma StartedLink(s: State, s': State, d: nat, i: nat, j: nat)
    requires Inv(s) && j < |s.links| && d < |s.trees| && Asks(s, j, d, i)
    requires s'.trees == s.trees[d := Tree.Next(s.trees[d], Tree.ScheduleSender(i))]
    requires j < |s'.links| && s'.links[j] == s.links[j].(mine := s'.links[j].mine) && j < |s'.task.accesses|
    requires s'.task.accesses[j].waits == (s.task.accesses[j].waits && !s'.links[j].mine)
    requires s'.task.accesses[j].satisfied == !s'.links[j].mine && s.task.accesses[j].waits && !s.links[j].mine
    ensures LinkOk(s', j)
  {
    assert LinkOk(s, j);
    NodeKept(s.trees[d], Tree.ScheduleSender(i), s.links[j].access);
  }

  /** Only one access of the task is the sender of a message. */
  lemma AsksOnce(s: State, j: nat, l: nat, d: nat, i: nat)
    requires Inv(s) && Asks(s, j, d, i) && Asks(s, l, d, i)
    ensures j == l
  {
  }

  /** Whatever asks for the task is counted: the counter blocks no thread. */
  lemma AskingIsWaiting(s: State, j: nat, d: nat, i: nat)
    requires Inv(s) && Asks(s, j, d, i) && j < |s.links|
    ensures R.Enabled(s.task, R.Satisfy(j))
  {
    assert LinkOk(s, j) && Tree.Inv(s.trees[d]);
    assert Tree.MessageOk(s.trees[d], i) && Tree.ScheduleOk(s.trees[d], s.links[j].access);
  }

  lemma StepTrees(s: State, step: Step, d: nat)
    requires Inv(s) && Enabled(s, step) && d < |Next(s, step).trees|
    ensures Tree.Inv(Next(s, step).trees[d])
  {
    match step
    case Elsewhere(e, ts) => if d == e { TreeInvariant.StepInv(s.trees[d], ts); }
    case Register(e, ch, ty, weak) => if d == e { TreeInvariant.StepInv(s.trees[d], Tree.Insert(ch, ty, weak)); }
    case FindSatisfied(i) =>
      if d == s.links[|s.links| - 1].tree {
        TreeInvariant.StepInv(s.trees[d], Tree.ScheduleSender(i));
      }
    case SatisfyTask(j, i) => if d == s.links[j].tree { TreeInvariant.StepInv(s.trees[d], Tree.ScheduleSender(i)); }
    case _ =>
  }

  lemma StepLink(s: State, step: Step, j: nat)
    requires Inv(s) && Enabled(s, step) && j < |Next(s, step).links|
    ensures LinkOk(Next(s, step), j)
  {
    hide Tree.Next, Tree.Inv, Tree.Enabled, R.Inv;
    var s' := Next(s, step);
    if j < |s.links| { assert LinkOk(s, j); }
    match step
    case Elsewhere(d, ts) => OtherLink(s, s', d, ts, j);
    case Register(d, ch, ty, weak) =>
      if j < |s.links| {
        OtherLink(s, s', d, Tree.Insert(ch, ty, weak), j);
      } else {
        NewNode(s.trees[d], ch, ty, weak);
      }
    case FindSatisfied(i) =>
      var l := |s.links| - 1;
      if j == l { StartedLink(s, s', s.links[l].tree, i, j); } else { SomeOther(s, s', l, i, j); }
    case SatisfyTask(l, i) =>
      if j == l { StartedLink(s, s', s.links[l].tree, i, j); } else { SomeOther(s, s', l, i, j); }
    case _ =>
  }

  lemma SomeOther(s: State, s': State, l: nat, i: nat, j: nat)
    requires Inv(s) && j < |s.links| && l < |s.links| && j != l && Asks(s, l, s.links[l].tree, i)
    requires s'.trees == s.trees[s.links[l].tree := Tree.Next(s.trees[s.links[l].tree], Tree.ScheduleSender(i))]
    requires j < |s'.links| && s'.links[j] == s.links[j]
    requires j < |s'.task.accesses| && s'.task.accesses[j] == s.task.accesses[j]
    ensures LinkOk(s', j)
  {
    var d := s.links[l].tree;
    if Asks(s, j, d, i) { AsksOnce(s, j, l, d, i); }
    OtherLink(s, s', d, Tree.ScheduleSender(i), j);
  }

  /** What the step is for the counter. */
  lemma StepCounter(s: State, step: Step)
    requires Inv(s) && Enabled(s, step)
    ensures R.Inv(2, Next(s, step).task) && |Next(s, step).links| == |Next(s, step).task.accesses|
  {
    match step
    case Elsewhere(_, _) =>
    case Register(_, _, ty, weak) => R.StepInv(2, s.task, R.Link(!weak && !ty.ReductionAccess?));
    case FindSatisfied(_) => R.StepInv(2, s.task, R.Immediate);
    case Count => R.StepInv(2, s.task, R.Count);
    case SatisfyTask(j, _) => R.StepInv(2, s.task, R.Satisfy(j));
    case Finish => R.StepInv(2, s.task, R.Finish);
  }

  lemma StepInv(s: State, step: Step)
    requires Inv(s) && Enabled(s, step)
    ensures Inv(Next(s, step))
  {
    hide Tree.Inv, Tree.Next, R.Inv;
    var s' := Next(s, step);
    StepCounter(s, step);
    forall d | 0 <= d < |s'.trees| ensures Tree.Inv(s'.trees[d]) { StepTrees(s, step, d); }
    forall j: nat | j < |s'.links| ensures LinkOk(s', j) { StepLink(s, step, j); }
    forall j: nat | j < |s.links|
      ensures s.links[j].tree < |s.trees| && s.links[j].access < |s.trees[s.links[j].tree].nodes|
    {
      assert LinkOk(s, j);
    }
  }

  // ---------------------------------------------------------------------------------------------
  // Whole runs

  ghost predicate CanRun(s: State, run: seq<Step>)
    decreases |run|
  {
    run != [] ==> Enabled(s, run[0]) && CanRun(Next(s, run[0]), run[1..])
  }

  ghost function Run(s: State, run: seq<Step>): State
    requires CanRun(s, run)
    decreases |run|
  {
    if run == [] then s else Run(Next(s, run[0]), run[1..])
  }

  ghost predicate Reachable(s: State) {
    exists n: nat, run: seq<Step> :: CanRun(Start(n), run) && Run(Start(n), run) == s
  }

  lemma {:induction false} RunInv(s: State, run: seq<Step>)
    requires Inv(s) && CanRun(s, run)
    ensures Inv(Run(s, run))
    decreases |run|
  {
    if run != [] {
      StepInv(s, run[0]);
      RunInv(Next(s, run[0]), run[1..]);
    }
  }

  lemma ReachableInv(s: State)
    requires Reachable(s)
    ensures Inv(s)
  {
    var n: nat, run: seq<Step> :| CanRun(Start(n), run) && Run(Start(n), run) == s;
    assert Inv(Start(n));
    RunInv(Start(n), run);
  }

  /** Each tree does what some run of its own does. */
  ghost predicate TreesReachable(s: State) {
    forall d :: 0 <= d < |s.trees| ==> TreeInvariant.Reachable(s.trees[d])
  }

  lemma TreeReaches(t: Tree.State, ts: Tree.Step)
    requires TreeInvariant.Reachable(t) && Tree.Enabled(t, ts)
    ensures TreeInvariant.Reachable(Tree.Next(t, ts))
  {
    var steps: seq<Tree.Step>, states: seq<Tree.State> :| TreeInvariant.Trace(steps, states) && t == states[|steps|];
    TreeInvariant.TraceGrows(steps, states, ts);
    var more := states + [Tree.Next(t, ts)];
    assert more[|steps + [ts]|] == Tree.Next(t, ts);
  }

  lemma StepReaches(s: State, step: Step)
    requires TreesReachable(s) && Enabled(s, step)
    ensures TreesReachable(Next(s, step))
  {
    match step
    case Elsewhere(d, ts) => TreeReaches(s.trees[d], ts);
    case Register(d, ch, ty, weak) => TreeReaches(s.trees[d], Tree.Insert(ch, ty, weak));
    case FindSatisfied(i) => TreeReaches(s.trees[s.links[|s.links| - 1].tree], Tree.ScheduleSender(i));
    case SatisfyTask(j, i) => TreeReaches(s.trees[s.links[j].tree], Tree.ScheduleSender(i));
    case _ =>
  }

  lemma {:induction false} RunReaches(s: State, run: seq<Step>)
    requires TreesReachable(s) && CanRun(s, run)
    ensures TreesReachable(Run(s, run))
    decreases |run|
  {
    if run != [] {
      StepReaches(s, run[0]);
      RunReaches(Next(s, run[0]), run[1..]);
    }
  }

  lemma TreesAreReachable(s: State)
    requires Reachable(s)
    ensures TreesReachable(s)
  {
    var n: nat, run: seq<Step> :| CanRun(Start(n), run) && Run(Start(n), run) == s;
    var none: seq<Tree.Step> := [];
    assert TreeInvariant.Trace(none, [Tree.EMPTY]) && [Tree.EMPTY][|none|] == Tree.EMPTY;
    RunReaches(Start(n), run);
  }

  /** What the task needs of the access: nothing if it is weak or a reduction, else the permission of its type. */
  predicate MayRun(n: Tree.Node) {
    IsWeak in n.flags ||
    match n.ty
    case ReadAccess => Sat(Read) in n.flags
    case WriteAccess => Sat(Write) in n.flags
    case ReadWriteAccess => Sat(Write) in n.flags
    case ConcurrentAccess => Sat(Concurrent) in n.flags
    case CommutativeAccess => Sat(Commutative) in n.flags
    case ReductionAccess => true
  }

  /** Every strong access that is not a reduction has been scheduled. */
  ghost predicate AllStarted(s: State) {
    forall j: nat :: j < |s.links| ==>
      Known(s, j) && (IsWeak in NodeOf(s, j).flags || NodeOf(s, j).ty.ReductionAccess? || NodeOf(s, j).started)
  }

  lemma StartedIsSatisfied(s: State)
    requires Inv(s)
    ensures AllStarted(s) <==> R.AllSatisfied(s.task.accesses)
  {
    forall j: nat | j < |s.links|
      ensures Known(s, j)
      ensures (s.task.accesses[j].waits ==> s.task.accesses[j].satisfied)
              <==> (Needs(NodeOf(s, j)) ==> NodeOf(s, j).started)
    {
      assert LinkOk(s, j);
    }
  }

  /** A task is submitted at most once, and has been if and only if its registration is over and the schedule request of
      every strong access that is not a reduction has been handled, in whatever tree and by whatever thread. */
  lemma SubmittedOnce(s: State)
    requires Reachable(s)
    ensures s.task.submitted <= 1
    ensures s.task.submitted == 1 <==> !s.task.registering && AllStarted(s)
  {
    ReachableInv(s);
    StartedIsSatisfied(s);
  }

  /** A submitted task has every permission it needs. */
  lemma SubmittedHasAll(s: State, j: nat)
    requires Reachable(s) && s.task.submitted == 1 && j < |s.links|
    ensures Known(s, j) && MayRun(NodeOf(s, j))
  {
    SubmittedOnce(s);
    ReachableInv(s);
    assert LinkOk(s, j);
    var d := s.links[j].tree;
    assert Tree.Inv(s.trees[d]) && Tree.ScheduleOk(s.trees[d], s.links[j].access);
  }

  /** No satisfied task is forgotten: once all messages are handled and registration is over, a task has been submitted
      if and only if every strong access that is not a reduction holds its own permission. */
  lemma SatisfiedIsSubmitted(s: State)
    requires Reachable(s) && !s.task.registering && forall d :: 0 <= d < |s.trees| ==> Meaning.Quiescent(s.trees[d])
    ensures s.task.submitted == 1 <==>
              forall j: nat :: j < |s.links| ==> Known(s, j) && MayRun(NodeOf(s, j))
  {
    SubmittedOnce(s);
    ReachableInv(s);
    forall j: nat | j < |s.links|
      ensures Known(s, j) && (Needs(NodeOf(s, j)) ==> (NodeOf(s, j).started <==> MayRun(NodeOf(s, j))))
      ensures !Needs(NodeOf(s, j)) ==> MayRun(NodeOf(s, j))
    {
      assert LinkOk(s, j);
      assert Tree.Inv(s.trees[s.links[j].tree]) && Tree.ScheduleOk(s.trees[s.links[j].tree], s.links[j].access);
    }
  }

  /** Registration adds the access that was asked for to its tree, and to the accesses of the task. */
  lemma RegistersAccess(s: State, d: nat, ch: Tree.Chain, ty: AccessType, weak: bool)
    requires Enabled(s, Register(d, ch, ty, weak))
    ensures var s' := Next(s, Register(d, ch, ty, weak));
            && s'.links == s.links + [Link(d, |s.trees[d].nodes|, false)] && |s'.trees| == |s.trees|
            && Program.Registers(s.trees[d], s'.trees[d], ch, ty, weak)
            && forall e :: 0 <= e < |s.trees| && e != d ==> s'.trees[e] == s.trees[e]
  {
    Program.InsertingRegisters(s.trees[d], ch, ty, weak);
  }

  /** The accesses before access `j` of the task that it has to wait for: those that are not unregistered and may not be
      in use together with it. */
  ghost predicate Clear(s: State, j: nat)
    requires Known(s, j)
  {
    var t, y := s.trees[s.links[j].tree], s.links[j].access;
    forall x: nat :: x < |t.nodes| && Safety.ChainBefore(t, x, y) ==>
      Unregistered in t.nodes[x].flags || Program.MayOverlap(t.nodes[x].ty, t.nodes[y].ty)
  }

  /** Nothing weak and nothing nested comes before access `j` of the task. */
  ghost predicate Plain(s: State, j: nat)
    requires Known(s, j)
  {
    var t, y := s.trees[s.links[j].tree], s.links[j].access;
    && t.nodes[y].chain.Root?
    && forall x: nat :: x < |t.nodes| && Safety.ChainBefore(t, x, y) ==>
         IsWeak !in t.nodes[x].flags && HasChild !in t.nodes[x].flags
  }

  lemma ClearIsMayRun(s: State, j: nat)
    requires Reachable(s) && Known(s, j) && Plain(s, j) && Meaning.Quiescent(s.trees[s.links[j].tree])
    requires IsWeak !in NodeOf(s, j).flags && !NodeOf(s, j).ty.ReductionAccess?
    ensures MayRun(NodeOf(s, j)) <==> Clear(s, j)
  {
    var t, y := s.trees[s.links[j].tree], s.links[j].access;
    TreesAreReachable(s);
    TreeInvariant.ReachableInv(t);
    assert Tree.ScheduleOk(t, y);
    Program.StartsWhenClear(t, y);
  }

  /** Tasks run as soon as they may: with all messages handled and registration over, a task whose accesses are in plain
      chains has been submitted if and only if, before each of its strong accesses other than reductions, everything has
      been unregistered that may not be in use together with it. */
  lemma SubmittedWhenClear(s: State)
    requires Reachable(s) && !s.task.registering && forall d :: 0 <= d < |s.trees| ==> Meaning.Quiescent(s.trees[d])
    requires forall j: nat :: j < |s.links| ==> Known(s, j) && Plain(s, j)
    ensures s.task.submitted == 1 <==>
              forall j: nat :: j < |s.links| ==>
                IsWeak in NodeOf(s, j).flags || NodeOf(s, j).ty.ReductionAccess? || Clear(s, j)
  {
    SatisfiedIsSubmitted(s);
    forall j: nat | j < |s.links|
      ensures MayRun(NodeOf(s, j))
              <==> IsWeak in NodeOf(s, j).flags || NodeOf(s, j).ty.ReductionAccess? || Clear(s, j)
    {
      if IsWeak !in NodeOf(s, j).flags && !NodeOf(s, j).ty.ReductionAccess? { ClearIsMayRun(s, j); }
    }
  }
}
