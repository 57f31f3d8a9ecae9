/** A run in which an access after a reduction is satisfied, and its task scheduled, before the reduction is combined:
    the thread that brought write permission to the first participant has not handled that yet. */
module ReductionRace {
  import opened AccessFlags
  import opened DataAccess
  import Tree = AccessTree
  import Safety = AccessTreeSafety
  import opened ReductionOrder
  import opened ReductionInfo
  import opened ReductionSafety

  const ROOT := Tree.Root(0)
  const ALL_SAT := SatFlags(ALL_PERMS)
  const ALL_DONE := ChildDoneFlags(ALL_PERMS)
  const ALL_NEXT := NextSatFlags(ALL_PERMS)

  lemma AllPerm(p: Perm)
    ensures p in ALL_PERMS
  {
    match p { case Read => case Write => case Concurrent => case Commutative => }
  }

  // What the automata send in this run

  lemma SendsNothing(self: nat, ty: AccessType, held: Flags, added: Flags, succ: Option<nat>)
    requires !TwoWay(ty) && HasChild !in held + added && Unregistered !in held + added
    ensures Emit(self, ty, held, added, succ, None)
            == OneMessage(NextMessage(self, {}, NextIsParent in held + added, None, Schedules(ty, held, added)),
                Combines(ty, added))
  {
    assert NextPerms(ty, held, added) == {} && ChildPerms(held, added) == {};
  }

  lemma PassesAll(self: nat, ty: AccessType, held: Flags, to: nat)
    requires !TwoWay(ty) && HasChild !in held && NextIsParent !in held && ALL_SAT <= held && HasNext in held
    requires Unregistered !in held
    requires forall p :: ChildDone(p) !in held
    ensures Emit(self, ty, held, {Unregistered} + ALL_DONE, Some(to), None) == [Pass(self, to)]
  {
    var added := {Unregistered} + ALL_DONE;
    forall p ensures p in NextPerms(ty, held, added) {
      AllPerm(p);
    }
    forall p: Perm ensures p in ALL_PERMS { AllPerm(p); }
    assert NextPerms(ty, held, added) == ALL_PERMS && ChildPerms(held, added) == {};
    assert ALL_NEXT + {} == ALL_NEXT;
    assert Sat(Read) in SatFlags(ALL_PERMS);
  }

  function Pass(self: nat, to: nat): Message {
    Message(ALL_SAT, ALL_NEXT, self, Some(to), false, false)
  }

  // The states of the run

  predicate Plain(n: Tree.Node, ty: AccessType, flags: Flags, succ: Option<nat>, started: bool) {
    n.ty == ty && n.flags == flags && n.succ == succ && n.child.None? && n.started == started
  }

  predicate Quiet(t: Tree.State, n: nat) {
    |t.nodes| == n && t.sent == [] && t.finished == {} && t.bottom == (if n == 0 then map[] else map[ROOT := n - 1])
  }

  predicate Tables(s: State, red: seq<Option<nat>>, registered: seq<bool>, reds: seq<Reduction>, entry: map<Tree.Chain,
      nat>,
      closing: set<nat>) {
    s.red == red && s.registered == registered && s.reds == reds && s.entry == entry && s.closing == closing
      && s.handled == {}
  }

  predicate Tree1(t: Tree.State) {
    Quiet(t, 1) && Plain(t.nodes[0], WriteAccess, {IsWeak} + ALL_SAT, None, true)
  }

  predicate Tree2(t: Tree.State) {
    && Quiet(t, 2) && Plain(t.nodes[0], WriteAccess, {IsWeak, HasNext} + ALL_SAT, Some(1), true)
    && Plain(t.nodes[1], ReductionAccess, {}, None, true)
  }

  predicate Tree3(t: Tree.State) {
    && Quiet(t, 3) && Plain(t.nodes[0], WriteAccess, {IsWeak, HasNext} + ALL_SAT, Some(1), true)
    && Plain(t.nodes[1], ReductionAccess, {HasNext}, Some(2), true)
    && Plain(t.nodes[2], WriteAccess, {}, None, false)
  }

  lemma TreeStep1() returns (t: Tree.State, ts: Tree.Step)
    ensures ts == Tree.Insert(ROOT, WriteAccess, true) && Tree.Enabled(Tree.EMPTY, ts) && t == Tree.Next(Tree.EMPTY, ts)
    ensures Tree1(t)
  {
    hide Emit;
    ts := Tree.Insert(ROOT, WriteAccess, true);
    t := Tree.Next(Tree.EMPTY, ts);
    SendsNothing(0, WriteAccess, {IsWeak}, ALL_SAT, None);
    assert Tree.Out(Tree.EMPTY, Tree.Insert(ROOT, WriteAccess, true)) == [];
  }

  lemma Outcome2(r: Tree.State)
    requires Tree1(r)
    ensures Tree.Enabled(r, Tree.Insert(ROOT, ReductionAccess, false))
    ensures Tree2(Tree.Outcome(r, Tree.Insert(ROOT, ReductionAccess, false), []))
  {
    assert {IsWeak} + ALL_SAT + {HasNext} == {IsWeak, HasNext} + ALL_SAT;
  }

  lemma TreeStep2(r: Tree.State) returns (t: Tree.State, ts: Tree.Step)
    requires Tree1(r)
    ensures ts == Tree.Insert(ROOT, ReductionAccess, false) && Tree.Enabled(r, ts) && t == Tree.Next(r, ts) && Tree2(t)
  {
    ts := Tree.Insert(ROOT, ReductionAccess, false);
    Outcome2(r);
    SendsNothing(0, WriteAccess, {IsWeak} + ALL_SAT, {HasNext}, Some(1));
    assert Tree.Out(r, ts) == [];
    t := Tree.Next(r, ts);
  }

  lemma Outcome3(r: Tree.State)
    requires Tree2(r)
    ensures Tree.Enabled(r, Tree.Insert(ROOT, WriteAccess, false))
    ensures Tree3(Tree.Outcome(r, Tree.Insert(ROOT, WriteAccess, false), []))
  {
    assert {} + {HasNext} == {HasNext};
  }

  lemma TreeStep3(r: Tree.State) returns (t: Tree.State, ts: Tree.Step)
    requires Tree2(r)
    ensures ts == Tree.Insert(ROOT, WriteAccess, false) && Tree.Enabled(r, ts) && t == Tree.Next(r, ts) && Tree3(t)
  {
    hide Emit, Tree3, Tree.Outcome;
    ts := Tree.Insert(ROOT, WriteAccess, false);
    Outcome3(r);
    SendsNothing(1, ReductionAccess, {}, {HasNext}, Some(2));
    assert Tree.Out(r, ts) == [];
    t := Tree.Next(r, ts);
  }

  /** The accesses once the first is unregistered, and what has been sent since. */
  predicate Tree4(t: Tree.State, f0: Flags, f1: Flags, f2: Flags, started: bool, sent: seq<Tree.Sent>) {
    && |t.nodes| == 3 && t.finished == {} && t.bottom == map[ROOT := 2] && t.sent == sent
    && Plain(t.nodes[0], WriteAccess, f0, Some(1), true) && Plain(t.nodes[1], ReductionAccess, f1, Some(2), true)
    && Plain(t.nodes[2], WriteAccess, f2, None, started)
  }

  const OPEN0 := {IsWeak, HasNext} + ALL_SAT
  const DONE0 := {IsWeak, HasNext} + ALL_SAT + ({Unregistered} + ALL_DONE)
  const HELD1 := {HasNext} + ALL_SAT
  const DONE1 := {HasNext} + ALL_SAT + ({Unregistered} + ALL_DONE)
  const REQUEST := Message({}, {ReductionCombined}, 1, None, false, true)
  const START := Message({}, {}, 2, None, true, false)

  lemma Emits4()
    ensures Emit(0, WriteAccess, OPEN0, {Unregistered} + ALL_DONE, Some(1), None) == [Pass(0, 1)]
  {
    PassesAll(0, WriteAccess, OPEN0, 1);
  }

  lemma Outcome4(r: Tree.State)
    requires Tree3(r)
    ensures Tree.Enabled(r, Tree.Unregister(0))
    ensures Tree4(Tree.Outcome(r, Tree.Unregister(0), [Pass(0, 1)]), DONE0, {HasNext}, {}, false,
                  [Tree.Sent(Pass(0, 1), Tree.Deliver)])
  {
    assert Sat(Read) in ALL_SAT;
  }

  lemma TreeStep4(r: Tree.State) returns (t: Tree.State)
    requires Tree3(r)
    ensures Tree.Enabled(r, Tree.Unregister(0)) && t == Tree.Next(r, Tree.Unregister(0))
    ensures Tree4(t, DONE0, {HasNext}, {}, false, [Tree.Sent(Pass(0, 1), Tree.Deliver)])
  {
    hide Emit, Tree4, Tree.Outcome, SatFlags, ChildDoneFlags;
    Outcome4(r);
    Emits4();
    t := Tree.Next(r, Tree.Unregister(0));
    assert Tree.Out(r, Tree.Unregister(0)) == [Pass(0, 1)];
  }

  lemma EmitsRequest()
    ensures Emit(1, ReductionAccess, {HasNext}, ALL_SAT, Some(2), None) == [REQUEST]
  {
    SendsNothing(1, ReductionAccess, {HasNext}, ALL_SAT, Some(2));
    assert Sat(Write) in ALL_SAT by { AllPerm(Write); }
    assert NextSatFlags({}) + {ReductionCombined} == {ReductionCombined} && ForwardFlags(false, {}) == {};
  }

  lemma Outcome5(t: Tree.State)
    requires Tree4(t, DONE0, {HasNext}, {}, false, [Tree.Sent(Pass(0, 1), Tree.Deliver)])
    ensures Tree.Enabled(t, Tree.DeliverMessage(0))
    ensures Tree4(Tree.Outcome(t, Tree.DeliverMessage(0), [REQUEST]), DONE0, HELD1, {}, false,
                  [Tree.Sent(Pass(0, 1), Tree.Acknowledge), Tree.Sent(REQUEST, Tree.Acknowledge)])
  {
    assert NextSat(Read) in ALL_NEXT;
  }

  lemma TreeStep5(r: Tree.State) returns (t: Tree.State)
    requires Tree4(r, DONE0, {HasNext}, {}, false, [Tree.Sent(Pass(0, 1), Tree.Deliver)])
    ensures Tree.Enabled(r, Tree.DeliverMessage(0)) && t == Tree.Next(r, Tree.DeliverMessage(0))
    ensures Tree4(t, DONE0, HELD1, {}, false,
                  [Tree.Sent(Pass(0, 1), Tree.Acknowledge), Tree.Sent(REQUEST, Tree.Acknowledge)])
  {
    hide Emit, Tree.Outcome;
    Outcome5(r);
    EmitsRequest();
    t := Tree.Next(r, Tree.DeliverMessage(0));
  }

  lemma TreeStep6(r: Tree.State, sent: seq<Tree.Sent>) returns (t: Tree.State)
    requires Tree4(r, DONE0, HELD1, {}, false, sent)
    ensures Tree.Enabled(r, Tree.Unregister(1)) && t == Tree.Next(r, Tree.Unregister(1))
    ensures Tree4(t, DONE0, DONE1, {}, false, sent + [Tree.Sent(Pass(1, 2), Tree.Deliver)])
  {
    hide Emit;
    t := Tree.Next(r, Tree.Unregister(1));
    PassesAll(1, ReductionAccess, HELD1, 2);
    assert Tree.Out(r, Tree.Unregister(1)) == [Pass(1, 2)];
    assert Sat(Read) in ALL_SAT;
  }

  lemma EmitsStart()
    ensures Emit(2, WriteAccess, {}, ALL_SAT, None, None) == [START]
  {
    SendsNothing(2, WriteAccess, {}, ALL_SAT, None);
    assert Sat(Write) in ALL_SAT by { AllPerm(Write); }
    assert NextSatFlags({}) + {} == {} && ForwardFlags(false, {}) == {};
  }

  lemma Outcome7(t: Tree.State, sent: seq<Tree.Sent>)
    requires |sent| == 2 && Tree4(t, DONE0, DONE1, {}, false, sent + [Tree.Sent(Pass(1, 2), Tree.Deliver)])
    ensures Tree.Enabled(t, Tree.DeliverMessage(2))
    ensures Tree4(Tree.Outcome(t, Tree.DeliverMessage(2), [START]), DONE0, DONE1, ALL_SAT, false,
                  sent + [Tree.Sent(Pass(1, 2), Tree.Acknowledge), Tree.Sent(START, Tree.Schedule)])
  {
    assert NextSat(Read) in ALL_NEXT;
    assert {} + ALL_SAT == ALL_SAT;
  }

  lemma TreeStep7(r: Tree.State, sent: seq<Tree.Sent>) returns (t: Tree.State)
    requires |sent| == 2 && Tree4(r, DONE0, DONE1, {}, false, sent + [Tree.Sent(Pass(1, 2), Tree.Deliver)])
    ensures Tree.Enabled(r, Tree.DeliverMessage(2)) && t == Tree.Next(r, Tree.DeliverMessage(2))
    ensures Tree4(t, DONE0, DONE1, ALL_SAT, false,
                  sent + [Tree.Sent(Pass(1, 2), Tree.Acknowledge), Tree.Sent(START, Tree.Schedule)])
  {
    hide Emit, Tree.Outcome;
    Outcome7(r, sent);
    EmitsStart();
    t := Tree.Next(r, Tree.DeliverMessage(2));
  }

  lemma TreeStep8(r: Tree.State, sent: seq<Tree.Sent>) returns (t: Tree.State)
    requires |sent| == 2
    requires Tree4(r, DONE0, DONE1, ALL_SAT, false,
             sent + [Tree.Sent(Pass(1, 2), Tree.Acknowledge), Tree.Sent(START, Tree.Schedule)])
    ensures Tree.Enabled(r, Tree.AcknowledgeMessage(2)) && t == Tree.Next(r, Tree.AcknowledgeMessage(2))
    ensures Tree4(t, DONE0, DONE1 + ALL_NEXT, ALL_SAT, false,
                  sent + [Tree.Sent(Pass(1, 2), Tree.Done), Tree.Sent(START, Tree.Schedule)])
  {
    t := Tree.Next(r, Tree.AcknowledgeMessage(2));
  }

  lemma TreeStep9(r: Tree.State, sent: seq<Tree.Sent>) returns (t: Tree.State)
    requires |sent| == 2
    requires Tree4(r, DONE0, DONE1 + ALL_NEXT, ALL_SAT, false,
             sent + [Tree.Sent(Pass(1, 2), Tree.Done), Tree.Sent(START, Tree.Schedule)])
    ensures Tree.Enabled(r, Tree.ScheduleSender(3)) && t == Tree.Next(r, Tree.ScheduleSender(3))
    ensures Tree4(t, DONE0, DONE1 + ALL_NEXT, ALL_SAT, true,
                  sent + [Tree.Sent(Pass(1, 2), Tree.Done), Tree.Sent(START, Tree.Done)])
  {
    t := Tree.Next(r, Tree.ScheduleSender(3));
  }

  // The reduction and the calls

  const START0 := [Tree.Sent(Pass(0, 1), Tree.Acknowledge), Tree.Sent(REQUEST, Tree.Acknowledge)]

  predicate Over(s: State, registered: bool, red: Reduction, calls: nat) {
    && Tables(s, [None, Some(0), None], [false, registered, false], [red], map[], {}) && |s.calls| == calls
    && |s.owner| == |s.tree.sent|
  }

  /** Whatever is closed under steps: being reachable, in the end. */
  ghost predicate KeptBySteps(p: State -> bool) {
    forall s, step {:trigger Next(s, step)} :: Enabled(s, step) && p(s) ==> p(Next(s, step))
  }

  lemma Advance(p: State -> bool, r: State, step: Step, ts: Tree.Step, t: Tree.State) returns (s: State)
    requires KeptBySteps(p) && p(r) && Ready(r, step) && TreeStep(r, step) == Some(ts) && Tree.Enabled(r.tree, ts)
    requires t == Tree.Next(r.tree, ts)
    ensures p(s) && s == Apply(r, step, t)
  {
    s := Next(r, step);
  }

  lemma AdvanceStill(p: State -> bool, r: State, step: Step) returns (s: State)
    requires KeptBySteps(p) && p(r) && Ready(r, step) && TreeStep(r, step) == None
    ensures p(s) && s == Apply(r, step, r.tree)
  {
    s := Next(r, step);
  }

  // Each step of the run, from the tree that it leaves

  lemma Insert1(t: Tree.State)
    requires Tree1(t)
    ensures var step := Insert(ROOT, WriteAccess, true, true);
            && Ready(EMPTY, step) && Apply(EMPTY, step, t).tree == t
            && Tables(Apply(EMPTY, step, t), [None], [false], [], map[], {})
            && |Apply(EMPTY, step, t).calls| == 1 && Apply(EMPTY, step, t).owner == []
  {
  }

  lemma Insert2(r: State, t: Tree.State)
    requires Tree1(r.tree) && Tables(r, [None], [false], [], map[], {}) && |r.calls| == 1 && r.owner == [] && Tree2(t)
    ensures Ready(r, Insert(ROOT, ReductionAccess, false, true))
    ensures var s := Apply(r, Insert(ROOT, ReductionAccess, false, true), t);
            && s.tree == t && |s.calls| == 2 && s.owner == []
            && Tables(s, [None, Some(0)], [false, true], [Reduction(1, 3, false, false, 0)], map[ROOT := 0], {})
  {
  }

  lemma Insert3(r: State, t: Tree.State)
    requires Tree2(r.tree) && |r.calls| == 2 && r.owner == [] && Tree3(t)
    requires Tables(r, [None, Some(0)], [false, true], [Reduction(1, 3, false, false, 0)], map[ROOT := 0], {})
    ensures Ready(r, Insert(ROOT, WriteAccess, false, true))
    ensures var s := Apply(r, Insert(ROOT, WriteAccess, false, true), t);
            && s.tree == t && |s.calls| == 3 && s.owner == []
            && Tables(s, [None, Some(0), None], [false, true, false], [Reduction(1, 3, false, false, 0)], map[], {0})
  {
  }

  lemma Close(r: State)
    requires Tree3(r.tree) && |r.calls| == 3 && r.owner == []
    requires Tables(r, [None, Some(0), None], [false, true, false], [Reduction(1, 3, false, false, 0)], map[], {0})
    ensures Ready(r, MarkClosed(0)) && Apply(r, MarkClosed(0), r.tree).tree == r.tree
    ensures Over(Apply(r, MarkClosed(0), r.tree), true, Reduction(1, 2, true, false, 0), 3)
  {
  }

  lemma Unregister0(r: State, t: Tree.State)
    requires r.tree.sent == [] && |r.tree.nodes| == 3 && Over(r, true, Reduction(1, 2, true, false, 0), 3)
    requires |t.sent| == 1
    ensures Ready(r, Unregister(0))
    ensures var s := Apply(r, Unregister(0), t);
            s.tree == t && Over(s, true, Reduction(1, 2, true, false, 0), 4) && s.calls[3] == Call(0, None, [0], None)
  {
  }

  /** A call without a message goes on to the only one that waits. */
  lemma TakeFirst(r: State, k: nat, i: nat, red: Reduction, registered: bool)
    requires Over(r, registered, red, k + 1) && r.calls[k].current.None? && r.calls[k].stack == [i]
    requires |r.tree.nodes| == 3
    ensures Ready(r, Take(k))
    ensures var s := Apply(r, Take(k), r.tree);
            && s.tree == r.tree && Over(s, registered, red, k + 1)
            && s.calls[k] == Call(r.calls[k].start, Some(i), [], r.calls[k].seen)
  {
  }

  lemma DeliverOne(r: State, k: nat, i: nat, red: Reduction, registered: bool, t: Tree.State)
    requires Over(r, registered, red, k + 1) && r.calls[k].current == Some(i) && r.calls[k].stack == []
    requires |r.tree.nodes| == 3
    requires i < |r.tree.sent| && |t.sent| == |r.tree.sent| + 1
    ensures Ready(r, Deliver(k)) && TreeStep(r, Deliver(k)) == Some(Tree.DeliverMessage(i))
    ensures var s := Apply(r, Deliver(k), t);
            && s.tree == t && Over(s, registered, red, k + 1)
            && s.calls[k] == r.calls[k].(stack := [|r.tree.sent|])
  {
  }

  lemma Release1(r: State)
    requires Over(r, true, Reduction(1, 2, true, false, 0), 4) && |r.tree.nodes| == 3
    ensures Ready(r, Release(1))
    ensures var s := Apply(r, Release(1), r.tree);
            && s.tree == r.tree
            && Over(s, false, Reduction(1, 1, true, false, 0), 4)
  {
  }

  lemma Unregister1(r: State, t: Tree.State)
    requires |r.tree.sent| == 2 && |r.tree.nodes| == 3 && Over(r, false, Reduction(1, 1, true, false, 0), 4)
    requires |t.sent| == 3
    ensures Ready(r, Unregister(1))
    ensures var s := Apply(r, Unregister(1), t);
            s.tree == t && Over(s, false, Reduction(1, 1, true, false, 0), 5)
              && s.calls[4] == Call(1, None, [2], Some(0))
  {
  }

  // The run

  /** The weak write, the reduction and the second write are registered, which closes the reduction. */
  lemma Registrations(p: State -> bool) returns (s: State)
    requires KeptBySteps(p) && p(EMPTY)
    ensures p(s) && Tree3(s.tree) && Over(s, true, Reduction(1, 2, true, false, 0), 3)
  {
    hide KeptBySteps, Tree1, Tree2;
    var t, ts := TreeStep1();
    Insert1(t);
    s := Advance(p, EMPTY, Insert(ROOT, WriteAccess, true, true), ts, t);
    t, ts := TreeStep2(s.tree);
    Insert2(s, t);
    s := Advance(p, s, Insert(ROOT, ReductionAccess, false, true), ts, t);
    t, ts := TreeStep3(s.tree);
    Insert3(s, t);
    s := Advance(p, s, Insert(ROOT, WriteAccess, false, true), ts, t);
    Close(s);
    s := AdvanceStill(p, s, MarkClosed(0));
  }

  /** The first thread unregisters the weak write and brings write permission to the reduction. */
  lemma FirstThread(p: State -> bool, r: State) returns (s: State)
    requires KeptBySteps(p) && p(r) && Tree3(r.tree) && Over(r, true, Reduction(1, 2, true, false, 0), 3)
    ensures p(s) && Over(s, true, Reduction(1, 2, true, false, 0), 4) && Tree4(s.tree, DONE0, HELD1, {}, false, START0)
  {
    var t := TreeStep4(r.tree);
    Unregister0(r, t);
    s := Advance(p, r, Unregister(0), Tree.Unregister(0), t);
    TakeFirst(s, 3, 0, Reduction(1, 2, true, false, 0), true);
    s := AdvanceStill(p, s, Take(3));
    t := TreeStep5(s.tree);
    DeliverOne(s, 3, 0, Reduction(1, 2, true, false, 0), true, t);
    s := Advance(p, s, Deliver(3), Tree.DeliverMessage(0), t);
  }

  /** The second thread releases and unregisters the reduction, and brings write permission to the second write. */
  lemma SecondThread(p: State -> bool, r: State) returns (s: State)
    requires KeptBySteps(p) && p(r) && Over(r, true, Reduction(1, 2, true, false, 0), 4)
    requires Tree4(r.tree, DONE0, HELD1, {}, false, START0)
    ensures p(s) && Over(s, false, Reduction(1, 1, true, false, 0), 5) && s.calls[4] == Call(1, Some(2), [3], Some(0))
    ensures Tree4(s.tree, DONE0, DONE1, ALL_SAT, false,
                  START0 + [Tree.Sent(Pass(1, 2), Tree.Acknowledge), Tree.Sent(START, Tree.Schedule)])
  {
    Release1(r);
    s := AdvanceStill(p, r, Release(1));
    var t := TreeStep6(s.tree, START0);
    Unregister1(s, t);
    s := Advance(p, s, Unregister(1), Tree.Unregister(1), t);
    TakeFirst(s, 4, 2, Reduction(1, 1, true, false, 0), false);
    s := AdvanceStill(p, s, Take(4));
    t := TreeStep7(s.tree, START0);
    DeliverOne(s, 4, 2, Reduction(1, 1, true, false, 0), false, t);
    s := Advance(p, s, Deliver(4), Tree.DeliverMessage(2), t);
  }

  lemma GoesOn(r: State, step: Step, t: Tree.State, i: nat)
    requires Over(r, false, Reduction(1, 1, true, false, 0), 5) && |r.tree.nodes| == 3 && r.calls[4].current == Some(i)
    requires i < |r.tree.sent| == |t.sent| && !r.tree.sent[i].msg.combine
    requires (step == Acknowledge(4) || step == Schedule(4))
    ensures Ready(r, step)
    ensures TreeStep(r, step) == Some(if step.Schedule? then Tree.ScheduleSender(i) else Tree.AcknowledgeMessage(i))
    ensures var s := Apply(r, step, t);
            && s.tree == t && Over(s, false, Reduction(1, 1, true, false, 0), 5)
            && s.calls == r.calls
  {
  }

  lemma TakeNext(r: State, i: nat)
    requires Over(r, false, Reduction(1, 1, true, false, 0), 5) && r.calls[4] == Call(1, Some(2), [i], Some(0))
    requires |r.tree.nodes| == 3
    requires 2 < |r.tree.sent| && r.tree.sent[2].stage.Done?
    ensures Ready(r, Take(4))
    ensures var s := Apply(r, Take(4), r.tree);
            s.tree == r.tree && Over(s, false, Reduction(1, 1, true, false, 0), 5)
              && s.calls[4] == Call(1, Some(i), [], Some(0))
  {
  }

  /** It acknowledges, and schedules the task of the second write. */
  lemma StartsTask(p: State -> bool, r: State) returns (s: State)
    requires KeptBySteps(p) && p(r) && Over(r, false, Reduction(1, 1, true, false, 0), 5)
    requires r.calls[4] == Call(1, Some(2), [3], Some(0))
    requires Tree4(r.tree, DONE0, DONE1, ALL_SAT, false,
                   START0 + [Tree.Sent(Pass(1, 2), Tree.Acknowledge), Tree.Sent(START, Tree.Schedule)])
    ensures p(s) && Over(s, false, Reduction(1, 1, true, false, 0), 5) && |s.tree.nodes| == 3
    ensures Plain(s.tree.nodes[2], WriteAccess, ALL_SAT, None, true)
    ensures Plain(s.tree.nodes[1], ReductionAccess, DONE1 + ALL_NEXT, Some(2), true)
  {
    var t := TreeStep8(r.tree, START0);
    GoesOn(r, Acknowledge(4), t, 2);
    s := Advance(p, r, Acknowledge(4), Tree.AcknowledgeMessage(2), t);
    TakeNext(s, 3);
    s := AdvanceStill(p, s, Take(4));
    t := TreeStep9(s.tree, START0);
    GoesOn(s, Schedule(4), t, 3);
    s := Advance(p, s, Schedule(4), Tree.ScheduleSender(3), t);
  }

  /** Access `y` comes after the reduction, and may write. */
  ghost predicate Early(s: State, r: nat, y: nat) {
    && r < |s.reds| && s.reds[r].closed && AllReleased(s, r) && s.reds[r].combinations == 0
    && y < |s.red| && y < |s.tree.nodes| && s.red[y] != Some(r) && AtOrAfter(s.tree, s.reds[r].first, y)
    && s.tree.nodes[y].started && Sat(Write) in s.tree.nodes[y].flags && s.tree.nodes[y].ty.WriteAccess?
  }

  lemma EarlyState(p: State -> bool) returns (s: State)
    requires KeptBySteps(p) && p(EMPTY)
    ensures p(s) && Over(s, false, Reduction(1, 1, true, false, 0), 5) && |s.tree.nodes| == 3
    ensures Plain(s.tree.nodes[2], WriteAccess, ALL_SAT, None, true) && s.tree.nodes[1].succ == Some(2)
    ensures NextIsParent !in s.tree.nodes[1].flags
  {
    hide KeptBySteps, Tree3, Tree4, Over, Tables;
    s := Registrations(p);
    s := FirstThread(p, s);
    s := SecondThread(p, s);
    s := StartsTask(p, s);
  }

  /** An access that comes after a closed reduction, whose participants are all released, can hold write permission and
      have its task scheduled before the reduction is combined. */
  lemma ScheduledBeforeCombined()
    ensures exists s: State :: Reachable(s) && Early(s, 0, 2)
  {
    var p := (s: State) => Reachable(s);
    forall s, step {:trigger Next(s, step)} | Enabled(s, step) && p(s)
      ensures p(Next(s, step))
    {
      ReachesNext(s, step);
    }
    assert CanRun(EMPTY, []) && Run(EMPTY, []) == EMPTY;
    var s := EarlyState(p);
    ReachableInv(s);
    EarlyIs(s);
  }

  lemma EarlyIs(s: State)
    requires Tree.Inv(s.tree) && Over(s, false, Reduction(1, 1, true, false, 0), 5) && |s.tree.nodes| == 3
    requires Plain(s.tree.nodes[2], WriteAccess, ALL_SAT, None, true) && s.tree.nodes[1].succ == Some(2)
    requires NextIsParent !in s.tree.nodes[1].flags
    ensures Early(s, 0, 2)
  {
    assert Tree.Linked(s.tree, 1);
    assert Safety.ChainBefore(s.tree, 1, 2) && Safety.InSubtree(s.tree, 1, 1) && Safety.InSubtree(s.tree, 2, 2);
    assert Safety.Precedes(s.tree, 1, 2);
    assert Sat(Write) in ALL_SAT by { AllPerm(Write); }
  }
}
