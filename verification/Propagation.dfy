/** The loop over the mailbox: it is one schedule of the atomic steps, it terminates, and it leaves no message
    behind. */
module Propagation {
  import opened AccessFlags
  import opened DataAccess
  import opened AccessTree
  import opened AccessTreeSteps
  import opened AccessTreeInvariant
  import opened AccessTreeSafety
  import opened AccessTreeMeaning
  import opened AccessTreeProgram

  // ---------------------------------------------------------------------------------------------
  // Termination

  function UnsetBits(fs: Flags, n: nat := WIDTH): nat
    requires n <= WIDTH
  {
    if n == 0 then 0 else UnsetBits(fs, n - 1) + if FlagAt(n - 1) in fs then 0 else 1
  }

  function TotalUnset(nodes: seq<Node>): nat {
    if nodes == [] then 0 else TotalUnset(nodes[..|nodes| - 1]) + UnsetBits(nodes[|nodes| - 1].flags)
  }

  function Weight(stage: Stage): nat {
    match stage case Deliver => 3 case Schedule => 2 case Acknowledge => 1 case Done => 0
  }

  function TotalWeight(sent: seq<Sent>): nat {
    if sent == [] then 0 else TotalWeight(sent[..|sent| - 1]) + Weight(sent[|sent| - 1].stage)
  }

  /** Unset flags weigh more than the two messages that setting one may produce. */
  function Measure(s: State): nat {
    9 * TotalUnset(s.nodes) + TotalWeight(s.sent)
  }

  predicate Propagates(step: Step) {
    step.DeliverMessage? || step.ScheduleSender? || step.AcknowledgeMessage?
  }

  lemma {:induction false} UnsetMonotone(fs: Flags, added: Flags, n: nat)
    requires n <= WIDTH
    ensures UnsetBits(fs + added, n) <= UnsetBits(fs, n)
    ensures (exists i: nat :: i < n && FlagAt(i) in added && FlagAt(i) !in fs) ==>
            UnsetBits(fs + added, n) < UnsetBits(fs, n)
  {
    if n > 0 {
      UnsetMonotone(fs, added, n - 1);
      if i: nat :| i < n && FlagAt(i) in added && FlagAt(i) !in fs {
        assert i < n - 1 || i == n - 1;
      }
    }
  }

  lemma UnsetDecreases(fs: Flags, added: Flags)
    requires fs !! added && added != {}
    ensures UnsetBits(fs + added) < UnsetBits(fs)
  {
    var f :| f in added;
    assert FlagAt(BitOf(f)) in added && FlagAt(BitOf(f)) !in fs;
    UnsetMonotone(fs, added, WIDTH);
  }

  lemma {:induction false} TotalUnsetUpdate(nodes: seq<Node>, a: nat, n: Node)
    requires a < |nodes|
    ensures TotalUnset(nodes[a := n]) == TotalUnset(nodes) - UnsetBits(nodes[a].flags) + UnsetBits(n.flags)
  {
    var m := |nodes| - 1;
    if a == m {
      assert nodes[a := n][..m] == nodes[..m];
    } else {
      assert nodes[a := n][..m] == nodes[..m][a := n];
      TotalUnsetUpdate(nodes[..m], a, n);
    }
  }

  lemma {:induction false} TotalWeightUpdate(sent: seq<Sent>, i: nat, e: Sent)
    requires i < |sent|
    ensures TotalWeight(sent[i := e]) == TotalWeight(sent) - Weight(sent[i].stage) + Weight(e.stage)
  {
    var m := |sent| - 1;
    if i == m {
      assert sent[i := e][..m] == sent[..m];
    } else {
      assert sent[i := e][..m] == sent[..m][i := e];
      TotalWeightUpdate(sent[..m], i, e);
    }
  }

  lemma {:induction false} TotalWeightAppend(sent: seq<Sent>, more: seq<Sent>)
    ensures TotalWeight(sent + more) <= TotalWeight(sent) + 3 * |more|
  {
    if more == [] {
      assert sent + more == sent;
    } else {
      var m := |more| - 1;
      assert (sent + more)[..|sent| + m] == sent + more[..m];
      TotalWeightAppend(sent, more[..m]);
    }
  }

  /** Every delivery, schedule request and acknowledgement decreases the measure, so propagation terminates
      however the threads interleave. */
  lemma PropagationDecreases(s: State, step: Step)
    requires Inv(s) && Enabled(s, step) && Propagates(step)
    ensures Measure(Next(s, step)) < Measure(s)
  {
    hide Linked, TokenOk, ScheduleOk, ArrivalOk, ReturnOk, ReportOk, TotalUnset, TotalWeight, UnsetBits;
    var i := step.i;
    var e := Prepare(s, step).sent[i];
    TotalWeightUpdate(s.sent, i, e);
    assert MessageOk(s, i);
    if step.ScheduleSender? {
      var a := s.sent[i].msg.from;
      TotalUnsetUpdate(s.nodes, a, s.nodes[a].(started := true));
    } else {
      var a := Subject(s, step);
      AddedIsFresh(s, step);
      UnsetDecreases(s.nodes[a].flags, Added(s, step));
      TotalUnsetUpdate(s.nodes, a, Next(s, step).nodes[a]);
      var raised, schedule := StepSends(s, step);
      TotalWeightAppend(s.sent[i := e], Post(Out(s, step)));
    }
  }

  /** A message that is not done can always be handled further. */
  function NextHandling(s: State, i: nat): (step: Step)
    requires i < |s.sent| && !s.sent[i].stage.Done?
    ensures Propagates(step) && step.i == i
  {
    match s.sent[i].stage
    case Deliver => DeliverMessage(i)
    case Schedule => ScheduleSender(i)
    case _ => AcknowledgeMessage(i)
  }

  lemma HandlingEnabled(s: State, i: nat)
    requires Inv(s) && i < |s.sent| && !s.sent[i].stage.Done?
    ensures Enabled(s, NextHandling(s, i))
  {
    assert MessageOk(s, i);
  }

  /** The steps can be taken one after the other from the state `s`. */
  predicate CanRun(s: State, steps: seq<Step>)
    decreases |steps|
  {
    steps == [] || (Enabled(s, steps[0]) && CanRun(Next(s, steps[0]), steps[1..]))
  }

  function Run(s: State, steps: seq<Step>): State
    requires CanRun(s, steps)
    decreases |steps|
  {
    if steps == [] then s else Run(Next(s, steps[0]), steps[1..])
  }

  /** A run of propagation steps from a reachable state is no longer than the measure. */
  lemma {:induction false} PropagationIsBounded(s: State, steps: seq<Step>)
    requires Inv(s) && CanRun(s, steps) && forall k :: 0 <= k < |steps| ==> Propagates(steps[k])
    ensures |steps| <= Measure(s)
    decreases |steps|
  {
    if steps != [] {
      assert Propagates(steps[0]);
      PropagationDecreases(s, steps[0]);
      StepInv(s, steps[0]);
      PropagationIsBounded(Next(s, steps[0]), steps[1..]);
    }
  }

  /** What a step does to the messages that exist: only the one it handles advances. */
  lemma StepSent(s: State, step: Step)
    requires Enabled(s, step)
    ensures |Next(s, step).sent| >= |s.sent|
    ensures forall j :: 0 <= j < |s.sent| && !(Propagates(step) && step.i == j) ==> Next(s, step).sent[j] == s.sent[j]
    ensures Propagates(step) ==>
              && Next(s, step).sent[step.i].msg == s.sent[step.i].msg
              && Next(s, step).sent[step.i].stage ==
                   (match step
                    case DeliverMessage(i) => AfterDeliver(s.sent[i].msg)
                    case ScheduleSender(i) => AfterSchedule(s.sent[i].msg)
                    case _ => Done)
  {
  }

  /** Propagation changes permissions only: pointers, chains, registration and parents stay as they were. */
  predicate Kept(s: State, t: State) {
    && |t.nodes| == |s.nodes| && t.bottom == s.bottom && t.finished == s.finished
    && forall a :: 0 <= a < |s.nodes| ==> NodeKept(s.nodes[a], t.nodes[a])
  }

  predicate NodeKept(n: Node, m: Node) {
    && ShapeOf(m) == ShapeOf(n) && m.chain == n.chain
    && (HasNext in m.flags <==> HasNext in n.flags) && (HasChild in m.flags <==> HasChild in n.flags)
    && (ParentDone in m.flags <==> ParentDone in n.flags) && (IsWeak in m.flags <==> IsWeak in n.flags)
    && (n.started ==> m.started)
  }

  lemma KeptTransitive(s: State, t: State, u: State)
    requires Kept(s, t) && Kept(t, u)
    ensures Kept(s, u)
  {
    forall a | 0 <= a < |s.nodes| ensures NodeKept(s.nodes[a], u.nodes[a]) {
      assert NodeKept(s.nodes[a], t.nodes[a]) && NodeKept(t.nodes[a], u.nodes[a]);
    }
  }

  /** The task of the access runs and has not released it. */
  predicate MayFinalize(s: State, a: nat) {
    a < |s.nodes| && s.nodes[a].started && Unregistered !in s.nodes[a].flags
  }

  /** The same accesses, with those in `more` unregistered as well. */
  ghost predicate SameRegistered(s: State, t: State, more: set<nat>) {
    && |t.nodes| == |s.nodes|
    && (forall b :: 0 <= b < |s.nodes| ==>
          (Unregistered in t.nodes[b].flags <==> b in more || Unregistered in s.nodes[b].flags))
  }

  lemma RegistersKept(s: State, u: State, t: State, ch: Chain, ty: AccessType, weak: bool)
    requires Registers(s, u, ch, ty, weak) && Kept(u, t)
    ensures Registers(s, t, ch, ty, weak)
  {
    forall b | 0 <= b < |u.nodes| ensures ShapeOf(t.nodes[b]) == ShapeOf(u.nodes[b]) {
      assert NodeKept(u.nodes[b], t.nodes[b]);
    }
  }

  lemma ClosingCloses(s: State, t: State, a: nat)
    requires Inv(s) && Enabled(s, CloseChain(a)) && Kept(Next(s, CloseChain(a)), t)
    ensures Enabled(t, Unregister(a)) && SameRegistered(s, t, {})
  {
    var u := Next(s, CloseChain(a));
    var last := s.bottom[Under(a)];
    StepNode(s, CloseChain(a), last);
    assert NodeKept(u.nodes[last], t.nodes[last]) && NodeKept(u.nodes[a], t.nodes[a]);
    forall b | 0 <= b < |s.nodes| ensures Unregistered in t.nodes[b].flags <==> Unregistered in s.nodes[b].flags {
      StepNode(s, CloseChain(a), b);
      assert NodeKept(u.nodes[b], t.nodes[b]);
    }
  }

  lemma FinishingFinishes(s: State, t: State, ch: Chain)
    requires Enabled(s, FinishParent(ch)) && Kept(Next(s, FinishParent(ch)), t)
    ensures t.bottom == s.bottom && t.finished == s.finished + {ch}
    ensures s.bottom[ch] < |t.nodes| && ParentDone in t.nodes[s.bottom[ch]].flags
  {
    assert NodeKept(Next(s, FinishParent(ch)).nodes[s.bottom[ch]], t.nodes[s.bottom[ch]]);
  }

  lemma UnregisteringUnregisters(s: State, t: State, a: nat)
    requires Inv(s) && Enabled(s, Unregister(a)) && Kept(Next(s, Unregister(a)), t) && Inv(t)
    ensures SameRegistered(s, t, {a})
    ensures HasChild in t.nodes[a].flags ==> Closed(t, a)
  {
    var u := Next(s, Unregister(a));
    forall b | 0 <= b < |s.nodes|
      ensures Unregistered in t.nodes[b].flags <==> b == a || Unregistered in s.nodes[b].flags
    {
      StepNode(s, Unregister(a), b);
      assert NodeKept(u.nodes[b], t.nodes[b]);
    }
    assert Linked(t, a);
  }

  /** Message `i` may have advanced. */
  predicate Advanced(s: State, t: State, i: nat) {
    s == t || Handled(s, t, i)
  }

  lemma AdvancedFurther(s: State, t: State, u: State, i: nat)
    requires Advanced(s, t, i) && Handled(t, u, i)
    ensures Advanced(s, u, i)
  {
    if s != t {
      KeptTransitive(s, t, u);
    }
  }

  lemma AdvancedKeeps(first: State, s: State, t: State, i: nat)
    requires Kept(first, s) && Advanced(s, t, i)
    ensures Kept(first, t)
  {
    if s != t {
      KeptTransitive(first, s, t);
    }
  }

  /** A node that gains neither structure nor the end of its life is kept. */
  lemma GainKeepsNode(n: Node, m: Node, added: Flags)
    requires m.pred == n.pred && m.chain == n.chain && m.ty == n.ty && (n.started ==> m.started)
    requires m.succ == n.succ && m.child == n.child && m.flags == n.flags + added
    requires forall f :: f in added ==> f.Sat? || f.NextSat? || f.ChildSat? || f.ChildDone? || f.ReductionCombined?
    ensures NodeKept(n, m)
  {
  }

  lemma PropagationKeepsNode(s: State, step: Step, a: nat)
    requires Inv(s) && Enabled(s, step) && Propagates(step) && a < |s.nodes|
    ensures a < |Next(s, step).nodes| && NodeKept(s.nodes[a], Next(s, step).nodes[a])
  {
    AddedKinds(s, step);
    StepNode(s, step, a);
    var added := if a == Subject(s, step) then Added(s, step) else {};
    GainKeepsNode(s.nodes[a], Next(s, step).nodes[a], added);
  }

  lemma PropagationKeeps(s: State, step: Step)
    requires Inv(s) && Enabled(s, step) && Propagates(step)
    ensures Kept(s, Next(s, step))
  {
    forall a | 0 <= a < |s.nodes| ensures NodeKept(s.nodes[a], Next(s, step).nodes[a]) {
      PropagationKeepsNode(s, step, a);
    }
  }

  /** Message `i` has advanced from `s` to `t`; the other messages of `s` are as they were. */
  predicate Handled(s: State, t: State, i: nat) {
    && |s.sent| <= |t.sent| && i < |s.sent|
    && (forall j :: 0 <= j < |s.sent| && j != i ==> t.sent[j] == s.sent[j])
    && t.sent[i].msg == s.sent[i].msg && Weight(t.sent[i].stage) < Weight(s.sent[i].stage)
    && (!s.sent[i].stage.Deliver? ==> |t.sent| == |s.sent|)
    && Measure(t) < Measure(s)
    && Kept(s, t)
  }

  lemma HandlingEffect(s: State, i: nat)
    requires Inv(s) && i < |s.sent| && !s.sent[i].stage.Done?
    ensures Enabled(s, NextHandling(s, i)) && Handled(s, Next(s, NextHandling(s, i)), i)
  {
    HandlingEnabled(s, i);
    PropagationDecreases(s, NextHandling(s, i));
    PropagationKeeps(s, NextHandling(s, i));
    StepSent(s, NextHandling(s, i));
  }

  function Range(n: nat, m: nat): (r: seq<nat>)
    requires n <= m
    ensures |r| == m - n && forall k :: 0 <= k < |r| ==> r[k] == n + k
  {
    seq(m - n, k requires 0 <= k => n + k)
  }

  /** Distinct positions below `n`. */
  predicate Stack(box: seq<nat>, n: nat) {
    && (forall k :: 0 <= k < |box| ==> box[k] < n)
    && (forall k, l :: 0 <= k < l < |box| ==> box[k] != box[l])
  }

  lemma RangeIsStack(n: nat, m: nat)
    requires n <= m
    ensures Stack(Range(n, m), m) && forall j :: j in Range(n, m) <==> n <= j < m
  {
    forall j | n <= j < m ensures j in Range(n, m) {
      assert Range(n, m)[j - n] == j;
    }
  }

  /** Taking the top of a stack and pushing what is new. */
  lemma StackStep(box: seq<nat>, n: nat, m: nat)
    requires box != [] && Stack(box, n) && n <= m
    ensures var rest := box[..|box| - 1]; var i := box[|box| - 1];
            && Stack(rest + Range(n, m), m) && i !in rest + Range(n, m)
            && (forall j :: j in box <==> j in rest || j == i)
            && (forall j :: j in rest + Range(n, m) <==> j in rest || n <= j < m)
  {
    var rest := box[..|box| - 1];
    assert box == rest + [box[|box| - 1]];
    forall j | n <= j < m ensures j in Range(n, m) {
      assert Range(n, m)[j - n] == j;
    }
  }

  /** While draining: what was sent since `first`, or was in the mailbox `mine` then, is done or still in `box`;
      the other messages are as they were. */
  predicate Draining(first: State, mine: seq<nat>, s: State, box: seq<nat>) {
    && |first.sent| <= |s.sent| && Stack(box, |s.sent|)
    && (forall i :: i in box ==> i in mine || i >= |first.sent|)
    && (forall i :: 0 <= i < |s.sent| && (i in mine || i >= |first.sent|) && i !in box ==> s.sent[i].stage.Done?)
    && (forall i :: 0 <= i < |first.sent| && i !in mine ==> s.sent[i] == first.sent[i])
  }

  lemma DrainStep(first: State, mine: seq<nat>, s: State, box: seq<nat>, t: State)
    requires Draining(first, mine, s, box) && box != [] && |s.sent| <= |t.sent|
    requires t.sent[box[|box| - 1]].stage.Done?
    requires forall j :: 0 <= j < |s.sent| && j != box[|box| - 1] ==> t.sent[j] == s.sent[j]
    ensures Draining(first, mine, t, box[..|box| - 1] + Range(|s.sent|, |t.sent|))
  {
    StackStep(box, |s.sent|, |t.sent|);
    assert box[|box| - 1] in box;
  }

  /** The steps `more` continue the steps `steps` with deliveries, schedule requests and acknowledgements only. */
  ghost predicate OnlyPropagation(steps: seq<Step>, more: seq<Step>) {
    exists tail: seq<Step> :: more == steps + tail && forall step :: step in tail ==> Propagates(step)
  }

  lemma OnlyPropagationStep(steps: seq<Step>, more: seq<Step>, step: Step)
    requires OnlyPropagation(steps, more) && Propagates(step)
    ensures OnlyPropagation(steps, more + [step])
  {
    var tail :| more == steps + tail && forall step :: step in tail ==> Propagates(step);
    assert more + [step] == steps + (tail + [step]);
  }

  lemma OnlyPropagationRefl(steps: seq<Step>)
    ensures OnlyPropagation(steps, steps)
  {
    assert steps == steps + [];
  }

  lemma OnlyPropagationTransitive(steps: seq<Step>, more: seq<Step>, most: seq<Step>)
    requires OnlyPropagation(steps, more) && OnlyPropagation(more, most)
    ensures OnlyPropagation(steps, most)
  {
    var t0 :| more == steps + t0 && forall step :: step in t0 ==> Propagates(step);
    var t1 :| most == more + t1 && forall step :: step in t1 ==> Propagates(step);
    assert most == steps + (t0 + t1);
  }

  // ---------------------------------------------------------------------------------------------
  // One thread at work

  /** The accesses of one address, and the mailbox of the thread that is updating them. */
  class DependencySystem {
    var state: State
    var mailBox: seq<nat>  // messages by position in the log; the last one is the top
    ghost var trace: seq<Step>
    ghost var states: seq<State>

    /** The state is the result of the steps taken so far. */
    ghost predicate Valid()
      reads this
    {
      Trace(trace, states) && state == states[|trace|]
    }

    constructor ()
      ensures Valid() && state == EMPTY && mailBox == [] && trace == []
    {
      state, mailBox, trace, states := EMPTY, [], [], [EMPTY];
    }

    /** One atomic step; the new messages are pushed in the order in which they were produced. */
    method Perform(step: Step)
      requires Valid() && Enabled(state, step)
      modifies this
      ensures Valid() && trace == old(trace) + [step] && Inv(old(state)) && Inv(state)
      ensures state == Next(old(state), step) && |old(state.sent)| <= |state.sent|
      ensures mailBox == old(mailBox) + Range(|old(state.sent)|, |state.sent|)
    {
      hide Inv, Emit;
      TraceInv(trace, states, |trace|);
      StepInv(state, step);
      TraceGrows(trace, states, step);
      var n := |state.sent|;
      state := Next(state, step);
      mailBox := mailBox + Range(n, |state.sent|);
      trace, states := trace + [step], states + [state];
    }

    /** Takes messages from the top until the mailbox is empty: applies each at its receiver, schedules its sender,
        sets the flags that acknowledge it. The messages taken, and all that they cause, are done at the end;
        nobody else's are touched. */
    method PropagateMessages()
      requires Valid() && Stack(mailBox, |state.sent|)
      modifies this
      ensures Valid() && mailBox == [] && Kept(old(state), state)
      ensures OnlyPropagation(old(trace), trace)
      ensures |old(state.sent)| <= |state.sent|
      ensures forall i :: 0 <= i < |state.sent| && (i in old(mailBox) || i >= |old(state.sent)|) ==>
              state.sent[i].stage.Done?
      ensures forall i :: 0 <= i < |old(state.sent)| && i !in old(mailBox) ==> state.sent[i] == old(state.sent)[i]
    {
      ghost var mine := old(mailBox);
      OnlyPropagationRefl(trace);
      while mailBox != []
        invariant Valid() && Draining(old(state), mine, state, mailBox) && Kept(old(state), state)
        invariant OnlyPropagation(old(trace), trace)
        decreases Measure(state), |mailBox|
      {
        ghost var s, box, t := state, mailBox, trace;
        var i := mailBox[|mailBox| - 1];
        mailBox := mailBox[..|mailBox| - 1];
        HandleMessage(i);
        OnlyPropagationTransitive(old(trace), t, trace);
        DrainStep(old(state), mine, s, box, state);
        AdvancedKeeps(old(state), s, state, i);
      }
    }

    /** Delivers message `i`, schedules its sender and acknowledges the delivery, each only if there is need. */
    method HandleMessage(i: nat)
      requires Valid() && i < |state.sent|
      modifies this
      ensures Valid() && |old(state.sent)| <= |state.sent| && state.sent[i].stage.Done?
      ensures OnlyPropagation(old(trace), trace)
      ensures mailBox == old(mailBox) + Range(|old(state.sent)|, |state.sent|)
      ensures Advanced(old(state), state, i)
    {
      hide OnlyPropagation, Propagates, Enabled, Prepare, Kept, Measure;
      ghost var s0 := state;
      OnlyPropagationRefl(trace);
      if state.sent[i].stage.Deliver? {
        OnlyPropagationStep(old(trace), trace, DeliverMessage(i));
        HandleOne(i, DeliverMessage(i));
      }
      ghost var s1 := state;
      if state.sent[i].stage.Schedule? {
        OnlyPropagationStep(old(trace), trace, ScheduleSender(i));
        HandleOne(i, ScheduleSender(i));
        AdvancedFurther(s0, s1, state, i);
      }
      ghost var s2 := state;
      if state.sent[i].stage.Acknowledge? {
        OnlyPropagationStep(old(trace), trace, AcknowledgeMessage(i));
        HandleOne(i, AcknowledgeMessage(i));
        AdvancedFurther(s0, s2, state, i);
      }
    }

    /** One step on message `i`, which has been taken from the mailbox. */
    method HandleOne(i: nat, step: Step)
      requires Valid() && i < |state.sent| && !state.sent[i].stage.Done? && step == NextHandling(state, i)
      modifies this
      ensures Valid() && trace == old(trace) + [step]
      ensures Handled(old(state), state, i)
      ensures mailBox == old(mailBox) + Range(|old(state.sent)|, |state.sent|)
    {
      TraceInv(trace, states, |trace|);
      HandlingEffect(state, i);
      Perform(step);
    }

    /** No message is left anywhere, so every permission flag is as the recursive definition says. */
    ghost predicate Settled()
      reads this
    {
      Valid() && mailBox == [] && Quiescent(state)
    }

    /** Takes the step `step` and propagates what it sends. */
    method Settle(step: Step)
      requires Settled() && Enabled(state, step)
      modifies this
      ensures Settled() && OnlyPropagation(old(trace) + [step], trace)
      ensures Kept(Next(old(state), step), state)
    {
      TraceInv(trace, states, |trace|);
      StepSent(state, step);
      ghost var n := |state.sent|;
      Perform(step);
      RangeIsStack(n, |state.sent|);
      assert mailBox == Range(n, |state.sent|);
      ghost var t := state;
      PropagateMessages();
    }

    /** Registers an access at the end of a chain. */
    method InsertAccess(chain: Chain, ty: AccessType, weak: bool)
      requires Settled() && Enabled(state, Insert(chain, ty, weak))
      modifies this
      ensures Settled() && Kept(Next(old(state), Insert(chain, ty, weak)), state)
      ensures Registers(old(state), state, chain, ty, weak)
    {
      ghost var s := state;
      Settle(Insert(chain, ty, weak));
      InsertingRegisters(s, chain, ty, weak);
      RegistersKept(s, Next(s, Insert(chain, ty, weak)), state, chain, ty, weak);
    }

    /** Makes the access the successor of its last child, if it has children. */
    method CloseChildren(a: nat)
      requires Settled() && MayFinalize(state, a)
      modifies this
      ensures Settled() && Enabled(state, Unregister(a)) && SameRegistered(old(state), state, {})
    {
      TraceInv(trace, states, |trace|);
      assert Linked(state, a) && BottomOk(state, Under(a));
      ghost var s := state;
      if HasChild in state.nodes[a].flags && !Closed(state, a) {
        Settle(CloseChain(a));
        ClosingCloses(s, state, a);
      }
    }

    /** Unregisters an access; if it has children, it first becomes the successor of the last of them. */
    method FinalizeDataAccess(a: nat)
      requires Settled() && MayFinalize(state, a)
      modifies this
      ensures Settled() && SameRegistered(old(state), state, {a})
      ensures HasChild in state.nodes[a].flags ==> Closed(state, a)
    {
      CloseChildren(a);
      ghost var s := state;
      TraceInv(trace, states, |trace|);
      Settle(Unregister(a));
      TraceInv(trace, states, |trace|);
      UnregisteringUnregisters(s, state, a);
    }

    /** Tells the last access of a chain that its parent is done. */
    method FinalizeChildAccesses(chain: Chain)
      requires Settled() && Enabled(state, FinishParent(chain))
      modifies this
      ensures Settled() && Kept(Next(old(state), FinishParent(chain)), state)
      ensures state.bottom == old(state).bottom && state.finished == old(state).finished + {chain}
      ensures state.bottom[chain] < |state.nodes| && ParentDone in state.nodes[state.bottom[chain]].flags
    {
      ghost var s := state;
      Settle(FinishParent(chain));
      FinishingFinishes(s, state, chain);
    }
  }
}
