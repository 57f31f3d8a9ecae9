/** What the reduction protocol guarantees in every run over the tree of accesses. */
module ReductionSafety {
  import opened AccessFlags
  import opened DataAccess
  import Tree = AccessTree
  import TreeInvariant = AccessTreeInvariant
  import Safety = AccessTreeSafety
  import Meaning = AccessTreeMeaning
  import opened ReductionOrder
  import opened ReductionInfo
  import opened ReductionInvariant
  import opened ReductionMemory

  // ---------------------------------------------------------------------------------------------
  // Whole runs

  ghost predicate CanRun(s: State, run: seq<Step>)
    decreases |run|
  {
    run != [] ==> Enabled(s, run[0]) && CanRun(Next(s, run[0]), run[1..])
  }

  ghost function Run(s: State, run: seq<Step>): State
    requires CanRun(s, run)
    decreases |run|
  {
    if run == [] then s else Run(Next(s, run[0]), run[1..])
  }

  ghost predicate Reachable(s: State) {
    exists run: seq<Step> :: CanRun(EMPTY, run) && Run(EMPTY, run) == s
  }

  /** The tree does what some run of the tree does. */
  lemma TreeReaches(s: State, step: Step)
    requires Enabled(s, step) && TreeInvariant.Reachable(s.tree)
    ensures TreeInvariant.Reachable(TreeAfter(s, step))
  {
    if TreeStep(s, step).Some? {
      var steps: seq<Tree.Step>, states: seq<Tree.State> :| TreeInvariant.Trace(steps, states)
        && s.tree == states[|steps|];
      TreeInvariant.TraceGrows(steps, states, TreeStep(s, step).value);
      var more := states + [TreeAfter(s, step)];
      assert more[|steps + [TreeStep(s, step).value]|] == TreeAfter(s, step);
    }
  }

  lemma {:induction false} RunInv(s: State, run: seq<Step>)
    requires Inv(s) && TreeInvariant.Reachable(s.tree) && CanRun(s, run)
    ensures Inv(Run(s, run)) && TreeInvariant.Reachable(Run(s, run).tree)
    decreases |run|
  {
    if run != [] {
      StepInv(s, run[0]);
      TreeReaches(s, run[0]);
      StepStepped(s, run[0]);
      StepKeeps(s, run[0], TreeAfter(s, run[0]));
      RunInv(Next(s, run[0]), run[1..]);
    }
  }

  lemma ReachableInv(s: State)
    requires Reachable(s)
    ensures Inv(s) && TreeInvariant.Reachable(s.tree)
  {
    hide Next, Enabled;
    var run: seq<Step> :| CanRun(EMPTY, run) && Run(EMPTY, run) == s;
    var none: seq<Tree.Step> := [];
    assert TreeInvariant.Trace(none, [Tree.EMPTY]) && [Tree.EMPTY][|none|] == Tree.EMPTY;
    RunInv(EMPTY, run);
  }

  lemma {:induction false} RunSnoc(s: State, run: seq<Step>, step: Step)
    requires CanRun(s, run) && Enabled(Run(s, run), step)
    ensures CanRun(s, run + [step]) && Run(s, run + [step]) == Next(Run(s, run), step)
    decreases |run|
  {
    var all := run + [step];
    if run == [] {
      assert all[0] == step && all[1..] == [];
    } else {
      assert all[0] == run[0] && all[1..] == run[1..] + [step];
      RunSnoc(Next(s, run[0]), run[1..], step);
    }
  }

  lemma ReachesNext(s: State, step: Step)
    requires Reachable(s) && Enabled(s, step)
    ensures Reachable(Next(s, step))
  {
    var run: seq<Step> :| CanRun(EMPTY, run) && Run(EMPTY, run) == s;
    RunSnoc(EMPTY, run, step);
  }

  // ---------------------------------------------------------------------------------------------
  // Combined exactly once

  /** No participant counts any more. */
  predicate AllReleased(s: State, r: nat) {
    |s.red| == |s.registered| && forall x :: 0 <= x < |s.red| && s.red[x] == Some(r) ==> !s.registered[x]
  }

  /** A reduction is combined at most once in any run, and it has been combined if and only if it is closed, the arrival
      of write permission has been counted, and all its participants, at whatever depth, are released. */
  lemma CombinedExactlyOnce(s: State, r: nat)
    requires Reachable(s) && r < |s.reds|
    ensures s.reds[r].combinations <= 1
    ensures s.reds[r].combinations == 1 <==> s.reds[r].closed && s.reds[r].arrived && AllReleased(s, r)
  {
    ReachableInv(s);
    assert RedOk(s, r);
    if AllReleased(s, r) {
      NoParticipants(s, |s.red|, r);
    } else {
      var x :| 0 <= x < |s.red| && s.red[x] == Some(r) && s.registered[x];
      ParticipantCounts(s, |s.red|, r, x);
    }
  }

  /** Call `k` is about to handle the arrival of write permission at access `x`, a participant of reduction `r`. */
  ghost predicate Arrives(s: State, k: nat, x: nat, r: nat) {
    && Enabled(s, Combine(k)) && s.tree.sent[Current(s, k)].msg.from == x
    && x < |s.red| && s.red[x] == Some(r) && r < |s.reds|
  }

  lemma ArrivalCounts(s: State, k: nat, x: nat, r: nat)
    requires Inv(s) && Arrives(s, k, x, r)
    ensures s.calls[k].seen != Some(r) <==> s.reds[r].first == x
    ensures s.reds[r].first == x ==> !s.reds[r].arrived && s.reds[r].count > 0
  {
    var i := Current(s, k);
    RequestOf(s, i);
    assert CallOk(s, k) && RequestOk(s, i) && RedOk(s, r);
  }

  /** At the moment of combination no participant counts any more: each has been released. */
  lemma CombinesReleased(s: State, step: Step, r: nat)
    requires Reachable(s) && Enabled(s, step) && r < |s.reds| && r < |Next(s, step).reds|
    requires Next(s, step).reds[r].combinations != s.reds[r].combinations
    ensures s.reds[r].combinations == 0 && Next(s, step).reds[r].combinations == 1 && AllReleased(Next(s, step), r)
  {
    ReachesNext(s, step);
    CombinedExactlyOnce(s, r);
    CombinedExactlyOnce(Next(s, step), r);
    if s.reds[r].combinations == 1 { CombinedIsUntouched(s, step, r); }
    ReachableInv(s);
    ReachableInv(Next(s, step));
    assert RedOk(s, r) && RedOk(Next(s, step), r);
  }

  /** Remembering the last reduction is enough: of all write arrivals at participants, exactly the one at the
      participant for which the reduction was created is counted, whatever threads carry them and in whatever order. */
  lemma FirstArrivalCounts(s: State, k: nat, x: nat, r: nat)
    requires Reachable(s) && Arrives(s, k, x, r)
    ensures s.calls[k].seen != Some(r) <==> s.reds[r].first == x
    ensures s.reds[r].first == x ==> !s.reds[r].arrived && s.reds[r].count > 0
  {
    ReachableInv(s);
    ArrivalCounts(s, k, x, r);
  }

  /** The counter is positive as long as the reduction is not closed, and while a participant is being registered the
      arrival of write permission does not combine it. */
  lemma AssertedUnfinished(s: State, r: nat, k: nat, x: nat)
    requires Reachable(s) && r < |s.reds|
    ensures !s.reds[r].closed ==> s.reds[r].count > 0
    ensures Arrives(s, k, x, r) && x < |s.registered| && s.registered[x] ==>
              r < |Next(s, Combine(k)).reds| && Next(s, Combine(k)).reds[r].combinations == 0
  {
    hide Reachable, Tree.Inv, Tree.Next, Tree.Enabled, Mail, Memory, Structure;
    ReachableInv(s);
    assert RedOk(s, r);
    if Arrives(s, k, x, r) && x < |s.registered| && s.registered[x] {
      ParticipantCounts(s, |s.red|, r, x);
      ArrivalCounts(s, k, x, r);
    }
  }

  /** Nobody decrements a counter that is already zero, and nobody joins a reduction that has been combined. */
  lemma CombinedIsUntouched(s: State, step: Step, r: nat)
    requires Reachable(s) && Enabled(s, step) && r < |s.reds| && s.reds[r].combinations == 1
    ensures r < |Next(s, step).reds| && Next(s, step).reds[r] == s.reds[r]
  {
    hide Reachable, Tree.Inv, Tree.Next, Tree.Enabled, Mail, Memory, Structure, Participants, ArrivalHandled;
    ReachableInv(s);
    assert RedOk(s, r);
    match step
    case Release(a) => if s.red[a] == Some(r) { ParticipantCounts(s, |s.red|, r, a); }
    case Combine(k) =>
      var x := s.tree.sent[Current(s, k)].msg.from;
      if s.red[x] == Some(r) { ArrivalCounts(s, k, x, r); }
    case Insert(ch, ty, weak, same) => JoinsOpen(s, ch, ty, weak, same);
    case _ =>
  }

  /** Registration joins only reductions that still count something. */
  lemma JoinsOpen(s: State, ch: Tree.Chain, ty: AccessType, weak: bool, same: bool)
    requires Inv(s) && Ready(s, Insert(ch, ty, weak, same))
    ensures var red := Joined(s, ch, ty, same);
            red.Some? && red.value < |s.reds| ==> s.reds[red.value].count > 0
  {
    var red := Joined(s, ch, ty, same);
    JoinedKinds(s, ch, ty, weak, same);
    if red.Some? && red.value < |s.reds| { JoinedCounts(s, ch, red); }
  }

  /** Below a participant every registration after the first finds the reduction of the parent access. It would close
      it, which only the chain where it was created may do, exactly if it were not for the same reduction. */
  lemma StrayChildCloses(s: State, ch: Tree.Chain, ty: AccessType, same: bool)
    requires Inv(s) && Inner(s, ch) && ch in s.tree.bottom
    ensures Prior(s, ch, ty) == s.red[ch.parent] && Home(s, s.red[ch.parent].value) != ch
    ensures Joined(s, ch, ty, same) != Prior(s, ch, ty) <==> !(ty.ReductionAccess? && same)
  {
    assert EntryOk(s, ch) && Tree.BottomOk(s.tree, ch);
    assert StructOk(s, s.tree.bottom[ch]) && StructOk(s, ch.parent);
    assert FirstOk(s, s.red[ch.parent].value);
  }

  // ---------------------------------------------------------------------------------------------
  // Where a reduction lies

  /** Everything below a participant participates. */
  lemma {:induction false} BelowParticipates(s: State, a: nat, x: nat)
    requires Inv(s) && Safety.InSubtree(s.tree, a, x) && x < |s.red| && s.red[x].Some?
    ensures s.red[a] == s.red[x]
    decreases a
  {
    if a != x {
      BelowParticipates(s, s.tree.nodes[a].chain.parent, x);
      assert StructOk(s, a);
    }
  }

  /** A participant comes after, or is below, the first one. */
  lemma {:induction false} FirstIsFirst(s: State, x: nat)
    requires Inv(s) && x < |s.red| && s.red[x].Some?
    ensures AtOrAfter(s.tree, s.reds[s.red[x].value].first, x)
    decreases x
  {
    var f := s.reds[s.red[x].value].first;
    assert StructOk(s, x) && FirstOk(s, s.red[x].value);
    if f == x {
      assert Safety.InSubtree(s.tree, x, f);
    } else {
      var w := FlowPred(s.tree.nodes[x]).value;
      FirstIsFirst(s, w);
      if s.tree.nodes[x].pred.Some? { MoveNext(s.tree, f, w, x); } else { MoveDown(s.tree, f, w, x); }
    }
  }

  /** When a reduction is combined, every participant is released and every access before the first one, other than its
      ancestors, is unregistered: nobody else can be using the address. */
  lemma CombinedAlone(s: State, r: nat, a: nat)
    requires Reachable(s) && r < |s.reds| && s.reds[r].combinations == 1 && a < |s.red|
    ensures a < |s.registered| && a < |s.tree.nodes|
    ensures s.red[a] == Some(r) ==> !s.registered[a] && AtOrAfter(s.tree, s.reds[r].first, a)
    ensures Safety.Precedes(s.tree, a, s.reds[r].first) ==> Unregistered in s.tree.nodes[a].flags
  {
    CombinedExactlyOnce(s, r);
    ReachableInv(s);
    if s.red[a] == Some(r) { FirstIsFirst(s, a); }
    if Safety.Precedes(s.tree, a, s.reds[r].first) {
      ArrivedHolds(s, r);
      Safety.WriteExclusivity(s.tree, a, s.reds[r].first);
    }
  }

  lemma ArrivedHolds(s: State, r: nat)
    requires Inv(s) && r < |s.reds| && s.reds[r].arrived
    ensures Begun(s, r)
  {
    assert RedOk(s, r) && FirstOk(s, r);
    assert Tree.TokenOk(s.tree, s.reds[r].first, ReductionCombined);
  }

  // ---------------------------------------------------------------------------------------------
  // Nothing is forgotten

  /** Nothing is left to do, other than to register accesses. */
  ghost predicate Stuck(s: State) {
    forall step: Step :: !step.Insert? ==> !Enabled(s, step)
  }

  /** A call with a message that is not done can go on. */
  lemma CallGoesOn(s: State, k: nat, i: nat) returns (step: Step)
    requires Inv(s) && k < |s.calls| && s.calls[k].current == Some(i) && i < |s.tree.sent|
    requires !s.tree.sent[i].stage.Done?
    ensures !step.Insert? && Enabled(s, step)
  {
    assert Tree.MessageOk(s.tree, i) && RequestOk(s, i) && CallOk(s, k);
    match s.tree.sent[i].stage
    case Deliver => step := Deliver(k);
    case Schedule => step := Schedule(k);
    case Acknowledge => step := if Unhandled(s, i) then Combine(k) else Acknowledge(k);
  }

  /** Without work left, no message is on its way. */
  lemma StuckIsQuiescent(s: State)
    requires Inv(s) && Stuck(s)
    ensures Meaning.Quiescent(s.tree)
  {
    forall i | 0 <= i < |s.tree.sent| ensures s.tree.sent[i].stage.Done? {
      assert MailOk(s, i);
      if !s.tree.sent[i].stage.Done? { StuckMessage(s, i); }
    }
  }

  lemma StuckMessage(s: State, i: nat)
    requires Inv(s) && Stuck(s) && i < |s.tree.sent|
    ensures s.tree.sent[i].stage.Done?
  {
    var k := s.owner[i];
    assert MailOk(s, i) && CallOk(s, k) && !Enabled(s, Take(k));
    var c := s.calls[k];
    if c.current.Some? && !s.tree.sent[c.current.value].stage.Done? {
      var step := CallGoesOn(s, k, c.current.value);
    }
  }

  lemma StuckIsServed(s: State, a: nat)
    requires Inv(s) && Stuck(s) && a < |s.tree.nodes| && Meaning.HasAll(s.tree.nodes[a])
    ensures Unregistered in s.tree.nodes[a].flags
  {
    StuckIsQuiescent(s);
    assert Tree.ScheduleOk(s.tree, a) && Tree.Linked(s.tree, a) && StructOk(s, a)
      && Tree.BottomOk(s.tree, Tree.Under(a));
    assert s.tree.nodes[a].started;
    assert !Enabled(s, Release(a)) && !Enabled(s, CloseChain(a)) && !Enabled(s, Unregister(a));
  }

  /** Write permission has arrived everywhere and every arrival has been handled. */
  lemma StuckHasArrived(s: State, r: nat)
    requires Inv(s) && Stuck(s) && r < |s.reds|
    ensures s.reds[r].arrived
  {
    StuckIsQuiescent(s);
    forall a | 0 <= a < |s.tree.nodes| && Meaning.HasAll(s.tree.nodes[a])
      ensures Unregistered in s.tree.nodes[a].flags
    {
      StuckIsServed(s, a);
    }
    assert FirstOk(s, r) && RedOk(s, r);
    var f := s.reds[r].first;
    Meaning.AllArrive(s.tree, f);
    assert StructOk(s, f) && Sat(Write) in s.tree.nodes[f].flags;
    assert Tree.TokenOk(s.tree, f, ReductionCombined);
    assert CombineOk(s, s.tree.nodes[f].ledger[ReductionCombined]);
  }

  lemma StuckIsClosed(s: State, r: nat)
    requires Inv(s) && Stuck(s) && r < |s.reds|
    ensures s.reds[r].closed && AllReleased(s, r)
  {
    assert FirstOk(s, r) && RedOk(s, r);
    assert !Enabled(s, MarkClosed(r)) && !Enabled(s, Detach(Home(s, r)));
    forall x | 0 <= x < |s.red| && s.red[x] == Some(r) ensures !s.registered[x] { assert !Enabled(s, Release(x)); }
  }

  /** No reduction is forgotten: when nothing is left to do, every reduction has been combined. */
  lemma EveryReductionIsCombined(s: State, r: nat)
    requires Reachable(s) && Stuck(s) && r < |s.reds|
    ensures s.reds[r].combinations == 1
  {
    ReachableInv(s);
    StuckHasArrived(s, r);
    StuckIsClosed(s, r);
    CombinedExactlyOnce(s, r);
  }

  // ---------------------------------------------------------------------------------------------
  // Who comes after

  /** Right after `w` in its chain comes its successor. */
  lemma {:induction false} NextOrAfter(t: Tree.State, w: nat, x: nat, v: nat)
    requires Tree.Inv(t) && x < |t.nodes| && t.nodes[x].pred == Some(w) && Safety.ChainBefore(t, w, v)
    ensures v == x || Safety.ChainBefore(t, x, v)
    decreases v
  {
    assert Tree.Linked(t, x) && Tree.Linked(t, v);
    if t.nodes[v].pred.value != w { NextOrAfter(t, w, x, t.nodes[v].pred.value); }
  }

  /** An access that comes after one participant, and does not participate, comes after the next. */
  lemma StepsOver(s: State, w: nat, x: nat, y: nat)
    requires Inv(s) && x < |s.red| && y < |s.red| && s.red[x].Some? && s.red[y] != s.red[x]
    requires FlowPred(s.tree.nodes[x]) == Some(w) && Safety.Precedes(s.tree, w, y)
    ensures Safety.Precedes(s.tree, x, y)
  {
    var u: nat, v: nat :| Safety.ChainBefore(s.tree, u, v) && Safety.InSubtree(s.tree, w, u)
      && Safety.InSubtree(s.tree, y, v);
    assert Tree.Linked(s.tree, x);
    if s.tree.nodes[x].pred.Some? && w == u {
      NextOrAfter(s.tree, w, x, v);
      if v == x { BelowParticipates(s, y, x); }
      assert Safety.InSubtree(s.tree, x, x);
    } else if s.tree.nodes[x].pred.Some? {
      SiblingBelow(s.tree, w, x, u);
    } else {
      assert Safety.InSubtree(s.tree, x, w);
      InSubtreeTrans(s.tree, x, w, u);
    }
  }

  lemma {:induction false} AllBefore(s: State, x: nat, y: nat)
    requires Inv(s) && x < |s.red| && y < |s.red| && s.red[x].Some? && s.red[y] != s.red[x]
    requires s.red[x].value < |s.reds| && AtOrAfter(s.tree, s.reds[s.red[x].value].first, y)
    ensures Safety.Precedes(s.tree, x, y)
    decreases x
  {
    var f := s.reds[s.red[x].value].first;
    assert StructOk(s, x) && FirstOk(s, s.red[x].value);
    if f == x {
      if Safety.InSubtree(s.tree, y, f) { BelowParticipates(s, y, f); }
    } else {
      var w := FlowPred(s.tree.nodes[x]).value;
      AllBefore(s, w, y);
      StepsOver(s, w, x, y);
    }
  }

  /** An access that comes after a reduction and holds write permission: all participants are released, so the reduction
      has been combined if and only if it has been closed and the thread that brought write permission to its first
      participant has handled that. Holding write permission does not imply the latter. */
  lemma SuccessorSees(s: State, r: nat, y: nat)
    requires Reachable(s) && r < |s.reds| && y < |s.red| && y < |s.tree.nodes| && s.red[y] != Some(r)
    requires AtOrAfter(s.tree, s.reds[r].first, y) && Sat(Write) in s.tree.nodes[y].flags
    ensures AllReleased(s, r)
    ensures s.reds[r].combinations == 1 <==> s.reds[r].closed && ArrivalHandled(s, r)
  {
    CombinedExactlyOnce(s, r);
    ReachableInv(s);
    assert RedOk(s, r);
    forall x | 0 <= x < |s.red| && s.red[x] == Some(r) ensures !s.registered[x] {
      AllBefore(s, x, y);
      Safety.WriteExclusivity(s.tree, x, y);
      assert StructOk(s, x);
    }
  }

  /** Reductions hold nobody up: whatever the accesses allow is possible, except that below a participant only the same
      reduction is registered, while the participant has not been released, and that an access is unregistered after
      its release. */
  lemma NothingIsRefused(s: State, ch: Tree.Chain, ty: AccessType, weak: bool, same: bool, a: nat, r: nat)
    requires Reachable(s)
    ensures Tree.Enabled(s.tree, Tree.Insert(ch, ty, weak)) && !Inner(s, ch) ==> Enabled(s, Insert(ch, ty, weak, same))
    ensures Tree.Enabled(s.tree, Tree.Insert(ch, ReductionAccess, weak)) && Inner(s, ch)
              && ch.parent < |s.registered| && s.registered[ch.parent] ==>
              Enabled(s, Insert(ch, ReductionAccess, weak, true))
    ensures a < |s.registered| && s.registered[a] ==> Enabled(s, Release(a))
    ensures a < |s.registered| && !s.registered[a] && Tree.Enabled(s.tree, Tree.Unregister(a)) ==>
              Enabled(s, Unregister(a))
    ensures Tree.Enabled(s.tree, Tree.CloseChain(a)) ==> Enabled(s, CloseChain(a))
    ensures ch in s.entry && !Inner(s, ch) ==> Enabled(s, Detach(ch))
    ensures r in s.closing ==> Enabled(s, MarkClosed(r))
  {
    hide Reachable, Counters, Mail, Memory, Tree.Inv;
    ReachableInv(s);
    if a < |s.registered| && s.registered[a] { assert StructOk(s, a); }
  }
}
