/** What the protocol guarantees in every reachable state: exclusivity, compatible siblings, lossless links,
    lifetimes. */
module AccessTreeSafety {
  import opened AccessFlags
  import opened DataAccess
  import opened AccessTree
  import opened AccessTreeSteps
  import opened AccessTreeInvariant

  // ---------------------------------------------------------------------------------------------
  // Order of the accesses

  /** `x` precedes `y` in their chain. */
  predicate ChainBefore(s: State, x: nat, y: nat)
    decreases y
  {
    && y < |s.nodes| && s.nodes[y].pred.Some?
    && s.nodes[y].pred.value < y
    && (s.nodes[y].pred.value == x || ChainBefore(s, x, s.nodes[y].pred.value))
  }

  /** `a` is `x` or an access nested below it. */
  predicate InSubtree(s: State, a: nat, x: nat)
    decreases a
  {
    && a < |s.nodes|
    && (a == x || (s.nodes[a].chain.Under? && s.nodes[a].chain.parent < a && InSubtree(s, s.nodes[a].chain.parent, x)))
  }

  /** `a` comes before `b` in depth-first order and is not one of its ancestors. */
  ghost predicate Precedes(s: State, a: nat, b: nat) {
    exists x: nat, y: nat :: ChainBefore(s, x, y) && InSubtree(s, a, x) && InSubtree(s, b, y)
  }

  /** Some access from `a` up to `x` is of the type that shares `p`. */
  predicate SharedBetween(s: State, a: nat, x: nat, p: Perm)
    requires InSubtree(s, a, x)
    decreases a
  {
    Shares(s.nodes[a].ty, p) || (a != x && SharedBetween(s, s.nodes[a].chain.parent, x, p))
  }

  /** `p` has left the access through its successor or its parent. */
  predicate Passed(s: State, a: nat, p: Perm)
    requires a < |s.nodes|
  {
    NextCondition(s.nodes[a].ty, p) <= s.nodes[a].flags
  }

  lemma PredecessorPassed(s: State, y: nat, p: Perm)
    requires Inv(s) && y < |s.nodes| && s.nodes[y].pred.Some? && Sat(p) in s.nodes[y].flags
    ensures s.nodes[y].pred.value < y && Passed(s, s.nodes[y].pred.value, p)
    ensures Sat(p) in s.nodes[s.nodes[y].pred.value].flags
  {
    assert Linked(s, y) && ArrivalOk(s, y, p);
    var x := s.nodes[y].pred.value;
    assert TokenOk(s, x, NextSat(p));
    assert Sat(p) in NextCondition(s.nodes[x].ty, p);
  }

  lemma {:induction false} EarlierPassed(s: State, x: nat, y: nat, p: Perm)
    requires Inv(s) && ChainBefore(s, x, y) && Sat(p) in s.nodes[y].flags
    ensures x < |s.nodes| && Passed(s, x, p)
    decreases y
  {
    PredecessorPassed(s, y, p);
    if s.nodes[y].pred.value != x {
      EarlierPassed(s, x, s.nodes[y].pred.value, p);
    }
  }

  lemma {:induction false} AncestorSatisfied(s: State, b: nat, y: nat, p: Perm)
    requires Inv(s) && InSubtree(s, b, y) && Sat(p) in s.nodes[b].flags
    ensures y < |s.nodes| && Sat(p) in s.nodes[y].flags
    decreases b
  {
    if b != y {
      ChildSatisfiedAfterParent(s, b, p);
      AncestorSatisfied(s, s.nodes[b].chain.parent, y, p);
    }
  }

  /** If the last child has passed `p` on to its parent, so has every child in the chain. */
  lemma {:induction false} ChainPassed(s: State, a: nat, c: nat, p: Perm)
    requires Inv(s) && c < |s.nodes| && s.nodes[c].chain == Under(a)
    requires Under(a) in s.bottom && s.bottom[Under(a)] < |s.nodes| && Delivered(s, s.bottom[Under(a)], NextSat(p))
    ensures Passed(s, c, p)
    decreases |s.nodes| - c
  {
    assert Linked(s, c);
    assert TokenOk(s, c, NextSat(p));
    if c != s.bottom[Under(a)] {
      var d := s.nodes[c].succ.value;
      assert Linked(s, d) && ArrivalOk(s, d, p);
      ChainPassed(s, a, d, p);
      assert Sat(p) in NextCondition(s.nodes[d].ty, p);
    }
  }

  /** A permission that has passed an access has passed everything below it, except below the accesses that share it. */
  lemma {:induction false} SubtreePassed(s: State, a: nat, x: nat, p: Perm)
    requires Inv(s) && InSubtree(s, a, x) && x < |s.nodes| && Passed(s, x, p)
    requires a != x ==> !SharedBetween(s, s.nodes[a].chain.parent, x, p)
    ensures Passed(s, a, p)
    decreases a
  {
    if a != x {
      var b := s.nodes[a].chain.parent;
      SubtreePassed(s, b, x, p);
      assert ChildDone(p) in NextCondition(s.nodes[b].ty, p);
      assert Linked(s, a) && ReturnOk(s, b, p);
      assert BottomOk(s, Under(b));
      ChainPassed(s, b, a, p);
    }
  }

  /** Whoever holds `p` comes after only unregistered accesses, and accesses at or below one that shares `p`. */
  lemma HolderExcludes(s: State, a: nat, x: nat, y: nat, b: nat, p: Perm)
    requires Reachable(s) && ChainBefore(s, x, y) && InSubtree(s, a, x) && InSubtree(s, b, y)
    requires Sat(p) in s.nodes[b].flags
    ensures Unregistered in s.nodes[a].flags || SharedBetween(s, a, x, p)
  {
    ReachableInv(s);
    AncestorSatisfied(s, b, y, p);
    EarlierPassed(s, x, y, p);
    if !SharedBetween(s, a, x, p) {
      SubtreePassed(s, a, x, p);
      assert Unregistered in NextCondition(s.nodes[a].ty, p);
    }
  }

  lemma {:induction false} WriteIsNotShared(s: State, a: nat, x: nat)
    requires InSubtree(s, a, x)
    ensures !SharedBetween(s, a, x, Write)
    decreases a
  {
    if a != x {
      WriteIsNotShared(s, s.nodes[a].chain.parent, x);
    }
  }

  /** Write exclusivity: when an access holds write permission, every access before it in depth-first order,
      other than its ancestors, is unregistered. */
  lemma WriteExclusivity(s: State, a: nat, b: nat)
    requires Reachable(s) && b < |s.nodes| && Sat(Write) in s.nodes[b].flags && Precedes(s, a, b)
    ensures a < |s.nodes| && Unregistered in s.nodes[a].flags
  {
    var x: nat, y: nat :| ChainBefore(s, x, y) && InSubtree(s, a, x) && InSubtree(s, b, y);
    HolderExcludes(s, a, x, y, b, Write);
    WriteIsNotShared(s, a, x);
  }

  // ---------------------------------------------------------------------------------------------
  // Compatible siblings

  function ToBottom(s: State, c: nat): nat
    requires Inv(s) && c < |s.nodes|
    decreases |s.nodes| - c
  {
    assert Linked(s, c);
    if s.bottom[s.nodes[c].chain] == c then 0
    else
      assert Linked(s, s.nodes[c].succ.value);
      1 + ToBottom(s, s.nodes[c].succ.value)
  }

  lemma {:induction false} SameDistance(s: State, x: nat, y: nat)
    requires Inv(s) && x < |s.nodes| && y < |s.nodes| && s.nodes[x].chain == s.nodes[y].chain
    requires ToBottom(s, x) == ToBottom(s, y)
    ensures x == y
    decreases |s.nodes| - x
  {
    assert Linked(s, x) && Linked(s, y);
    if s.bottom[s.nodes[x].chain] != x {
      assert Linked(s, s.nodes[x].succ.value) && Linked(s, s.nodes[y].succ.value);
      SameDistance(s, s.nodes[x].succ.value, s.nodes[y].succ.value);
    }
  }

  lemma {:induction false} ExtendBack(s: State, x: nat, d: nat, y: nat)
    requires Inv(s) && d < |s.nodes| && s.nodes[d].pred == Some(x) && ChainBefore(s, d, y)
    ensures ChainBefore(s, x, y)
    decreases y
  {
    assert Linked(s, d);
    if s.nodes[y].pred.value != d {
      ExtendBack(s, x, d, s.nodes[y].pred.value);
    }
  }

  lemma {:induction false} FartherIsBefore(s: State, x: nat, y: nat)
    requires Inv(s) && x < |s.nodes| && y < |s.nodes| && s.nodes[x].chain == s.nodes[y].chain
    requires ToBottom(s, x) > ToBottom(s, y)
    ensures ChainBefore(s, x, y)
    decreases |s.nodes| - x
  {
    assert Linked(s, x);
    var d := s.nodes[x].succ.value;
    assert Linked(s, d);
    if ToBottom(s, d) == ToBottom(s, y) {
      SameDistance(s, d, y);
    } else {
      FartherIsBefore(s, d, y);
      ExtendBack(s, x, d, y);
    }
  }

  /** Siblings are totally ordered by their chain. */
  lemma SiblingsOrdered(s: State, x: nat, y: nat)
    requires Inv(s) && x < |s.nodes| && y < |s.nodes| && s.nodes[x].chain == s.nodes[y].chain && x != y
    ensures ChainBefore(s, x, y) || ChainBefore(s, y, x)
  {
    if ToBottom(s, x) == ToBottom(s, y) {
      SameDistance(s, x, y);
    } else if ToBottom(s, x) > ToBottom(s, y) {
      FartherIsBefore(s, x, y);
    } else {
      FartherIsBefore(s, y, x);
    }
  }

  /** The access may be in use: it got what its type needs and is not yet unregistered. */
  predicate InUse(s: State, a: nat)
    requires a < |s.nodes|
  {
    && !s.nodes[a].ty.ReductionAccess?
    && Sat(OwnPerm(s.nodes[a].ty)) in s.nodes[a].flags
    && Unregistered !in s.nodes[a].flags
  }

  lemma WaitsUnlessShared(ty: AccessType, p: Perm)
    ensures Shares(ty, p) || Unregistered in NextCondition(ty, p)
  {
  }

  /** Two siblings in use at the same time have the same type, which is read, concurrent or commutative. */
  lemma CompatibleSiblings(s: State, x: nat, y: nat)
    requires Reachable(s) && x < |s.nodes| && y < |s.nodes| && s.nodes[x].chain == s.nodes[y].chain && x != y
    requires InUse(s, x) && InUse(s, y)
    ensures s.nodes[x].ty == s.nodes[y].ty && TwoWay(s.nodes[x].ty)
  {
    ReachableInv(s);
    SiblingsOrdered(s, x, y);
    var first, second := if ChainBefore(s, x, y) then x else y, if ChainBefore(s, x, y) then y else x;
    var p := OwnPerm(s.nodes[second].ty);
    EarlierPassed(s, first, second, p);
    WaitsUnlessShared(s.nodes[first].ty, p);
  }

  // ---------------------------------------------------------------------------------------------
  // Lossless links

  /** Message `i`, whatever its stage, carries the token `f` of access `a`. */
  predicate Carries(s: State, i: nat, a: nat, f: Flag) {
    i < |s.sent| && s.sent[i].msg.from == a && f in s.sent[i].msg.flagsAfter
  }

  /** Message `i` asks for the task of access `a` to be scheduled. */
  predicate Requests(s: State, i: nat, a: nat) {
    i < |s.sent| && s.sent[i].msg.from == a && s.sent[i].msg.schedule
  }

  /** Message `i` is on its way from `a` with the token `f`. */
  predicate InFlight(s: State, i: nat, a: nat, f: Flag) {
    i < |s.sent| && s.sent[i].stage.Deliver? && s.sent[i].msg.from == a && f in s.sent[i].msg.flagsAfter
  }

  /** No permission is lost or duplicated on the way to the successor or back to the parent: the sender's condition
      holds exactly when the receiver has the flag or one message carries it, and never more than one message ever
      did. */
  lemma NextLinkIsLossless(s: State, a: nat, p: Perm)
    requires Reachable(s) && a < |s.nodes| && HasNext in s.nodes[a].flags
    ensures s.nodes[a].succ.Some? && s.nodes[a].succ.value < |s.nodes|
    ensures var flag := if NextIsParent in s.nodes[a].flags then ChildDone(p) else Sat(p);
            var received := flag in s.nodes[s.nodes[a].succ.value].flags;
            && (NextCondition(s.nodes[a].ty, p) <= s.nodes[a].flags <==>
                  received || exists i: nat :: InFlight(s, i, a, NextSat(p)))
            && !(received && exists i: nat :: InFlight(s, i, a, NextSat(p)))
            && (NextSat(p) in s.nodes[a].flags ==> received)
    ensures forall i: nat, j: nat | Carries(s, i, a, NextSat(p)) && Carries(s, j, a, NextSat(p)) :: i == j
  {
    ReachableInv(s);
    assert Linked(s, a) && TokenOk(s, a, NextSat(p));
    var b := s.nodes[a].succ.value;
    assert b < |s.nodes| by {
      if NextIsParent in s.nodes[a].flags { assert b < a; }
    }
    assert Linked(s, b) && ArrivalOk(s, b, p) && ReturnOk(s, b, p);
    OneMessagePerToken(s, a, NextSat(p));
    if NextSat(p) in s.nodes[a].ledger && !Delivered(s, a, NextSat(p)) {
      assert InFlight(s, s.nodes[a].ledger[NextSat(p)], a, NextSat(p));
    }
  }

  /** The same for the link to the first child. */
  lemma ChildLinkIsLossless(s: State, a: nat, p: Perm)
    requires Reachable(s) && a < |s.nodes| && HasChild in s.nodes[a].flags
    ensures s.nodes[a].child.Some? && s.nodes[a].child.value < |s.nodes|
    ensures var received := Sat(p) in s.nodes[s.nodes[a].child.value].flags;
            && (Sat(p) in s.nodes[a].flags <==> received || exists i: nat :: InFlight(s, i, a, ChildSat(p)))
            && !(received && exists i: nat :: InFlight(s, i, a, ChildSat(p)))
            && (ChildSat(p) in s.nodes[a].flags ==> received)
  {
    ReachableInv(s);
    assert Linked(s, a) && TokenOk(s, a, ChildSat(p));
    var b := s.nodes[a].child.value;
    assert ArrivalOk(s, b, p);
    OneMessagePerToken(s, a, ChildSat(p));
    if ChildSat(p) in s.nodes[a].ledger && !Delivered(s, a, ChildSat(p)) {
      assert InFlight(s, s.nodes[a].ledger[ChildSat(p)], a, ChildSat(p));
    }
  }

  lemma OneMessagePerToken(s: State, a: nat, f: Flag)
    requires Inv(s) && a < |s.nodes|
    ensures forall i: nat | i < |s.sent| && s.sent[i].msg.from == a && f in s.sent[i].msg.flagsAfter ::
              f in s.nodes[a].ledger && s.nodes[a].ledger[f] == i
  {
    forall i: nat | i < |s.sent| && s.sent[i].msg.from == a && f in s.sent[i].msg.flagsAfter
      ensures f in s.nodes[a].ledger && s.nodes[a].ledger[f] == i
    {
      assert MessageOk(s, i);
    }
  }

  /** The addition to the access word never carries: every update in every run sets only clear bits. */
  lemma FetchAddNeverCarries(s: State, step: Step)
    requires Reachable(s) && Enabled(s, step)
    ensures var held := Prepare(s, step).nodes[Subject(s, step)].flags;
            Word(held) + Word(Added(s, step)) == Word(held + Added(s, step))
  {
    ReachableInv(s);
    AddedIsFresh(s, step);
    FetchAddIsUnion(Prepare(s, step).nodes[Subject(s, step)].flags, Added(s, step));
  }

  /** No run makes the write, readwrite or reduction automaton produce messages for both child and successor. */
  lemma SingleDestinationAlways(s: State, step: Step)
    requires Reachable(s) && Enabled(s, step) && RunsAutomaton(step)
    ensures var n := Prepare(s, step).nodes[Subject(s, step)];
            !TwoWay(n.ty) ==>
              NextPerms(n.ty, n.flags, Added(s, step)) == {} || ChildPerms(n.flags, Added(s, step)) == {}
  {
    ReachableInv(s);
    StepHasSingleDestination(s, step);
  }

  /** A strong access that is not a reduction asks for its task to be scheduled in exactly one message,
      sent when its own permission arrives. */
  lemma ScheduledExactlyOnce(s: State, a: nat)
    requires Reachable(s) && a < |s.nodes| && !s.nodes[a].ty.ReductionAccess? && IsWeak !in s.nodes[a].flags
    ensures Sat(OwnPerm(s.nodes[a].ty)) in s.nodes[a].flags <==>
              exists i: nat :: Requests(s, i, a)
    ensures forall i: nat, j: nat | Requests(s, i, a) && Requests(s, j, a) :: i == j
    ensures s.nodes[a].started ==> Sat(OwnPerm(s.nodes[a].ty)) in s.nodes[a].flags
  {
    ReachableInv(s);
    assert ScheduleOk(s, a);
    if s.nodes[a].scheduledBy.Some? { assert Requests(s, s.nodes[a].scheduledBy.value, a); }
    forall i: nat | Requests(s, i, a)
      ensures s.nodes[a].scheduledBy == Some(i)
    {
      assert MessageOk(s, i);
    }
  }

  // ---------------------------------------------------------------------------------------------
  // Lifetime

  predicate Disposed(s: State, a: nat)
    requires a < |s.nodes|
  {
    Complete(s.nodes[a].ty, s.nodes[a].flags)
  }

  /** Disposal is reported by exactly one transition: the one that completes the access. */
  lemma DisposalReportedOnce(s: State, a: nat)
    requires Reachable(s) && a < |s.nodes|
    ensures s.nodes[a].reports == if Disposed(s, a) then 1 else 0
  {
    ReachableInv(s);
    assert ReportOk(s, a);
  }

  /** Nothing happens to an access after its disposal. */
  lemma DisposedIsFinal(s: State, step: Step, a: nat)
    requires Reachable(s) && Enabled(s, step) && a < |s.nodes| && Disposed(s, a)
    ensures Next(s, step).nodes[a] == s.nodes[a]
  {
    ReachableInv(s);
    assert Linked(s, a);
    if !step.ScheduleSender? {
      SubjectIsIncomplete(s, step);
      assert Subject(s, step) != a;
    } else {
      assert MessageOk(s, step.i) && ScheduleOk(s, a);
    }
  }

  lemma ForwardHasToken(m: Message, self: nat, upward: bool, succ: Option<nat>, child: Option<nat>)
    requires Shaped(m, self, upward, succ, child) && m.flagsForNext != {}
    ensures m.flagsAfter != {}
  {
    var g :| g in m.flagsForNext;
    if g.Sat? {
      assert ChildSat(g.perm) in m.flagsAfter || NextSat(g.perm) in m.flagsAfter;
    } else {
      assert ChildDone(g.perm) in m.flagsForNext && NextSat(g.perm) in m.flagsAfter;
    }
  }

  /** No message that is still to be handled has a disposed sender, or, before delivery, a disposed receiver. */
  lemma MessagesReferToLiveAccesses(s: State, i: nat)
    requires Reachable(s) && i < |s.sent| && !s.sent[i].stage.Done?
    ensures s.sent[i].msg.from < |s.nodes| && !Disposed(s, s.sent[i].msg.from)
    ensures s.sent[i].stage.Deliver? ==>
              s.sent[i].msg.to.Some? && s.sent[i].msg.to.value < |s.nodes| && !Disposed(s, s.sent[i].msg.to.value)
  {
    ReachableInv(s);
    assert MessageOk(s, i);
    var m := s.sent[i].msg;
    if f :| f in m.flagsAfter {
      UnacknowledgedIsMissing(s, i, f);
    } else {
      if m.flagsForNext != {} {
        ForwardHasToken(m, m.from, NextIsParent in s.nodes[m.from].flags, s.nodes[m.from].succ, s.nodes[m.from].child);
      }
      assert Linked(s, m.from) && ScheduleOk(s, m.from);
    }
    if s.sent[i].stage.Deliver? {
      var g :| g in m.flagsForNext;
      PendingIsMissing(s, i, g);
    }
  }

  /** The bottom map never leads to a disposed access before that access was told that the parent is done. */
  lemma BottomIsLive(s: State, ch: Chain)
    requires Reachable(s) && ch in s.bottom
    ensures s.bottom[ch] < |s.nodes|
    ensures ParentDone !in s.nodes[s.bottom[ch]].flags ==> !Disposed(s, s.bottom[ch])
    ensures ch !in s.finished ==> ParentDone !in s.nodes[s.bottom[ch]].flags
  {
    ReachableInv(s);
    assert BottomOk(s, ch);
    assert Linked(s, s.bottom[ch]);
  }

  /** Registration and the closing of a chain ignore the disposal result of their own updates, and of what an access
      receives before it is unregistered; it is always negative there. */
  lemma UpdateReportIsNegative(s: State, step: Step)
    requires Reachable(s) && Enabled(s, step)
    requires step.Insert? || step.CloseChain?
             || (step.DeliverMessage? && Unregistered !in s.nodes[Subject(s, step)].flags)
    ensures !Disposed(Next(s, step), Subject(s, step))
  {
    ReachableInv(s);
    AddedIsFresh(s, step);
    AddedKinds(s, step);
    var a := Subject(s, step);
    if step.Insert? && step.chain in s.bottom {
      OpenBottom(s, step.chain);
      assert TokenOk(s, a, NextSat(Read)) && HasNext in NextCondition(s.nodes[a].ty, Read);
    } else if step.CloseChain? {
      OpenBottom(s, Under(step.a));
      assert TokenOk(s, a, NextSat(Read)) && HasNext in NextCondition(s.nodes[a].ty, Read);
    }
  }

  /** So is that of an acknowledgement by an access that is not unregistered, such as a new access or a parent access
      whose task still runs, or by the last child of an access whose parent is not yet done. */
  lemma AcknowledgementReportIsNegative(s: State, i: nat)
    requires Reachable(s) && Enabled(s, AcknowledgeMessage(i))
    requires var n := s.nodes[s.sent[i].msg.from];
             Unregistered !in n.flags || (NextIsParent in n.flags && n.chain !in s.finished)
    ensures !Disposed(Next(s, AcknowledgeMessage(i)), s.sent[i].msg.from)
  {
    ReachableInv(s);
    AddedKinds(s, AcknowledgeMessage(i));
    assert Linked(s, s.sent[i].msg.from);
  }

  /** What is sent without a schedule request carries a token. */
  lemma SentHasToken(a: nat, raised: Flags, upward: bool, succ: Option<nat>, child: Option<nat>, out: seq<Message>)
    requires Sends(a, raised, false, upward, succ, child, out) && out != []
    ensures raised != {}
  {
    var m := out[0];
    assert Shaped(m, a, upward, succ, child) && !ScheduledBy(out, 0);
    if m.flagsForNext != {} { ForwardHasToken(m, a, upward, succ, child); }
    var f :| f in m.flagsAfter;
    assert CarriedBy(out, 0, f);
  }

  /** An access that has just raised a token is not complete: the token is not acknowledged yet. */
  lemma RaisedIsIncomplete(s: State, a: nat, f: Flag)
    requires Inv(s) && Enabled(s, Unregister(a))
    requires Token(s.nodes[a].ty, f) && Enables(Trigger(s.nodes[a].ty, f), s.nodes[a].flags, Added(s, Unregister(a)))
    ensures !Complete(s.nodes[a].ty, s.nodes[a].flags + Added(s, Unregister(a)))
  {
    assert TokenOk(s, a, f);
    if f.NextSat? { assert HasNext in NextCondition(s.nodes[a].ty, f.perm); }
  }

  /** So is that of an unregistration that sends something: then the access still waits for an acknowledgement. */
  lemma UnregisterReportIsNegative(s: State, a: nat)
    requires Reachable(s) && Enabled(s, Unregister(a)) && Out(s, Unregister(a)) != []
    ensures !Disposed(Next(s, Unregister(a)), a)
  {
    ReachableInv(s);
    var raised, schedule := StepSends(s, Unregister(a));
    var n := s.nodes[a];
    SentHasToken(a, raised, NextIsParent in n.flags + Added(s, Unregister(a)), n.succ, n.child, Out(s, Unregister(a)));
    var f :| f in raised;
    RaisedIsIncomplete(s, a, f);
  }

  /** Registration and the closing of a chain get at most one message back from the access they extend. */
  lemma RegistrationSendsOne(s: State, step: Step)
    requires Reachable(s) && Enabled(s, step) && (step.Insert? || step.CloseChain?)
    ensures |Out(s, step)| <= 1
  {
    ReachableInv(s);
    var n := Prepare(s, step).nodes[Subject(s, step)];
    if step.Insert? && step.chain !in s.bottom && step.chain.Under? {
      NoNextPerms(n.ty, n.flags, Added(s, step));
    } else {
      NoChildPerms(n.flags, Added(s, step));
    }
    SubjectPointers(s, step);
    OneDestinationOneMessage(Subject(s, step), n.ty, n.flags, Added(s, step), n.succ, n.child);
  }

  /** The answer that registration expects from an access: one message at most, which forwards nothing, and which only
      a combination acknowledges. */
  predicate Answer(out: seq<Message>) {
    |out| <= 1 && (out != [] ==> out[0].flagsForNext == {} && out[0].flagsAfter <= {ReductionCombined})
  }

  /** A new access answers what it receives, or starts with, without forwarding anything, until something is linked to
      it. */
  lemma NewAccessForwardsNothing(s: State, step: Step)
    requires Reachable(s) && Enabled(s, step)
    requires (step.DeliverMessage? || (step.Insert? && step.chain !in s.bottom && step.chain.Root?))
    requires var n := Prepare(s, step).nodes[Subject(s, step)]; n.succ.None? && n.child.None?
    ensures Answer(Out(s, step))
  {
    ReachableInv(s);
    AddedKinds(s, step);
    var a := Subject(s, step);
    var n, added := Prepare(s, step).nodes[a], Added(s, step);
    if a < |s.nodes| { assert Linked(s, a); }
    NoLinkNoPerms(n.ty, n.flags, added);
  }

  lemma NoLinkNoPerms(ty: AccessType, held: Flags, added: Flags)
    requires HasNext !in held + added && HasChild !in held + added
    ensures NextPerms(ty, held, added) == {} && ChildPerms(held, added) == {}
  {
    NoNextPerms(ty, held, added);
    NoChildPerms(held, added);
  }

  /** A parent access that has not been unregistered answers nothing at all when its children give permissions back. */
  lemma ParentAnswersNothing(s: State, i: nat)
    requires Reachable(s) && Enabled(s, DeliverMessage(i))
    requires Unregistered !in s.nodes[s.sent[i].msg.to.value].flags
    requires s.sent[i].msg.from < |s.nodes| && NextIsParent in s.nodes[s.sent[i].msg.from].flags
    requires s.sent[i].msg.to == s.nodes[s.sent[i].msg.from].succ
    ensures Out(s, DeliverMessage(i)) == []
  {
    ReachableInv(s);
    var step := DeliverMessage(i);
    var n, added := s.nodes[Subject(s, step)], Added(s, step);
    assert MessageOk(s, i) && Linked(s, s.sent[i].msg.from);
    forall p ensures p !in ChildPerms(n.flags, added) && p !in NextPerms(n.ty, n.flags, added) {
      assert Sat(p) !in added;
    }
    assert ChildPerms(n.flags, added) == {} && NextPerms(n.ty, n.flags, added) == {};
    assert !Schedules(n.ty, n.flags, added) && !Combines(n.ty, added);
  }
}
