/** The invariant holds in every reachable state. */
module AccessTreeInvariant {
  import opened AccessFlags
  import opened DataAccess
  import opened AccessTree
  import opened AccessTreeLinks
  import opened AccessTreeTokens
  import opened AccessTreeSteps

  // ---------------------------------------------------------------------------------------------
  // Between the change of pointers and the change of flags

  lemma NothingTriggered(ty: AccessType, f: Flag)
    requires Token(ty, f)
    ensures !(Trigger(ty, f) <= {IsWeak})
  {
    if f.NextSat? { assert Sat(f.perm) in NextCondition(ty, f.perm); }
    else if f.ChildSat? { assert Sat(f.perm) in ChildCondition(f.perm); }
    else { assert Sat(Write) in Trigger(ty, f); }
  }

  /** What the change of pointers leaves alone in an access that was there. */
  lemma PreparedIs(s: State, step: Step, x: nat)
    requires Enabled(s, step) && x < |s.nodes|
    ensures var t := Prepare(s, step);
            && x < |t.nodes| && t.nodes[x].ty == s.nodes[x].ty
            && t.nodes[x].flags == s.nodes[x].flags && t.nodes[x].ledger == s.nodes[x].ledger
            && t.nodes[x].pred == s.nodes[x].pred && t.nodes[x].chain == s.nodes[x].chain
            && (s.nodes[x].started ==> t.nodes[x].started)
            && (!step.Insert? && !step.CloseChain? ==>
                  t.nodes[x].succ == s.nodes[x].succ && t.nodes[x].child == s.nodes[x].child)
  {
  }

  /** No message is done, or stops being done, before the step is. */
  lemma PreparedSent(s: State, step: Step, i: nat)
    requires Inv(s) && Enabled(s, step) && !step.AcknowledgeMessage? && i < |s.sent| && s.sent[i].msg.flagsAfter != {}
    ensures var t := Prepare(s, step);
            i < |t.sent| && t.sent[i].msg == s.sent[i].msg && (t.sent[i].stage.Done? <==> s.sent[i].stage.Done?)
  {
    hide Linked, TokenOk, ScheduleOk, ArrivalOk, ReturnOk, ReportOk;
    assert MessageOk(s, i);
  }

  lemma PreparedToken(s: State, step: Step, x: nat, f: Flag)
    requires Inv(s) && Enabled(s, step) && !step.AcknowledgeMessage?
    requires x < |Prepare(s, step).nodes|
    ensures TokenOk(Prepare(s, step), x, f)
  {
    if x < |s.nodes| { OldToken(s, step, x, f); } else { NewToken(s, step, x, f); }
  }

  lemma OldToken(s: State, step: Step, x: nat, f: Flag)
    requires Inv(s) && Enabled(s, step) && !step.AcknowledgeMessage? && x < |s.nodes|
    ensures x < |Prepare(s, step).nodes| && TokenOk(Prepare(s, step), x, f)
  {
    hide Prepare, Trigger, Token, Linked, ArrivalOk, ReturnOk, ScheduleOk, ReportOk, MessageOk;
    PreparedIs(s, step, x);
    assert TokenOk(s, x, f);
    if f in s.nodes[x].ledger { PreparedSent(s, step, s.nodes[x].ledger[f]); }
  }

  lemma NewToken(s: State, step: Step, x: nat, f: Flag)
    requires Enabled(s, step) && |s.nodes| <= x < |Prepare(s, step).nodes|
    ensures TokenOk(Prepare(s, step), x, f)
  {
    hide Trigger, Token;
    var n := Prepare(s, step).nodes[x];
    assert n.ledger == map[] && n.flags <= {IsWeak};
    if Token(n.ty, f) { NothingTriggered(n.ty, f); }
    assert !(f.NextSat? || f.ChildSat? || f.ReductionCombined?) || f !in n.flags;
  }

  lemma MessageKept(s: State, t: State, i: nat)
    requires i < |s.sent| && MessageOk(s, i)
    requires i < |t.sent| && t.sent[i].msg == s.sent[i].msg && |s.nodes| <= |t.nodes|
    requires var a := s.sent[i].msg.from; var after := s.sent[i].msg.flagsAfter;
             && t.nodes[a].ledger == s.nodes[a].ledger
             && t.nodes[a].scheduledBy == s.nodes[a].scheduledBy
             && t.nodes[a].flags == s.nodes[a].flags
             && (t.nodes[a].succ == s.nodes[a].succ || forall p :: NextSat(p) !in after)
             && (t.nodes[a].child == s.nodes[a].child || forall p :: ChildSat(p) !in after)
    requires t.sent[i].stage == s.sent[i].stage
             || (!t.sent[i].stage.Deliver?
                 && (t.sent[i].stage.Schedule? ==> s.sent[i].msg.schedule)
                 && (t.sent[i].stage.Acknowledge? ==> s.sent[i].msg.flagsAfter != {}))
    ensures MessageOk(t, i)
  {
  }

  lemma PreparedMessage(s: State, step: Step, i: nat)
    requires Inv(s) && Enabled(s, step) && i < |s.sent|
    ensures MessageOk(Prepare(s, step), i)
  {
    hide ScheduleOk, ArrivalOk, ReturnOk, ReportOk, Shaped;
    assert MessageOk(s, i);
    var m := s.sent[i].msg;
    var n := s.nodes[m.from];
    forall p ensures NextSat(p) in m.flagsAfter ==> HasNext in n.flags {
      assert TokenOk(s, m.from, NextSat(p));
      assert HasNext in NextCondition(n.ty, p);
    }
    forall p ensures ChildSat(p) in m.flagsAfter ==> HasChild in n.flags {
      assert TokenOk(s, m.from, ChildSat(p));
      assert HasChild in ChildCondition(p);
    }
    if step.Insert? && step.chain in s.bottom {
      OpenBottom(s, step.chain);
    } else if step.Insert? && step.chain.Under? {
      assert Linked(s, step.chain.parent);
    } else if step.CloseChain? {
      OpenBottom(s, Under(step.a));
    }
    MessageKept(s, Prepare(s, step), i);
  }

  lemma PreparedSchedule(s: State, step: Step, x: nat)
    requires Inv(s) && Enabled(s, step) && x < |Prepare(s, step).nodes|
    ensures ScheduleOk(Prepare(s, step), x)
  {
    hide Linked, TokenOk, ArrivalOk, ReturnOk, ReportOk;
    if x < |s.nodes| {
      assert ScheduleOk(s, x);
      if step.ScheduleSender? || step.DeliverMessage? || step.AcknowledgeMessage? {
        assert MessageOk(s, step.i);
      }
    }
  }

  lemma PreparedReport(s: State, step: Step, x: nat)
    requires Inv(s) && Enabled(s, step) && x < |Prepare(s, step).nodes|
    ensures ReportOk(Prepare(s, step), x)
  {
    if x < |s.nodes| {
      assert ReportOk(s, x);
    } else {
      assert Unregistered !in Prepare(s, step).nodes[x].flags;
    }
  }

  // ---------------------------------------------------------------------------------------------
  // After the step

  /** What the update of a step sends, in the form the lemmas on tokens use. */
  lemma StepSends(s: State, step: Step) returns (raised: Flags, schedule: bool)
    requires Inv(s) && Enabled(s, step) && !step.ScheduleSender?
    ensures var t := Prepare(s, step); var a := Subject(s, step); var n := t.nodes[a];
            && n.flags !! Added(s, step)
            && IsWeak !in Added(s, step)
            && schedule == Schedules(n.ty, n.flags, Added(s, step))
            && Sends(a, raised, schedule, NextIsParent in n.flags + Added(s, step), n.succ, n.child, Out(s, step))
            && (forall f :: f in raised <==> Token(n.ty, f) && Enables(Trigger(n.ty, f), n.flags, Added(s, step)))
  {
    var t := Prepare(s, step);
    var a := Subject(s, step);
    var n := t.nodes[a];
    var added := Added(s, step);
    AddedIsFresh(s, step);
    SubjectPointers(s, step);
    AddedKinds(s, step);
    schedule := Schedules(n.ty, n.flags, added);
    if RunsAutomaton(step) {
      raised := Raised(n.ty, n.flags, added);
      StepHasSingleDestination(s, step);
      EmitSends(a, n.ty, n.flags, added, n.succ, n.child);
      forall f ensures f in raised <==> Token(n.ty, f) && Enables(Trigger(n.ty, f), n.flags, added) {
        RaisedIsEnabled(n.ty, n.flags, added, f);
      }
    } else {
      raised := {};
      forall f | Token(n.ty, f) ensures !Enables(Trigger(n.ty, f), n.flags, added) {
        forall g | g in Trigger(n.ty, f) ensures g !in added {}
      }
    }
  }

  /** The kinds of flags that each step adds. */
  lemma AddedKinds(s: State, step: Step)
    requires Inv(s) && Enabled(s, step)
    ensures IsWeak !in Added(s, step)
    ensures !step.AcknowledgeMessage? ==> forall f :: f in Added(s, step) ==>
            !f.NextSat? && !f.ChildSat? && !f.ReductionCombined?
    ensures step.AcknowledgeMessage? ==> forall f :: f in Added(s, step) ==>
            f.NextSat? || f.ChildSat? || f.ReductionCombined?
    ensures step.DeliverMessage? ==> forall f :: f in Added(s, step) ==> f.Sat? || f.ChildDone?
  {
    if step.DeliverMessage? || step.AcknowledgeMessage? {
      assert MessageOk(s, step.i);
    }
  }

  lemma SubjectPointers(s: State, step: Step)
    requires Inv(s) && Enabled(s, step)
    ensures var t := Prepare(s, step); var n := t.nodes[Subject(s, step)];
            && (HasNext in n.flags + Added(s, step) ==> n.succ.Some?)
            && (HasChild in n.flags + Added(s, step) ==> n.child.Some?)
            && (n.succ.Some? ==> n.succ.value < |t.nodes|)
            && (n.child.Some? ==> n.child.value < |t.nodes|)
  {
    AddedKinds(s, step);
    var a := Subject(s, step);
    if a < |s.nodes| {
      assert Linked(s, a);
    }
  }

  lemma StepToken(s: State, step: Step, x: nat, f: Flag)
    requires Inv(s) && Enabled(s, step) && x < |Prepare(s, step).nodes|
    ensures TokenOk(Next(s, step), x, f)
  {
    hide Inv, TokenOk, Outcome;
    if step.ScheduleSender? {
      PreparedToken(s, step, x, f);
    } else if step.AcknowledgeMessage? {
      AcknowledgedToken(s, step.i, x, f);
    } else {
      SendingToken(s, step, x, f);
    }
  }

  lemma SendingToken(s: State, step: Step, x: nat, f: Flag)
    requires Inv(s) && Enabled(s, step) && !step.ScheduleSender? && !step.AcknowledgeMessage?
    requires x < |Prepare(s, step).nodes|
    ensures TokenOk(Next(s, step), x, f)
  {
    hide Emit, Prepare, Linked, MessageOk, ScheduleOk, ArrivalOk, ReturnOk, ReportOk, Trigger;
    var a := Subject(s, step);
    PreparedToken(s, step, x, f);
    var raised, schedule := StepSends(s, step);
    AddedKinds(s, step);
    if f in Added(s, step) {
      RecordAt(Prepare(s, step).nodes[a].ledger, Out(s, step), |Prepare(s, step).sent|, f);
    } else {
      GrowToken(Prepare(s, step), a, Added(s, step), raised, Out(s, step), x, f);
    }
  }

  /** Tokens do not wait for tokens. */
  lemma TokensTriggerNothing(ty: AccessType, f: Flag, added: Flags)
    requires Token(ty, f) && forall g :: g in added ==> g.NextSat? || g.ChildSat? || g.ReductionCombined?
    ensures Trigger(ty, f) !! added
  {
  }

  /** What an acknowledgement changes: the flags of the sender, and the stage of the message. */
  lemma AcknowledgementIs(s: State, i: nat)
    requires Enabled(s, AcknowledgeMessage(i))
    ensures var t := Next(s, AcknowledgeMessage(i)); var a := s.sent[i].msg.from;
            && |t.nodes| == |s.nodes| && t.sent == s.sent[i := Sent(s.sent[i].msg, Done)]
            && (forall x: nat :: x < |s.nodes| ==>
                  && t.nodes[x].ty == s.nodes[x].ty && t.nodes[x].ledger == s.nodes[x].ledger
                  && t.nodes[x].flags == s.nodes[x].flags + if x == a then s.sent[i].msg.flagsAfter else {})
  {
    hide Complete;
    assert Post([]) == [];
  }

  lemma AcknowledgedToken(s: State, i: nat, x: nat, f: Flag)
    requires Inv(s) && Enabled(s, AcknowledgeMessage(i)) && x < |s.nodes|
    ensures TokenOk(Next(s, AcknowledgeMessage(i)), x, f)
  {
    hide Next, Trigger, Token, Linked, ArrivalOk, ReturnOk, ScheduleOk, ReportOk, Shaped;
    AddedKinds(s, AcknowledgeMessage(i));
    AcknowledgementIs(s, i);
    assert TokenOk(s, x, f) && MessageOk(s, i);
    if Token(s.nodes[x].ty, f) { TokensTriggerNothing(s.nodes[x].ty, f, s.sent[i].msg.flagsAfter); }
  }

  lemma StepMessage(s: State, step: Step, i: nat)
    requires Inv(s) && Enabled(s, step) && i < |Next(s, step).sent|
    ensures MessageOk(Next(s, step), i)
  {
    if i < |s.sent| {
      PreparedMessage(s, step, i);
    }
    if !step.ScheduleSender? {
      var raised, schedule := StepSends(s, step);
      LedgerIsTriggered(s, step, raised, schedule);
      SubjectPointers(s, step);
      GrowAnyMessage(Prepare(s, step), Subject(s, step), Added(s, step), raised, schedule, Out(s, step), i);
    }
  }

  /** What the update raises was not in the ledger, and the schedule request was not made, before. */
  lemma LedgerIsTriggered(s: State, step: Step, raised: Flags, schedule: bool)
    requires Inv(s) && Enabled(s, step) && !step.ScheduleSender?
    requires var n := Prepare(s, step).nodes[Subject(s, step)];
             && (forall f :: f in raised ==> Token(n.ty, f) && Enables(Trigger(n.ty, f), n.flags, Added(s, step)))
             && schedule == Schedules(n.ty, n.flags, Added(s, step))
    ensures var n := Prepare(s, step).nodes[Subject(s, step)];
            && (forall f :: f in raised ==> f !in n.ledger)
            && (NextIsParent in Added(s, step) ==> forall p :: NextSat(p) !in n.ledger)
            && (n.scheduledBy.Some? ==> !schedule)
  {
    var a := Subject(s, step);
    var n := Prepare(s, step).nodes[a];
    AddedIsFresh(s, step);
    AddedKinds(s, step);
    if a < |s.nodes| {
      forall f ensures f in n.ledger ==> Trigger(n.ty, f) <= n.flags {
        assert TokenOk(s, a, f);
      }
      assert ScheduleOk(s, a);
      if NextIsParent in Added(s, step) {
        OpenBottom(s, Under(step.a));
        forall p ensures NextSat(p) !in n.ledger {
          assert HasNext in NextCondition(n.ty, p);
        }
      }
    }
  }

  lemma StepSchedule(s: State, step: Step, x: nat)
    requires Inv(s) && Enabled(s, step) && x < |Prepare(s, step).nodes|
    ensures ScheduleOk(Next(s, step), x)
  {
    PreparedSchedule(s, step, x);
    if !step.ScheduleSender? {
      var raised, schedule := StepSends(s, step);
      GrowSchedule(Prepare(s, step), Subject(s, step), Added(s, step), raised, Out(s, step), x);
    }
  }

  lemma StepReport(s: State, step: Step, x: nat)
    requires Inv(s) && Enabled(s, step) && x < |Prepare(s, step).nodes|
    ensures ReportOk(Next(s, step), x)
  {
    PreparedReport(s, step, x);
    if !step.ScheduleSender? {
      SubjectIsIncomplete(s, step);
      GrowReport(Prepare(s, step), Subject(s, step), Added(s, step), Out(s, step), x);
    }
  }

  // ---------------------------------------------------------------------------------------------
  // Deliveries

  lemma QuietIs(s: State, step: Step, x: nat)
    requires Enabled(s, step) && (step.ScheduleSender? || step.AcknowledgeMessage?) && x < |s.nodes|
    ensures var t := Next(s, step);
            && |t.sent| == |s.sent| && x < |t.nodes| && t.nodes[x].ledger == s.nodes[x].ledger
            && (forall i :: 0 <= i < |s.sent| ==> (t.sent[i].stage.Deliver? <==> s.sent[i].stage.Deliver?))
  {
    hide Emit, Complete;
    assert Post([]) == [];
  }

  /** A step that sends nothing delivers nothing. */
  lemma QuietDelivered(s: State, step: Step, x: nat, f: Flag)
    requires Enabled(s, step) && x < |s.nodes| && (step.ScheduleSender? || step.AcknowledgeMessage?)
    ensures x < |Next(s, step).nodes| && (Delivered(Next(s, step), x, f) <==> Delivered(s, x, f))
  {
    hide Next;
    QuietIs(s, step, x);
  }

  lemma SendingDelivered(s: State, step: Step, x: nat, f: Flag)
    requires Inv(s) && Enabled(s, step) && x < |s.nodes| && (f.NextSat? || f.ChildSat?)
    requires !step.ScheduleSender? && !step.AcknowledgeMessage?
    ensures Delivered(Next(s, step), x, f) <==> Delivered(Prepare(s, step), x, f)
  {
    var t := Prepare(s, step);
    if step.DeliverMessage? { assert MessageOk(s, step.i); }
    assert TokenOk(s, x, f);
    var raised, schedule := StepSends(s, step);
    LedgerIsTriggered(s, step, raised, schedule);
    PreparedToken(s, step, x, f);
    GrowDelivered(t, Subject(s, step), Added(s, step), raised, schedule, Out(s, step), x, f);
  }

  lemma PreparedDelivered(s: State, step: Step, x: nat, f: Flag)
    requires Inv(s) && Enabled(s, step) && x < |s.nodes| && (f.NextSat? || f.ChildSat?)
    requires !step.ScheduleSender? && !step.AcknowledgeMessage?
    ensures x < |Prepare(s, step).nodes|
    ensures Delivered(Prepare(s, step), x, f) <==>
              Delivered(s, x, f) || (step.DeliverMessage? && s.sent[step.i].msg.from == x
                && f in s.sent[step.i].msg.flagsAfter)
  {
    assert TokenOk(s, x, f);
    if step.DeliverMessage? { assert MessageOk(s, step.i); }
  }

  /** The only deliveries that a step makes are those of the message it delivers. */
  lemma StepDelivered(s: State, step: Step, x: nat, f: Flag)
    requires Inv(s) && Enabled(s, step) && x < |s.nodes| && (f.NextSat? || f.ChildSat?)
    ensures Delivered(Next(s, step), x, f) <==>
              Delivered(s, x, f) || (step.DeliverMessage? && s.sent[step.i].msg.from == x
                && f in s.sent[step.i].msg.flagsAfter)
  {
    if step.ScheduleSender? || step.AcknowledgeMessage? {
      QuietDelivered(s, step, x, f);
    } else {
      PreparedDelivered(s, step, x, f);
      SendingDelivered(s, step, x, f);
    }
  }

  /** A message brings `p` to access `b` exactly when it carries the token of the link through which `p` comes in. */
  lemma MessageArrives(s: State, i: nat, b: nat, p: Perm)
    requires Inv(s) && Enabled(s, DeliverMessage(i)) && b < |s.nodes|
    ensures var m := s.sent[i].msg; var n := s.nodes[b];
            m.to == Some(b) && Sat(p) in m.flagsForNext <==>
              (n.pred.Some? && m.from == n.pred.value && NextSat(p) in m.flagsAfter)
              || (n.pred.None? && n.chain.Under? && m.from == n.chain.parent && ChildSat(p) in m.flagsAfter)
  {
    hide TokenOk, ScheduleOk, ArrivalOk, ReturnOk, ReportOk;
    var m := s.sent[i].msg;
    assert MessageOk(s, i);
    assert Linked(s, m.from) && Linked(s, b);
  }

  /** What a step leaves alone in an access, and what it adds. */
  lemma StepNode(s: State, step: Step, b: nat)
    requires Enabled(s, step) && b < |s.nodes|
    ensures b < |Next(s, step).nodes|
    ensures var n := s.nodes[b]; var m := Next(s, step).nodes[b];
            && m.pred == n.pred && m.chain == n.chain && m.ty == n.ty && (n.started ==> m.started)
            && (!step.Insert? && !step.CloseChain? ==> m.succ == n.succ && m.child == n.child)
            && m.flags == n.flags + if b == Subject(s, step) then Added(s, step) else {}
  {
    hide Prepare, Emit, Post, Record, RecordSchedule, Complete;
    PreparedIs(s, step, b);
  }

  lemma ArrivalKept(s: State, t: State, b: nat, p: Perm, now: bool)
    requires b < |s.nodes| && b < |t.nodes| && ArrivalOk(s, b, p)
    requires t.nodes[b].pred == s.nodes[b].pred && t.nodes[b].chain == s.nodes[b].chain
    requires Sat(p) in t.nodes[b].flags <==> Sat(p) in s.nodes[b].flags || now
    requires s.nodes[b].pred.Some? ==>
               var a := s.nodes[b].pred.value;
               a < |s.nodes| && a < |t.nodes| && (Delivered(t, a, NextSat(p)) <==> Delivered(s, a, NextSat(p)) || now)
    requires s.nodes[b].pred.None? && s.nodes[b].chain.Under? ==>
               var a := s.nodes[b].chain.parent;
               a < |s.nodes| && a < |t.nodes| && (Delivered(t, a, ChildSat(p)) <==> Delivered(s, a, ChildSat(p)) || now)
    ensures ArrivalOk(t, b, p)
  {
  }

  /** The step delivers `p` to access `b`. */
  predicate ArrivesNow(s: State, step: Step, b: nat, p: Perm)
    requires Enabled(s, step)
  {
    step.DeliverMessage? && s.sent[step.i].msg.to == Some(b) && Sat(p) in s.sent[step.i].msg.flagsForNext
  }

  lemma NextLinkDelivers(s: State, step: Step, b: nat, p: Perm)
    requires Inv(s) && Enabled(s, step) && b < |s.nodes| && s.nodes[b].pred.Some?
    ensures var a := s.nodes[b].pred.value;
            && a < |s.nodes| && a < |Next(s, step).nodes| && Next(s, step).nodes[a].ty == s.nodes[a].ty
            && (Delivered(Next(s, step), a, NextSat(p)) <==> Delivered(s, a, NextSat(p)) || ArrivesNow(s, step, b, p))
  {
    assert Linked(s, b);
    StepDelivered(s, step, s.nodes[b].pred.value, NextSat(p));
    StepNode(s, step, s.nodes[b].pred.value);
    if step.DeliverMessage? { MessageArrives(s, step.i, b, p); }
  }

  lemma ChildLinkDelivers(s: State, step: Step, b: nat, p: Perm)
    requires Inv(s) && Enabled(s, step) && b < |s.nodes| && s.nodes[b].pred.None? && s.nodes[b].chain.Under?
    ensures var a := s.nodes[b].chain.parent;
            && a < |s.nodes| && a < |Next(s, step).nodes| && Next(s, step).nodes[a].ty == s.nodes[a].ty
            && (Delivered(Next(s, step), a, ChildSat(p)) <==> Delivered(s, a, ChildSat(p)) || ArrivesNow(s, step, b, p))
  {
    assert Linked(s, b);
    StepDelivered(s, step, s.nodes[b].chain.parent, ChildSat(p));
    StepNode(s, step, s.nodes[b].chain.parent);
    if step.DeliverMessage? { MessageArrives(s, step.i, b, p); }
  }

  lemma StepArrival(s: State, step: Step, b: nat, p: Perm)
    requires Inv(s) && Enabled(s, step) && b < |s.nodes|
    ensures ArrivalOk(Next(s, step), b, p)
  {
    assert ArrivalOk(s, b, p);
    var n := s.nodes[b];
    if n.pred.Some? {
      NextLinkDelivers(s, step, b, p);
    } else if n.chain.Under? {
      ChildLinkDelivers(s, step, b, p);
    } else if step.DeliverMessage? {
      MessageArrives(s, step.i, b, p);
    }
    StepNode(s, step, b);
    SatAdded(s, step, b, p);
    ArrivalKept(s, Next(s, step), b, p, ArrivesNow(s, step, b, p));
  }

  /** Existing accesses gain permissions only by delivery. */
  lemma SatAdded(s: State, step: Step, b: nat, p: Perm)
    requires Inv(s) && Enabled(s, step) && b < |s.nodes|
    ensures b == Subject(s, step) && Sat(p) in Added(s, step) <==>
              step.DeliverMessage? && s.sent[step.i].msg.to == Some(b) && Sat(p) in s.sent[step.i].msg.flagsForNext
  {
    AddedKinds(s, step);
  }

  /** What is known of a new access. */
  lemma NewAccessIs(s: State, step: Step, p: Perm)
    requires Enabled(s, step) && step.Insert?
    ensures var t := Next(s, step); var n := |s.nodes|;
            && |t.nodes| == n + 1 && t.bottom == s.bottom[step.chain := n] && t.nodes[n].chain == step.chain
            && t.nodes[n].pred == (if step.chain in s.bottom then Some(s.bottom[step.chain]) else None)
            && (Sat(p) in t.nodes[n].flags <==> step.chain !in s.bottom && step.chain.Root?)
            && ChildDone(p) !in t.nodes[n].flags && Unregistered !in t.nodes[n].flags && HasChild !in t.nodes[n].flags
            && NextIsParent !in t.nodes[n].flags
  {
    hide Emit, Post, Record, RecordSchedule, Complete;
    match p { case Read => case Write => case Concurrent => case Commutative => }
  }

  /** Nothing has been sent on a link that does not exist yet. */
  lemma NothingSentYet(s: State, a: nat, f: Flag)
    requires Inv(s) && a < |s.nodes|
    requires (f.NextSat? && HasNext !in s.nodes[a].flags) || (f.ChildSat? && HasChild !in s.nodes[a].flags)
    ensures !Delivered(s, a, f)
  {
    assert TokenOk(s, a, f);
    if f.NextSat? {
      assert HasNext in NextCondition(s.nodes[a].ty, f.perm);
    } else {
      assert HasChild in ChildCondition(f.perm);
    }
  }

  lemma NewArrival(s: State, step: Step, p: Perm)
    requires Inv(s) && Enabled(s, step) && step.Insert?
    ensures ArrivalOk(Next(s, step), |s.nodes|, p)
  {
    hide Next, Delivered, Closed;
    var ch := step.chain;
    NewAccessIs(s, step, p);
    if ch in s.bottom {
      OpenBottom(s, ch);
      NothingSentYet(s, s.bottom[ch], NextSat(p));
      StepDelivered(s, step, s.bottom[ch], NextSat(p));
    } else if ch.Under? {
      assert Linked(s, ch.parent);
      NothingSentYet(s, ch.parent, ChildSat(p));
      StepDelivered(s, step, ch.parent, ChildSat(p));
    }
  }

  /** A message gives `p` back to access `a` exactly when it carries the token of its last child. */
  lemma MessageReturns(s: State, i: nat, a: nat, p: Perm)
    requires Inv(s) && Enabled(s, DeliverMessage(i)) && a < |s.nodes|
    ensures var m := s.sent[i].msg;
            m.to == Some(a) && ChildDone(p) in m.flagsForNext <==>
              Closed(s, a) && m.from == s.bottom[Under(a)] && NextSat(p) in m.flagsAfter
  {
    var m := s.sent[i].msg;
    assert MessageOk(s, i);
    assert Linked(s, m.from) && Linked(s, a);
    assert BottomOk(s, Under(a));
    if Closed(s, a) {
      assert Linked(s, s.bottom[Under(a)]);
    }
  }

  lemma ReturnKept(s: State, t: State, a: nat, p: Perm, now: bool)
    requires a < |s.nodes| && a < |t.nodes| && ReturnOk(s, a, p)
    requires HasChild in t.nodes[a].flags <==> HasChild in s.nodes[a].flags
    requires HasChild in s.nodes[a].flags ==>
               && (ChildDone(p) in t.nodes[a].flags <==> ChildDone(p) in s.nodes[a].flags || now)
               && Under(a) in s.bottom && s.bottom[Under(a)] < |s.nodes|
               && (Closed(t, a) <==> Closed(s, a))
               && (now ==> Closed(s, a))
               && (Closed(s, a) ==>
                     && t.bottom[Under(a)] == s.bottom[Under(a)]
                     && (Delivered(t, s.bottom[Under(a)], NextSat(p)) <==>
                           Delivered(s, s.bottom[Under(a)], NextSat(p)) || now))
    requires HasChild !in s.nodes[a].flags ==>
               (ChildDone(p) in t.nodes[a].flags <==> Unregistered in t.nodes[a].flags)
    ensures ReturnOk(t, a, p)
  {
  }

  /** Done flags are added by delivery, or with the unregistration of an access without children. */
  lemma DoneAdded(s: State, step: Step, a: nat, p: Perm)
    requires Inv(s) && Enabled(s, step) && a < |s.nodes|
    ensures a == Subject(s, step) && ChildDone(p) in Added(s, step) <==>
              (step.DeliverMessage? && s.sent[step.i].msg.to == Some(a)
                && ChildDone(p) in s.sent[step.i].msg.flagsForNext)
              || (step.Unregister? && step.a == a && HasChild !in s.nodes[a].flags)
    ensures a == Subject(s, step) && Unregistered in Added(s, step) <==> step.Unregister? && step.a == a
    ensures a == Subject(s, step) && HasChild in Added(s, step) <==>
              step.Insert? && step.chain == Under(a) && Under(a) !in s.bottom
  {
    AddedKinds(s, step);
    match p { case Read => case Write => case Concurrent => case Commutative => }
    if step.Insert? && step.chain in s.bottom { assert BottomOk(s, step.chain); }
  }

  /** Which chains are closed, and where they end, changes only when the chain itself grows or is closed. */
  lemma StepClosed(s: State, step: Step, a: nat)
    requires Inv(s) && Enabled(s, step) && Under(a) in s.bottom
    requires !(step.Insert? && step.chain == Under(a)) && !(step.CloseChain? && step.a == a)
    ensures Under(a) in Next(s, step).bottom && Next(s, step).bottom[Under(a)] == s.bottom[Under(a)]
    ensures Closed(Next(s, step), a) <==> Closed(s, a)
  {
    hide Linked, MessageOk, TokenOk, ScheduleOk, ArrivalOk, ReturnOk, ReportOk, Emit, Post, Complete;
    assert BottomOk(s, Under(a));
    StepNode(s, step, s.bottom[Under(a)]);
    AddedKinds(s, step);
    if step.CloseChain? { assert BottomOk(s, Under(step.a)); }
  }

  lemma StepReturn(s: State, step: Step, a: nat, p: Perm)
    requires Inv(s) && Enabled(s, step) && a < |s.nodes|
    ensures ReturnOk(Next(s, step), a, p)
  {
    hide MessageOk, TokenOk, ScheduleOk, ArrivalOk, Next;
    if (step.Insert? && step.chain == Under(a)) || (step.CloseChain? && step.a == a) {
      OwnChainReturn(s, step, a, p);
    } else {
      assert ReturnOk(s, a, p);
      assert Linked(s, a);
      assert BottomOk(s, Under(a));
      var t := Next(s, step);
      StepNode(s, step, a);
      DoneAdded(s, step, a, p);
      var now := step.DeliverMessage? && s.sent[step.i].msg.to == Some(a)
        && ChildDone(p) in s.sent[step.i].msg.flagsForNext;
      if Under(a) in s.bottom {
        StepClosed(s, step, a);
        StepDelivered(s, step, s.bottom[Under(a)], NextSat(p));
      }
      if step.DeliverMessage? {
        MessageReturns(s, step.i, a, p);
      }
      ReturnKept(s, t, a, p, now);
    }
  }

  /** A chain that grows, or is just closed, has returned nothing. */
  lemma OwnChainReturn(s: State, step: Step, a: nat, p: Perm)
    requires Inv(s) && Enabled(s, step) && a < |s.nodes|
    requires (step.Insert? && step.chain == Under(a)) || (step.CloseChain? && step.a == a)
    ensures ReturnOk(Next(s, step), a, p)
  {
    hide Inv, Next, ReturnOk;
    if step.Insert? { GrownChainReturn(s, step, a, p); } else { ClosedChainReturn(s, a, p); }
  }

  lemma GrownChainReturn(s: State, step: Step, a: nat, p: Perm)
    requires Inv(s) && Enabled(s, step) && a < |s.nodes| && step.Insert? && step.chain == Under(a)
    ensures ReturnOk(Next(s, step), a, p)
  {
    hide Next, Delivered;
    assert ReturnOk(s, a, p) && Linked(s, a);
    StepNode(s, step, a);
    DoneAdded(s, step, a, p);
    NewAccessIs(s, step, p);
  }

  lemma ClosedChainReturn(s: State, a: nat, p: Perm)
    requires Inv(s) && Enabled(s, CloseChain(a))
    ensures ReturnOk(Next(s, CloseChain(a)), a, p)
  {
    hide Next, Delivered;
    var last := s.bottom[Under(a)];
    assert ReturnOk(s, a, p) && Linked(s, a);
    OpenBottom(s, Under(a));
    NothingSentYet(s, last, NextSat(p));
    StepDelivered(s, CloseChain(a), last, NextSat(p));
    StepNode(s, CloseChain(a), a);
    StepNode(s, CloseChain(a), last);
    DoneAdded(s, CloseChain(a), a, p);
    KeepsBottom(s, CloseChain(a));
  }

  lemma KeepsBottom(s: State, step: Step)
    requires Enabled(s, step) && !step.Insert?
    ensures Next(s, step).bottom == s.bottom
  {
  }

  lemma NewReturn(s: State, step: Step, p: Perm)
    requires Inv(s) && Enabled(s, step) && step.Insert?
    ensures ReturnOk(Next(s, step), |s.nodes|, p)
  {
    hide Next, Inv;
    NewAccessIs(s, step, p);
  }

  // ---------------------------------------------------------------------------------------------
  // Runs

  lemma StepBottom(s: State, step: Step, ch: Chain)
    requires Inv(s) && Enabled(s, step)
    ensures BottomOk(Next(s, step), ch)
  {
    hide Next;
    assert BottomOk(s, ch);
    if ch in s.bottom { StepNode(s, step, s.bottom[ch]); }
    if step.Insert? { NewAccessIs(s, step, Read); } else { KeepsBottom(s, step); OnlyInsertAdds(s, step); }
  }

  lemma StepLinked(s: State, step: Step, x: nat)
    requires Inv(s) && Enabled(s, step) && x < |Next(s, step).nodes|
    ensures Linked(Next(s, step), x)
  {
    if step.ScheduleSender? {
      StartLinks(s, step.i, x);
    } else {
      AddedKinds(s, step);
      StepLinks(s, step, Out(s, step), x);
    }
  }

  lemma StepInvPointers(s: State, step: Step)
    requires Inv(s) && Enabled(s, step)
    ensures |Next(s, step).nodes| == |Prepare(s, step).nodes|
    ensures forall a :: 0 <= a < |Next(s, step).nodes| ==> Linked(Next(s, step), a)
    ensures forall ch :: BottomOk(Next(s, step), ch)
  {
    forall a | 0 <= a < |Next(s, step).nodes| ensures Linked(Next(s, step), a) { StepLinked(s, step, a); }
    forall ch ensures BottomOk(Next(s, step), ch) { StepBottom(s, step, ch); }
  }

  lemma StepInvTokens(s: State, step: Step)
    requires Inv(s) && Enabled(s, step)
    ensures forall a, f :: 0 <= a < |Next(s, step).nodes| ==> TokenOk(Next(s, step), a, f)
    ensures forall a :: 0 <= a < |Next(s, step).nodes| ==> ScheduleOk(Next(s, step), a)
    ensures forall i :: 0 <= i < |Next(s, step).sent| ==> MessageOk(Next(s, step), i)
    ensures forall a :: 0 <= a < |Next(s, step).nodes| ==> ReportOk(Next(s, step), a)
  {
    var t := Next(s, step);
    forall a, f | 0 <= a < |t.nodes| ensures TokenOk(t, a, f) { StepToken(s, step, a, f); }
    forall a | 0 <= a < |t.nodes| ensures ScheduleOk(t, a) { StepSchedule(s, step, a); }
    forall i | 0 <= i < |t.sent| ensures MessageOk(t, i) { StepMessage(s, step, i); }
    forall a | 0 <= a < |t.nodes| ensures ReportOk(t, a) { StepReport(s, step, a); }
  }

  lemma OnlyInsertAdds(s: State, step: Step)
    requires Enabled(s, step)
    ensures |Next(s, step).nodes| == |s.nodes| + if step.Insert? then 1 else 0
  {
  }

  lemma StepInvFlow(s: State, step: Step, b: nat, p: Perm)
    requires Inv(s) && Enabled(s, step) && b < |Next(s, step).nodes|
    ensures ArrivalOk(Next(s, step), b, p) && ReturnOk(Next(s, step), b, p)
  {
    hide Inv, Next, ArrivalOk, ReturnOk;
    OnlyInsertAdds(s, step);
    if b < |s.nodes| {
      StepArrival(s, step, b, p);
      StepReturn(s, step, b, p);
    } else {
      NewArrival(s, step, p);
      NewReturn(s, step, p);
    }
  }

  /** Every step keeps the invariant. */
  lemma StepInv(s: State, step: Step)
    requires Inv(s) && Enabled(s, step)
    ensures Inv(Next(s, step))
  {
    StepInvPointers(s, step);
    StepInvTokens(s, step);
    forall b, p | 0 <= b < |Next(s, step).nodes|
      ensures ArrivalOk(Next(s, step), b, p) && ReturnOk(Next(s, step), b, p)
    {
      StepInvFlow(s, step, b, p);
    }
  }

  /** The step can be taken in `s` and leads to `t`. */
  ghost predicate Took(s: State, step: Step, t: State) {
    Enabled(s, step) && Next(s, step) == t
  }

  /** A run from the empty tree: its steps, and the states before, between and after them. */
  ghost predicate Trace(steps: seq<Step>, states: seq<State>) {
    && |states| == |steps| + 1 && states[0] == EMPTY
    && forall i, j {:trigger Took(states[i], steps[i], states[j])} ::
         0 <= i && j == i + 1 < |states| ==> Took(states[i], steps[i], states[j])
  }

  /** Some interleaving leads here. */
  ghost predicate Reachable(s: State) {
    exists steps: seq<Step>, states: seq<State> :: Trace(steps, states) && s == states[|steps|]
  }

  lemma {:induction false} TraceInv(steps: seq<Step>, states: seq<State>, k: nat)
    requires Trace(steps, states) && k < |states|
    ensures Inv(states[k])
  {
    if k > 0 {
      TraceInv(steps, states, k - 1);
      assert Took(states[k - 1], steps[k - 1], states[k]);
      StepInv(states[k - 1], steps[k - 1]);
    }
  }

  /** The invariant holds after every run, whatever the interleaving. */
  lemma ReachableInv(s: State)
    requires Reachable(s)
    ensures Inv(s)
  {
    var steps: seq<Step>, states: seq<State> :| Trace(steps, states) && s == states[|steps|];
    TraceInv(steps, states, |steps|);
  }

  lemma TraceGrows(steps: seq<Step>, states: seq<State>, step: Step)
    requires Trace(steps, states) && Enabled(states[|steps|], step)
    ensures Trace(steps + [step], states + [Next(states[|steps|], step)])
  {
    hide Next, Enabled;
    var t := Next(states[|steps|], step);
    assert Took(states[|steps|], step, t);
    forall i, j | 0 <= i && j == i + 1 < |states + [t]|
      ensures Took((states + [t])[i], (steps + [step])[i], (states + [t])[j])
    {
      if j < |states| { assert Took(states[i], steps[i], states[j]); }
    }
  }
}
