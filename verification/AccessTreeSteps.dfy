/** What every enabled step of a consistent state may rely on: it sets only flags that were not set, on an access
    that is not yet complete, and its automaton has a single destination. */
module AccessTreeSteps {
  import opened AccessFlags
  import opened DataAccess
  import opened AccessTree

  /** A permission held by a child access is held by its parent access. */
  lemma {:induction false} ChildSatisfiedAfterParent(s: State, c: nat, p: Perm)
    requires Inv(s) && c < |s.nodes| && s.nodes[c].chain.Under? && Sat(p) in s.nodes[c].flags
    ensures s.nodes[c].chain.parent < |s.nodes| && Sat(p) in s.nodes[s.nodes[c].chain.parent].flags
  {
    assert Linked(s, c) && ArrivalOk(s, c, p);
    if s.nodes[c].pred.Some? {
      var a := s.nodes[c].pred.value;
      assert TokenOk(s, a, NextSat(p));
      assert Sat(p) in NextCondition(s.nodes[a].ty, p);
      ChildSatisfiedAfterParent(s, a, p);
    } else {
      assert TokenOk(s, s.nodes[c].chain.parent, ChildSat(p));
      assert Sat(p) in ChildCondition(p);
    }
  }

  /** Children give back only what the parent access holds. */
  lemma DoneImpliesSatisfied(s: State, a: nat, p: Perm)
    requires Inv(s) && a < |s.nodes| && HasChild in s.nodes[a].flags && ChildDone(p) in s.nodes[a].flags
    ensures Sat(p) in s.nodes[a].flags
  {
    assert ReturnOk(s, a, p);
    var last := s.bottom[Under(a)];
    assert BottomOk(s, Under(a));
    assert TokenOk(s, last, NextSat(p));
    assert Sat(p) in NextCondition(s.nodes[last].ty, p);
    ChildSatisfiedAfterParent(s, last, p);
  }

  /** The last access of a chain that can still grow, or is being closed, has no successor. */
  lemma OpenBottom(s: State, ch: Chain)
    requires Inv(s) && ch in s.bottom
    requires ch.Under? ==> !Closed(s, ch.parent)
    ensures s.bottom[ch] < |s.nodes|
    ensures HasNext !in s.nodes[s.bottom[ch]].flags && NextIsParent !in s.nodes[s.bottom[ch]].flags
  {
    assert BottomOk(s, ch);
    assert Linked(s, s.bottom[ch]);
  }

  /** The flags of a pending message are missing at its receiver, which is linked to its sender. */
  lemma PendingIsMissing(s: State, i: nat, g: Flag)
    requires Inv(s) && Enabled(s, DeliverMessage(i)) && g in s.sent[i].msg.flagsForNext
    ensures var b := s.sent[i].msg.to.value;
            && g !in s.nodes[b].flags
            && (g.Sat? || (g.ChildDone? && HasChild in s.nodes[b].flags))
  {
    var m := s.sent[i].msg;
    var b := m.to.value;
    assert MessageOk(s, i);
    assert Linked(s, m.from) && Linked(s, b);
    if g.Sat? && ChildSat(g.perm) in m.flagsAfter {
      assert TokenOk(s, m.from, ChildSat(g.perm));
      assert ArrivalOk(s, b, g.perm);
    } else if g.Sat? {
      assert NextSat(g.perm) in m.flagsAfter;
      assert TokenOk(s, m.from, NextSat(g.perm));
      assert ArrivalOk(s, b, g.perm);
    } else {
      assert NextSat(g.perm) in m.flagsAfter;
      assert TokenOk(s, m.from, NextSat(g.perm));
      assert ReturnOk(s, b, g.perm);
      assert BottomOk(s, Under(b));
    }
  }

  /** A message brings permissions, or gives permissions back: never both. */
  lemma PendingIsUniform(s: State, i: nat, g: Flag, h: Flag)
    requires Inv(s) && i < |s.sent|
    requires g in s.sent[i].msg.flagsForNext && h in s.sent[i].msg.flagsForNext
    ensures g.Sat? <==> h.Sat?
  {
    var m := s.sent[i].msg;
    assert MessageOk(s, i);
    if g.Sat? { assert ChildSat(g.perm) in m.flagsAfter || NextSat(g.perm) in m.flagsAfter; }
    if h.Sat? { assert ChildSat(h.perm) in m.flagsAfter || NextSat(h.perm) in m.flagsAfter; }
    if g.ChildDone? { assert NextSat(g.perm) in m.flagsAfter; }
    if h.ChildDone? { assert NextSat(h.perm) in m.flagsAfter; }
  }

  /** The acknowledgement of a message sets flags that are missing at its sender. */
  lemma UnacknowledgedIsMissing(s: State, i: nat, f: Flag)
    requires Inv(s) && i < |s.sent| && !s.sent[i].stage.Done? && f in s.sent[i].msg.flagsAfter
    ensures s.sent[i].msg.from < |s.nodes|
    ensures var n := s.nodes[s.sent[i].msg.from];
            && f !in n.flags
            && ((f.NextSat? && HasNext in n.flags) || (f.ChildSat? && HasChild in n.flags)
                  || (f.ReductionCombined? && n.ty.ReductionAccess?))
  {
    assert MessageOk(s, i);
    var n := s.nodes[s.sent[i].msg.from];
    assert TokenOk(s, s.sent[i].msg.from, f);
    if f.NextSat? {
      assert HasNext in NextCondition(n.ty, f.perm);
    } else if f.ChildSat? {
      assert HasChild in ChildCondition(f.perm);
    }
  }

  /** No step sets a flag twice. */
  lemma AddedIsFresh(s: State, step: Step)
    requires Inv(s) && Enabled(s, step)
    ensures Prepare(s, step).nodes[Subject(s, step)].flags !! Added(s, step)
  {
    match step {
      case Insert(ch, ty, weak) =>
        if ch in s.bottom { OpenBottom(s, ch); }
        else if ch.Under? { assert Linked(s, ch.parent); }
      case DeliverMessage(i) =>
        forall g | g in Added(s, step) ensures g !in s.nodes[Subject(s, step)].flags { PendingIsMissing(s, i, g); }
      case ScheduleSender(i) =>
      case AcknowledgeMessage(i) =>
        forall f | f in Added(s, step)
          ensures f !in s.nodes[Subject(s, step)].flags
        {
          UnacknowledgedIsMissing(s, i, f);
        }
      case CloseChain(a) => OpenBottom(s, Under(a));
      case Unregister(a) =>
        forall p
          ensures HasChild !in s.nodes[a].flags ==> ChildDone(p) !in s.nodes[a].flags
        {
          assert ReturnOk(s, a, p);
        }
      case FinishParent(ch) =>
        assert BottomOk(s, ch);
        assert Linked(s, s.bottom[ch]);
    }
  }

  /** No step changes the flags of an access that is complete, so nothing can follow its disposal. */
  lemma SubjectIsIncomplete(s: State, step: Step)
    requires Inv(s) && Enabled(s, step) && !step.ScheduleSender?
    ensures var n := Prepare(s, step).nodes[Subject(s, step)]; !Complete(n.ty, n.flags)
  {
    match step {
      case Insert(ch, ty, weak) =>
        if ch in s.bottom {
          OpenBottom(s, ch);
          assert Linked(s, s.bottom[ch]) && BottomOk(s, ch);
        } else if ch.Root? {
          assert Sat(Read) !in NewNode(s, ch, ty, weak).flags;
        }
      case DeliverMessage(i) =>
        assert MessageOk(s, i);
        var g :| g in s.sent[i].msg.flagsForNext;
        PendingIsMissing(s, i, g);
      case AcknowledgeMessage(i) =>
        assert MessageOk(s, i);
        var f :| f in s.sent[i].msg.flagsAfter;
        UnacknowledgedIsMissing(s, i, f);
      case CloseChain(a) =>
        OpenBottom(s, Under(a));
        assert Linked(s, s.bottom[Under(a)]) && BottomOk(s, Under(a));
      case Unregister(a) =>
      case FinishParent(ch) =>
        assert BottomOk(s, ch);
        assert Linked(s, s.bottom[ch]);
    }
  }

  lemma NoChildPerms(held: Flags, added: Flags)
    requires HasChild !in held + added || (HasChild !in added && forall p :: Sat(p) !in added)
    ensures ChildPerms(held, added) == {}
  {
    forall p ensures p !in ChildPerms(held, added) {
      assert Sat(p) in ChildCondition(p) && HasChild in ChildCondition(p);
    }
  }

  lemma NoNextPerms(ty: AccessType, held: Flags, added: Flags)
    requires HasNext !in held + added || added == {HasChild}
    ensures NextPerms(ty, held, added) == {}
  {
    forall p ensures p !in NextPerms(ty, held, added) {
      assert HasNext in NextCondition(ty, p) && HasChild !in NextCondition(ty, p);
    }
  }

  lemma DeliveryHasSingleDestination(s: State, i: nat)
    requires Inv(s) && Enabled(s, DeliverMessage(i))
    ensures var n := s.nodes[s.sent[i].msg.to.value];
            !TwoWay(n.ty) ==> SingleDestination(n.ty, n.flags, s.sent[i].msg.flagsForNext)
  {
    hide Linked, ScheduleOk, ArrivalOk, ReturnOk, ReportOk, TokenOk;
    var b := s.sent[i].msg.to.value;
    var n := s.nodes[b];
    var added := s.sent[i].msg.flagsForNext;
    assert MessageOk(s, i);
    if !TwoWay(n.ty) && NextPerms(n.ty, n.flags, added) != {} && ChildPerms(n.flags, added) != {} {
      var q :| q in ChildPerms(n.flags, added);
      assert !(ChildCondition(q) <= n.flags);
      assert Sat(q) in added;
      PendingIsMissing(s, i, Sat(q));
      forall g | g in added ensures g.Sat? { PendingIsUniform(s, i, g, Sat(q)); }
      var p :| p in NextPerms(n.ty, n.flags, added);
      assert NextCondition(n.ty, p) <= n.flags + added;
      assert ChildDone(p) in n.flags;
      assert Sat(p) in added;
      PendingIsMissing(s, i, Sat(p));
      assert HasChild in n.flags;
      DoneImpliesSatisfied(s, b, p);
      assert false;
    }
  }

  /** The write, readwrite and reduction automata never have messages for both child and successor. */
  lemma StepHasSingleDestination(s: State, step: Step)
    requires Inv(s) && Enabled(s, step) && RunsAutomaton(step)
    ensures var n := Prepare(s, step).nodes[Subject(s, step)];
            !TwoWay(n.ty) ==> SingleDestination(n.ty, n.flags, Added(s, step))
  {
    var n := Prepare(s, step).nodes[Subject(s, step)];
    match step {
      case Insert(ch, ty, weak) =>
        if ch in s.bottom || ch.Root? {
          NoChildPerms(n.flags, Added(s, step));
        } else {
          NoNextPerms(n.ty, n.flags, Added(s, step));
        }
      case DeliverMessage(i) => DeliveryHasSingleDestination(s, i);
      case CloseChain(a) => NoChildPerms(n.flags, Added(s, step));
      case Unregister(a) => NoChildPerms(n.flags, Added(s, step));
    }
  }
}
