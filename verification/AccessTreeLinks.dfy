/** Every step keeps the pointers, the chains and the bottom map consistent. */
module AccessTreeLinks {
  import opened AccessFlags
  import opened DataAccess
  import opened AccessTree

  ghost predicate LinksOk(s: State) {
    && (forall a :: 0 <= a < |s.nodes| ==> Linked(s, a))
    && (forall ch :: BottomOk(s, ch))
  }

  /** Flags that the pointers depend on. */
  predicate LinkFlag(f: Flag) {
    f.HasNext? || f.HasChild? || f.ParentDone? || f.NextIsParent? || f.Unregistered?
  }

  /** Access `a` gains flags that no pointer depends on, or is unregistered. */
  ghost predicate GainsFlags(s: State, t: State, a: nat) {
    && a < |s.nodes| == |t.nodes| && t.bottom == s.bottom && t.finished == s.finished
    && (forall y :: 0 <= y < |s.nodes| && y != a ==> t.nodes[y] == s.nodes[y])
    && t.nodes[a].pred == s.nodes[a].pred && t.nodes[a].chain == s.nodes[a].chain
    && t.nodes[a].succ == s.nodes[a].succ && t.nodes[a].child == s.nodes[a].child
    && (forall f :: LinkFlag(f) && !f.Unregistered? ==> (f in t.nodes[a].flags <==> f in s.nodes[a].flags))
    && s.nodes[a].flags <= t.nodes[a].flags
  }

  lemma OutcomeGains(s: State, step: Step, out: seq<Message>)
    requires Enabled(s, step) && (step.DeliverMessage? || step.AcknowledgeMessage? || step.Unregister?)
    requires forall f :: f in Added(s, step) ==> !LinkFlag(f) || (f.Unregistered? && step.Unregister?)
    ensures GainsFlags(s, Outcome(s, step, out), Subject(s, step))
  {
    hide Post, Record, RecordSchedule, Complete;
  }

  lemma OtherStaysLinked(s: State, t: State, a: nat, x: nat)
    requires GainsFlags(s, t, a) && x < |s.nodes| && x != a && Linked(s, x)
    ensures Linked(t, x)
  {
    assert t.nodes[x] == s.nodes[x];
  }

  /** Nothing is linked to access `x` that a step at access `a` changes, except by its flags. */
  lemma OtherLinks(s: State, step: Step, out: seq<Message>, x: nat)
    requires LinksOk(s) && Enabled(s, step) && x < |s.nodes| && x != Subject(s, step)
    requires step.DeliverMessage? || step.AcknowledgeMessage? || step.Unregister?
    requires forall f :: f in Added(s, step) ==> !LinkFlag(f) || (f.Unregistered? && step.Unregister?)
    ensures Linked(Outcome(s, step, out), x)
  {
    hide Linked, Outcome, GainsFlags, BottomOk;
    OutcomeGains(s, step, out);
    OtherStaysLinked(s, Outcome(s, step, out), Subject(s, step), x);
  }

  lemma SubjectLinks(s: State, step: Step, out: seq<Message>, x: nat)
    requires LinksOk(s) && Enabled(s, step) && x < |s.nodes| && x == Subject(s, step)
    requires step.DeliverMessage? || step.AcknowledgeMessage? || step.Unregister?
    requires forall f :: f in Added(s, step) ==> !LinkFlag(f) || (f.Unregistered? && step.Unregister?)
    ensures Linked(Outcome(s, step, out), x)
  {
    assert Linked(s, x);
  }

  lemma DeliverLinks(s: State, step: Step, out: seq<Message>, x: nat)
    requires LinksOk(s) && Enabled(s, step) && (step.DeliverMessage? || step.AcknowledgeMessage?) && x < |s.nodes|
    requires forall f :: f in Added(s, step) ==> !LinkFlag(f)
    ensures Linked(Outcome(s, step, out), x)
  {
    if x == Subject(s, step) { SubjectLinks(s, step, out, x); } else { OtherLinks(s, step, out, x); }
  }

  lemma StartLinks(s: State, i: nat, x: nat)
    requires LinksOk(s) && Enabled(s, ScheduleSender(i)) && x < |s.nodes|
    ensures Linked(Prepare(s, ScheduleSender(i)), x)
  {
    assert Linked(s, x);
  }

  lemma UnregisterLinks(s: State, a: nat, out: seq<Message>, x: nat)
    requires LinksOk(s) && Enabled(s, Unregister(a)) && x < |s.nodes|
    ensures Linked(Outcome(s, Unregister(a), out), x)
  {
    if x == a { SubjectLinks(s, Unregister(a), out, x); } else { OtherLinks(s, Unregister(a), out, x); }
  }

  /** The last access of the chain is told that the parent is done. */
  predicate Finishes(s: State, t: State, ch: Chain, last: nat) {
    && last < |s.nodes| == |t.nodes| && t.bottom == s.bottom && t.finished == s.finished + {ch}
    && (forall y :: 0 <= y < |s.nodes| && y != last ==> t.nodes[y] == s.nodes[y])
    && t.nodes[last].pred == s.nodes[last].pred && t.nodes[last].chain == s.nodes[last].chain
    && t.nodes[last].succ == s.nodes[last].succ && t.nodes[last].child == s.nodes[last].child
    && t.nodes[last].started == s.nodes[last].started
    && t.nodes[last].flags == s.nodes[last].flags + {ParentDone}
  }

  lemma OutcomeFinishes(s: State, ch: Chain, out: seq<Message>)
    requires Enabled(s, FinishParent(ch))
    ensures Finishes(s, Outcome(s, FinishParent(ch), out), ch, s.bottom[ch])
  {
    hide Post, Record, RecordSchedule, Complete;
  }

  lemma StayLinkedAtEnd(s: State, t: State, ch: Chain, last: nat, x: nat)
    requires Finishes(s, t, ch, last) && x < |s.nodes| && Linked(s, x) && s.nodes[last].chain == ch
    requires ch in s.bottom && s.bottom[ch] == last
    requires ch.Under? ==> ch.parent < |s.nodes| && Unregistered in s.nodes[ch.parent].flags
    ensures Linked(t, x)
  {
    if x != last { assert t.nodes[x] == s.nodes[x]; }
  }

  lemma FinishLinks(s: State, ch: Chain, out: seq<Message>, x: nat)
    requires LinksOk(s) && Enabled(s, FinishParent(ch)) && x < |s.nodes|
    ensures Linked(Outcome(s, FinishParent(ch), out), x)
  {
    hide Linked, Outcome, Finishes;
    assert BottomOk(s, ch);
    OutcomeFinishes(s, ch, out);
    StayLinkedAtEnd(s, Outcome(s, FinishParent(ch), out), ch, s.bottom[ch], x);
  }

  lemma CloseLinksLast(s: State, a: nat, out: seq<Message>)
    requires LinksOk(s) && Enabled(s, CloseChain(a))
    ensures Linked(Outcome(s, CloseChain(a), out), s.bottom[Under(a)])
  {
    assert BottomOk(s, Under(a));
    assert Linked(s, s.bottom[Under(a)]);
    assert Linked(s, a);
  }

  /** The last child of `a` gets `a` as successor. */
  predicate Closes(s: State, t: State, a: nat, last: nat) {
    && last < |s.nodes| == |t.nodes| && t.bottom == s.bottom && t.finished == s.finished
    && (forall y :: 0 <= y < |s.nodes| && y != last ==> t.nodes[y] == s.nodes[y])
    && t.nodes[last].pred == s.nodes[last].pred && t.nodes[last].chain == s.nodes[last].chain
    && t.nodes[last].succ == Some(a) && t.nodes[last].child == s.nodes[last].child
    && t.nodes[last].flags == s.nodes[last].flags + {HasNext, NextIsParent}
  }

  lemma OutcomeCloses(s: State, a: nat, out: seq<Message>)
    requires Enabled(s, CloseChain(a))
    ensures Closes(s, Outcome(s, CloseChain(a), out), a, s.bottom[Under(a)])
  {
    hide Post, Record, RecordSchedule, Complete;
  }

  /** A chain that is closed for another access is not affected. */
  lemma OthersStayLinked(s: State, t: State, a: nat, last: nat, x: nat)
    requires LinksOk(s) && Closes(s, t, a, last) && x < |s.nodes| && x != last && s.nodes[last].chain == Under(a)
    requires s.nodes[last].succ.None? && Under(a) in s.bottom && s.bottom[Under(a)] == last
    ensures Linked(t, x)
  {
    assert Linked(s, x) && Linked(s, last) && t.nodes[x] == s.nodes[x];
  }

  lemma CloseLinks(s: State, a: nat, out: seq<Message>, x: nat)
    requires LinksOk(s) && Enabled(s, CloseChain(a)) && x < |s.nodes|
    ensures Linked(Outcome(s, CloseChain(a), out), x)
  {
    hide Outcome, Closes;
    var last := s.bottom[Under(a)];
    assert BottomOk(s, Under(a)) && Linked(s, last);
    if x == last {
      CloseLinksLast(s, a, out);
    } else {
      OutcomeCloses(s, a, out);
      OthersStayLinked(s, Outcome(s, CloseChain(a), out), a, last, x);
    }
  }

  /** No chain hangs below an access that does not exist yet. */
  lemma NoFutureChain(s: State)
    requires LinksOk(s)
    ensures Under(|s.nodes|) !in s.bottom
  {
    forall a | 0 <= a < |s.nodes| ensures s.nodes[a].chain != Under(|s.nodes|) {
      assert Linked(s, a);
    }
    assert BottomOk(s, Under(|s.nodes|));
  }

  lemma AppendLinksNew(s: State, ch: Chain, ty: AccessType, weak: bool, out: seq<Message>)
    requires LinksOk(s) && Enabled(s, Insert(ch, ty, weak)) && ch in s.bottom
    ensures Linked(Outcome(s, Insert(ch, ty, weak), out), |s.nodes|)
  {
    assert BottomOk(s, ch);
    assert Linked(s, s.bottom[ch]);
    NoFutureChain(s);
  }

  lemma AppendLinksLast(s: State, ch: Chain, ty: AccessType, weak: bool, out: seq<Message>)
    requires LinksOk(s) && Enabled(s, Insert(ch, ty, weak)) && ch in s.bottom
    ensures Linked(Outcome(s, Insert(ch, ty, weak), out), s.bottom[ch])
  {
    assert BottomOk(s, ch);
    assert Linked(s, s.bottom[ch]);
  }

  /** The access at the end of the chain gets the new access as successor. */
  predicate Appends(s: State, t: State, ch: Chain, last: nat) {
    var n := |s.nodes|;
    && last < n && |t.nodes| == n + 1 && t.bottom == s.bottom[ch := n] && t.finished == s.finished
    && (forall y :: 0 <= y < n && y != last ==> t.nodes[y] == s.nodes[y])
    && t.nodes[last].pred == s.nodes[last].pred && t.nodes[last].chain == s.nodes[last].chain
    && t.nodes[last].succ == Some(n) && t.nodes[last].child == s.nodes[last].child
    && t.nodes[last].flags == s.nodes[last].flags + {HasNext}
  }

  lemma OutcomeAppends(s: State, ch: Chain, ty: AccessType, weak: bool, out: seq<Message>)
    requires Enabled(s, Insert(ch, ty, weak)) && ch in s.bottom
    ensures Appends(s, Outcome(s, Insert(ch, ty, weak), out), ch, s.bottom[ch])
  {
    hide Post, Record, RecordSchedule, Complete;
  }

  lemma OthersStayInChain(s: State, t: State, ch: Chain, last: nat, x: nat)
    requires Appends(s, t, ch, last) && x < |s.nodes| && x != last && Linked(s, x) && Linked(s, last)
    requires ch in s.bottom && s.bottom[ch] == last && s.nodes[last].chain == ch && s.nodes[last].succ.None?
    requires ch.Under? ==> ch.parent < |s.nodes| && !Closed(s, ch.parent) && Unregistered !in s.nodes[ch.parent].flags
    ensures Linked(t, x)
  {
    assert t.nodes[x] == s.nodes[x];
  }

  lemma OpenEnd(s: State, ch: Chain, ty: AccessType, weak: bool)
    requires LinksOk(s) && Enabled(s, Insert(ch, ty, weak)) && ch in s.bottom
    ensures s.bottom[ch] < |s.nodes| && s.nodes[s.bottom[ch]].chain == ch && s.nodes[s.bottom[ch]].succ.None?
  {
    assert BottomOk(s, ch) && Linked(s, s.bottom[ch]);
  }

  lemma AppendLinks(s: State, ch: Chain, ty: AccessType, weak: bool, out: seq<Message>, x: nat)
    requires LinksOk(s) && Enabled(s, Insert(ch, ty, weak)) && ch in s.bottom && x <= |s.nodes|
    ensures Linked(Outcome(s, Insert(ch, ty, weak), out), x)
  {
    hide Linked, BottomOk, Outcome, Appends, Closed;
    if x == |s.nodes| {
      AppendLinksNew(s, ch, ty, weak, out);
    } else if x == s.bottom[ch] {
      AppendLinksLast(s, ch, ty, weak, out);
    } else {
      OpenEnd(s, ch, ty, weak);
      OutcomeAppends(s, ch, ty, weak, out);
      OthersStayInChain(s, Outcome(s, Insert(ch, ty, weak), out), ch, s.bottom[ch], x);
    }
  }

  lemma FirstChildLinksNew(s: State, ch: Chain, ty: AccessType, weak: bool, out: seq<Message>)
    requires LinksOk(s) && Enabled(s, Insert(ch, ty, weak)) && ch !in s.bottom && ch.Under?
    ensures Linked(Outcome(s, Insert(ch, ty, weak), out), |s.nodes|)
  {
    assert Linked(s, ch.parent);
    NoFutureChain(s);
  }

  lemma FirstChildLinksParent(s: State, ch: Chain, ty: AccessType, weak: bool, out: seq<Message>)
    requires LinksOk(s) && Enabled(s, Insert(ch, ty, weak)) && ch !in s.bottom && ch.Under?
    ensures Linked(Outcome(s, Insert(ch, ty, weak), out), ch.parent)
  {
    assert Linked(s, ch.parent);
  }

  lemma FirstChildLinks(s: State, ch: Chain, ty: AccessType, weak: bool, out: seq<Message>, x: nat)
    requires LinksOk(s) && Enabled(s, Insert(ch, ty, weak)) && ch !in s.bottom && ch.Under? && x <= |s.nodes|
    ensures Linked(Outcome(s, Insert(ch, ty, weak), out), x)
  {
    if x == |s.nodes| {
      FirstChildLinksNew(s, ch, ty, weak, out);
    } else if x == ch.parent {
      FirstChildLinksParent(s, ch, ty, weak, out);
    } else {
      assert Linked(s, x);
      assert s.nodes[x].chain != ch;
    }
  }

  lemma RootLinks(s: State, ch: Chain, ty: AccessType, weak: bool, out: seq<Message>, x: nat)
    requires LinksOk(s) && Enabled(s, Insert(ch, ty, weak)) && ch !in s.bottom && ch.Root? && x <= |s.nodes|
    ensures Linked(Outcome(s, Insert(ch, ty, weak), out), x)
  {
    NoFutureChain(s);
    if x < |s.nodes| { assert Linked(s, x); }
  }

  /** All of it together, for whatever messages the step sends. */
  lemma StepLinks(s: State, step: Step, out: seq<Message>, x: nat)
    requires LinksOk(s) && Enabled(s, step) && !step.ScheduleSender? && x < |Prepare(s, step).nodes|
    requires step.DeliverMessage? || step.AcknowledgeMessage? ==> forall f :: f in Added(s, step) ==> !LinkFlag(f)
    ensures Linked(Outcome(s, step, out), x)
  {
    match step {
      case Insert(ch, ty, weak) =>
        if ch in s.bottom {
          AppendLinks(s, ch, ty, weak, out, x);
        } else if ch.Under? {
          FirstChildLinks(s, ch, ty, weak, out, x);
        } else {
          RootLinks(s, ch, ty, weak, out, x);
        }
      case DeliverMessage(i) => DeliverLinks(s, step, out, x);
      case AcknowledgeMessage(i) => DeliverLinks(s, step, out, x);
      case CloseChain(a) => CloseLinks(s, a, out, x);
      case Unregister(a) => UnregisterLinks(s, a, out, x);
      case FinishParent(ch) => FinishLinks(s, ch, out, x);
    }
  }
}
