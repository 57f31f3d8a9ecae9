/** Where a thread can be that started at some access and follows messages: at accesses that come later, inside it, or
    back at its ancestors. So write permission leaves such a place only after it has been at the start. */
module ReductionOrder {
  import opened AccessFlags
  import opened DataAccess
  import opened AccessTree
  import opened AccessTreeSteps
  import opened AccessTreeInvariant
  import opened AccessTreeSafety

  /** `x` comes after `a`, or is `a`, or lies below it. */
  ghost predicate AtOrAfter(s: State, a: nat, x: nat) {
    Precedes(s, a, x) || InSubtree(s, x, a)
  }

  /** A message from `x` may belong to a thread that started at `a`: at an ancestor of `a` it does not go down. */
  ghost predicate MayFollow(s: State, a: nat, x: nat, down: bool) {
    AtOrAfter(s, a, x) || (!down && InSubtree(s, a, x))
  }

  predicate GoesDown(m: Message) {
    exists p: Perm :: ChildSat(p) in m.flagsAfter
  }

  // ---------------------------------------------------------------------------------------------
  // Moves

  lemma {:induction false} InSubtreeTrans(s: State, a: nat, b: nat, c: nat)
    requires InSubtree(s, a, b) && InSubtree(s, b, c)
    ensures InSubtree(s, a, c)
    decreases a
  {
    if a != b { InSubtreeTrans(s, s.nodes[a].chain.parent, b, c); }
  }

  /** The next sibling of `x` lies below whatever `x` lies below, other than itself. */
  lemma SiblingBelow(s: State, x: nat, z: nat, v: nat)
    requires x < |s.nodes| && z < |s.nodes| && s.nodes[z].chain == s.nodes[x].chain && InSubtree(s, x, v) && x != v
    requires s.nodes[z].chain.Under? ==> s.nodes[z].chain.parent < z
    ensures InSubtree(s, z, v)
  {
  }

  lemma MoveNext(s: State, a: nat, x: nat, z: nat)
    requires Inv(s) && a < |s.nodes| && z < |s.nodes| && s.nodes[z].pred == Some(x) && MayFollow(s, a, x, false)
    ensures AtOrAfter(s, a, z)
  {
    assert Linked(s, z);
    assert ChainBefore(s, x, z) && InSubtree(s, z, z);
    if InSubtree(s, a, x) {
      assert Precedes(s, a, z);
    } else if Precedes(s, a, x) {
      var u: nat, v: nat :| ChainBefore(s, u, v) && InSubtree(s, a, u) && InSubtree(s, x, v);
      if x == v {
        assert ChainBefore(s, u, z);
      } else {
        SiblingBelow(s, x, z, v);
      }
      assert Precedes(s, a, z);
    } else {
      SiblingBelow(s, x, z, a);
    }
  }

  lemma MoveDown(s: State, a: nat, x: nat, z: nat)
    requires Inv(s) && a < |s.nodes| && z < |s.nodes| && s.nodes[z].chain == Under(x) && AtOrAfter(s, a, x)
    ensures AtOrAfter(s, a, z)
  {
    assert Linked(s, z);
    assert InSubtree(s, z, x);
    if Precedes(s, a, x) {
      var u: nat, v: nat :| ChainBefore(s, u, v) && InSubtree(s, a, u) && InSubtree(s, x, v);
      InSubtreeTrans(s, z, x, v);
      assert Precedes(s, a, z);
    } else {
      InSubtreeTrans(s, z, x, a);
    }
  }

  lemma {:induction false} SameChain(s: State, u: nat, v: nat)
    requires Inv(s) && ChainBefore(s, u, v)
    ensures u < |s.nodes| && s.nodes[u].chain == s.nodes[v].chain
    decreases v
  {
    assert Linked(s, v);
    if s.nodes[v].pred.value != u { SameChain(s, u, s.nodes[v].pred.value); }
  }

  lemma MoveUp(s: State, a: nat, x: nat, z: nat)
    requires Inv(s) && a < |s.nodes| && x < |s.nodes| && s.nodes[x].chain == Under(z) && MayFollow(s, a, x, false)
    ensures MayFollow(s, a, z, false)
  {
    assert Linked(s, x);
    assert InSubtree(s, x, z);
    if InSubtree(s, a, x) {
      InSubtreeTrans(s, a, x, z);
    } else if Precedes(s, a, x) {
      var u: nat, v: nat :| ChainBefore(s, u, v) && InSubtree(s, a, u) && InSubtree(s, x, v);
      if x == v {
        SameChain(s, u, v);
        assert Linked(s, u) && InSubtree(s, u, z);
        InSubtreeTrans(s, a, u, z);
      } else {
        assert Precedes(s, a, z);
      }
    }
  }

  // ---------------------------------------------------------------------------------------------
  // Write permission

  /** Write permission that leaves a place after `a` has been at `a`. */
  lemma LeavesAfterStart(s: State, a: nat, x: nat)
    requires Inv(s) && a < |s.nodes| && x < |s.nodes| && Sat(Write) in s.nodes[x].flags
    requires AtOrAfter(s, a, x) || (InSubtree(s, a, x) && Passed(s, x, Write))
    ensures Sat(Write) in s.nodes[a].flags
  {
    if Precedes(s, a, x) {
      var u: nat, v: nat :| ChainBefore(s, u, v) && InSubtree(s, a, u) && InSubtree(s, x, v);
      AncestorSatisfied(s, x, v, Write);
      EarlierPassed(s, u, v, Write);
      BelowPassed(s, a, u);
    } else if InSubtree(s, x, a) {
      AncestorSatisfied(s, x, a, Write);
    } else {
      BelowPassed(s, a, x);
    }
  }

  lemma BelowPassed(s: State, a: nat, x: nat)
    requires Inv(s) && InSubtree(s, a, x) && x < |s.nodes| && Passed(s, x, Write)
    ensures Passed(s, a, Write) && Sat(Write) in s.nodes[a].flags
  {
    if a != x { WriteIsNotShared(s, s.nodes[a].chain.parent, x); }
    SubtreePassed(s, a, x, Write);
    assert Sat(Write) in NextCondition(s.nodes[a].ty, Write);
  }

  /** Where write permission comes from: the predecessor, or the parent access of a first child. */
  function FlowPred(n: Node): Option<nat> {
    if n.pred.Some? then n.pred else if n.chain.Under? then Some(n.chain.parent) else None
  }

  lemma HeldBefore(s: State, x: nat)
    requires Inv(s) && x < |s.nodes| && Sat(Write) in s.nodes[x].flags && FlowPred(s.nodes[x]).Some?
    ensures var w := FlowPred(s.nodes[x]).value; w < x && w < |s.nodes| && Sat(Write) in s.nodes[w].flags
  {
    assert Linked(s, x);
    if s.nodes[x].pred.Some? { PredecessorPassed(s, x, Write); } else { ChildSatisfiedAfterParent(s, x, Write); }
  }

  predicate CarriesWrite(m: Message) {
    NextSat(Write) in m.flagsAfter || ChildSat(Write) in m.flagsAfter
  }

  /** A message that brings write permission comes from where write permission comes from. */
  lemma WriteComesFrom(s: State, i: nat)
    requires Inv(s) && Enabled(s, DeliverMessage(i)) && Sat(Write) in s.sent[i].msg.flagsForNext
    ensures var m := s.sent[i].msg; var c := m.to.value;
            && m.from < |s.nodes| && FlowPred(s.nodes[c]) == Some(m.from) && CarriesWrite(m)
            && Sat(Write) !in s.nodes[c].flags && Sat(Write) in s.nodes[m.from].flags
  {
    var m := s.sent[i].msg;
    assert MessageOk(s, i) && Linked(s, m.from);
    PendingIsMissing(s, i, Sat(Write));
    assert Linked(s, m.to.value);
    if ChildSat(Write) in m.flagsAfter {
      assert TokenOk(s, m.from, ChildSat(Write));
      assert Sat(Write) in ChildCondition(Write);
    } else {
      assert TokenOk(s, m.from, NextSat(Write));
      assert Sat(Write) in NextCondition(s.nodes[m.from].ty, Write);
    }
  }

  /** The sender of a message that carries write permission has held it, and if the message goes on, has let it pass. */
  lemma CarrierHolds(s: State, i: nat)
    requires Inv(s) && i < |s.sent| && CarriesWrite(s.sent[i].msg)
    ensures s.sent[i].msg.from < |s.nodes| && Sat(Write) in s.nodes[s.sent[i].msg.from].flags
    ensures ChildSat(Write) !in s.sent[i].msg.flagsAfter ==> Passed(s, s.sent[i].msg.from, Write)
  {
    var m := s.sent[i].msg;
    assert MessageOk(s, i);
    if ChildSat(Write) in m.flagsAfter {
      assert TokenOk(s, m.from, ChildSat(Write));
      assert Sat(Write) in ChildCondition(Write);
    } else {
      assert TokenOk(s, m.from, NextSat(Write));
      assert Sat(Write) in NextCondition(s.nodes[m.from].ty, Write);
    }
  }

  /** A thread that carries write permission out of somewhere after its start: write permission has been there. */
  lemma CarrierPassedStart(s: State, i: nat, a: nat)
    requires Inv(s) && i < |s.sent| && CarriesWrite(s.sent[i].msg) && a < |s.nodes|
    requires MayFollow(s, a, s.sent[i].msg.from, GoesDown(s.sent[i].msg))
    ensures Sat(Write) in s.nodes[a].flags
  {
    CarrierHolds(s, i);
    LeavesAfterStart(s, a, s.sent[i].msg.from);
  }

  /** After a delivery, the thread is still where it may be, and so are the messages that follow. */
  lemma DeliveryFollows(s: State, i: nat, a: nat, k: nat)
    requires Inv(s) && Enabled(s, DeliverMessage(i)) && a < |s.nodes|
    requires s.sent[i].msg.from < |s.nodes| && MayFollow(s, a, s.sent[i].msg.from, GoesDown(s.sent[i].msg))
    requires k < |Out(s, DeliverMessage(i))|
    ensures MayFollow(s, a, s.sent[i].msg.to.value, GoesDown(Out(s, DeliverMessage(i))[k]))
  {
    var m := s.sent[i].msg;
    var x, z := m.from, m.to.value;
    assert MessageOk(s, i) && Linked(s, x) && Linked(s, z);
    var g :| g in m.flagsForNext;
    if GoesDown(m) {
      var p :| ChildSat(p) in m.flagsAfter;
      assert TokenOk(s, x, ChildSat(p));
      MoveDown(s, a, x, z);
    } else if NextIsParent in s.nodes[x].flags {
      MoveUp(s, a, x, z);
      UpwardStaysUp(s, i, k);
    } else {
      MoveNext(s, a, x, z);
    }
  }

  /** What comes back from the children is not sent down again. */
  lemma UpwardStaysUp(s: State, i: nat, k: nat)
    requires Inv(s) && Enabled(s, DeliverMessage(i)) && s.sent[i].msg.from < |s.nodes|
    requires !GoesDown(s.sent[i].msg) && NextIsParent in s.nodes[s.sent[i].msg.from].flags
    requires k < |Out(s, DeliverMessage(i))|
    ensures !GoesDown(Out(s, DeliverMessage(i))[k])
  {
    var n, added := s.nodes[s.sent[i].msg.to.value], s.sent[i].msg.flagsForNext;
    assert MessageOk(s, i);
    assert HasChild !in added && forall p :: Sat(p) !in added;
    NoChildPerms(n.flags, added);
    OutgoingStaysUp(Subject(s, DeliverMessage(i)), TwoWay(n.ty), NextPerms(n.ty, n.flags, added),
        Schedules(n.ty, n.flags, added),
                    Combines(n.ty, added), NextIsParent in n.flags + added, n.succ, n.child, k);
  }

  lemma OutgoingStaysUp(self: nat, twoWay: bool, ns: set<Perm>, schedule: bool, combine: bool, upward: bool,
      succ: Option<nat>,
      child: Option<nat>, k: nat)
    requires k < |Outgoing(self, twoWay, {}, ns, schedule, combine, upward, succ, child)|
    ensures !GoesDown(Outgoing(self, twoWay, {}, ns, schedule, combine, upward, succ, child)[k])
  {
  }

  // ---------------------------------------------------------------------------------------------
  // The order never changes

  predicate SameLinks(s: State, t: State) {
    |s.nodes| <= |t.nodes| && forall a :: 0 <= a < |s.nodes| ==>
        t.nodes[a].pred == s.nodes[a].pred && t.nodes[a].chain == s.nodes[a].chain
  }

  lemma {:induction false} ChainBeforeKept(s: State, t: State, x: nat, y: nat)
    requires SameLinks(s, t) && ChainBefore(s, x, y)
    ensures ChainBefore(t, x, y)
    decreases y
  {
    if s.nodes[y].pred.value != x { ChainBeforeKept(s, t, x, s.nodes[y].pred.value); }
  }

  lemma {:induction false} InSubtreeKept(s: State, t: State, a: nat, x: nat)
    requires SameLinks(s, t) && InSubtree(s, a, x)
    ensures InSubtree(t, a, x)
    decreases a
  {
    if a != x { InSubtreeKept(s, t, s.nodes[a].chain.parent, x); }
  }

  lemma PrecedesKept(s: State, t: State, a: nat, b: nat)
    requires SameLinks(s, t) && Precedes(s, a, b)
    ensures Precedes(t, a, b)
  {
    var x: nat, y: nat :| ChainBefore(s, x, y) && InSubtree(s, a, x) && InSubtree(s, b, y);
    ChainBeforeKept(s, t, x, y);
    InSubtreeKept(s, t, a, x);
    InSubtreeKept(s, t, b, y);
  }

  lemma MayFollowKept(s: State, t: State, a: nat, x: nat, down: bool)
    requires SameLinks(s, t) && MayFollow(s, a, x, down)
    ensures MayFollow(t, a, x, down)
  {
    if Precedes(s, a, x) {
      PrecedesKept(s, t, a, x);
    } else if InSubtree(s, x, a) {
      InSubtreeKept(s, t, x, a);
    } else {
      InSubtreeKept(s, t, a, x);
    }
  }
}
