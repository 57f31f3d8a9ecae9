/** What the permissions mean for the tasks of a program: which access may start when, in terms of the types of the
    accesses before it and of which of them are unregistered. */
module AccessTreeProgram {
  import opened AccessFlags
  import opened DataAccess
  import opened AccessTree
  import opened AccessTreeInvariant
  import opened AccessTreeSafety
  import opened AccessTreeMeaning

  // ---------------------------------------------------------------------------------------------
  // Registration

  /** A new access of the given type is at the end of the chain, after the one that was there. */
  ghost predicate Registers(s: State, t: State, ch: Chain, ty: AccessType, weak: bool) {
    var n := |s.nodes|;
    && |t.nodes| == n + 1 && t.bottom == s.bottom[ch := n] && t.finished == s.finished
    && t.nodes[n].ty == ty && (IsWeak in t.nodes[n].flags <==> weak) && t.nodes[n].chain == ch
    && t.nodes[n].pred == (if ch in s.bottom then Some(s.bottom[ch]) else None)
    && t.nodes[n].succ.None? && t.nodes[n].child.None? && Unregistered !in t.nodes[n].flags
    && (forall b :: 0 <= b < n ==>
          && t.nodes[b].ty == s.nodes[b].ty && t.nodes[b].chain == s.nodes[b].chain
          && t.nodes[b].pred == s.nodes[b].pred
          && t.nodes[b].succ == (if ch in s.bottom && s.bottom[ch] == b then Some(n) else s.nodes[b].succ)
          && t.nodes[b].child == (if ch == Under(b) && ch !in s.bottom then Some(n) else s.nodes[b].child)
          && (Unregistered in t.nodes[b].flags <==> Unregistered in s.nodes[b].flags))
  }

  /** Registration adds an access of the type and strength that were asked for, behind the last one of its chain, and
      changes no other but that one's successor, or its parent's child. */
  lemma InsertingRegisters(s: State, ch: Chain, ty: AccessType, weak: bool)
    requires Enabled(s, Insert(ch, ty, weak))
    ensures Registers(s, Next(s, Insert(ch, ty, weak)), ch, ty, weak)
  {
    hide Emit, Out, Record, RecordSchedule, Complete;
    OutcomeRegisters(s, ch, ty, weak, Out(s, Insert(ch, ty, weak)));
  }

  lemma OutcomeRegisters(s: State, ch: Chain, ty: AccessType, weak: bool, out: seq<Message>)
    requires Enabled(s, Insert(ch, ty, weak))
    ensures Registers(s, Outcome(s, Insert(ch, ty, weak), out), ch, ty, weak)
  {
    hide Post, Record, RecordSchedule, Complete;
  }

  /** The protocol refuses no task: a chain that is not finished can be extended, below an access while its task runs
      and has not released it; an access of a running task can be unregistered, after its chain of children has been
      closed if it has one; and a chain is finished after its parent. */
  lemma NothingIsRefused(s: State, ch: Chain, ty: AccessType, weak: bool, a: nat)
    requires Reachable(s)
    ensures ch.Root? && ch !in s.finished ==> Enabled(s, Insert(ch, ty, weak))
    ensures a < |s.nodes| && s.nodes[a].started && Unregistered !in s.nodes[a].flags && !Closed(s, a) ==>
              Enabled(s, Insert(Under(a), ty, weak))
    ensures a < |s.nodes| && s.nodes[a].started && Unregistered !in s.nodes[a].flags ==>
              Enabled(s, Unregister(a)) || (HasChild in s.nodes[a].flags && Enabled(s, CloseChain(a)))
    ensures ch in s.bottom && ch !in s.finished ==>
              ch.Root? || (ch.parent < |s.nodes|
                && (Unregistered in s.nodes[ch.parent].flags ==> Enabled(s, FinishParent(ch))))
    ensures ch in s.bottom && ch !in s.finished && ch.Root? ==> Enabled(s, FinishParent(ch))
  {
    ReachableInv(s);
    assert BottomOk(s, ch);
    if ch in s.bottom { assert Linked(s, s.bottom[ch]); }
    if a < |s.nodes| {
      assert Linked(s, a) && BottomOk(s, Under(a));
      if Under(a) in s.bottom { assert Linked(s, s.bottom[Under(a)]); }
      if Unregistered !in s.nodes[a].flags { NotFinishedBelow(s, a); }
    }
  }

  /** Only chains that exist are finished. */
  lemma StepFinishes(s: State, step: Step)
    requires Enabled(s, step) && s.finished <= s.bottom.Keys
    ensures Next(s, step).finished <= Next(s, step).bottom.Keys
  {
    hide Emit, Post, Record, RecordSchedule, Complete;
  }

  lemma {:induction false} TraceFinishes(steps: seq<Step>, states: seq<State>, k: nat)
    requires Trace(steps, states) && k < |states|
    ensures states[k].finished <= states[k].bottom.Keys
  {
    hide Next, Enabled;
    if k > 0 {
      TraceFinishes(steps, states, k - 1);
      assert Took(states[k - 1], steps[k - 1], states[k]);
      StepFinishes(states[k - 1], steps[k - 1]);
    }
  }

  /** A chain is told that its parent is done only after the parent has been unregistered. */
  lemma NotFinishedBelow(s: State, a: nat)
    requires Reachable(s) && a < |s.nodes| && Unregistered !in s.nodes[a].flags
    ensures Under(a) !in s.finished
  {
    var steps: seq<Step>, states: seq<State> :| Trace(steps, states) && s == states[|steps|];
    TraceFinishes(steps, states, |steps|);
    ReachableInv(s);
    if Under(a) in s.bottom { assert BottomOk(s, Under(a)) && Linked(s, s.bottom[Under(a)]); }
  }

  // ---------------------------------------------------------------------------------------------
  // One link

  /** All accesses of the type take this permission at once: readers read, concurrents and commutatives likewise. */
  predicate Common(ty: AccessType, p: Perm) {
    || (ty.ReadAccess? && p.Read?)
    || (ty.ConcurrentAccess? && p.Concurrent?)
    || (ty.CommutativeAccess? && p.Commutative?)
  }

  /** A reader, concurrent or commutative has the permission that it asked for; nobody else needs one to be skipped. */
  predicate Granted(n: Node) {
    && (n.ty.ReadAccess? ==> Sat(Read) in n.flags)
    && (n.ty.ConcurrentAccess? ==> Sat(Concurrent) in n.flags)
    && (n.ty.CommutativeAccess? ==> Sat(Commutative) in n.flags)
  }

  /** The access does not keep the permission from those behind it. */
  predicate LetsThrough(n: Node, p: Perm) {
    Common(n.ty, p) || (Unregistered in n.flags && ChildDone(p) in n.flags && Granted(n))
  }

  /** Once no message is left: an access holds a permission exactly if its predecessor holds it and lets it through, or
      if it is a first child and its parent holds it, or if it is the first of all. The parent gets back what its last
      child holds and lets through, once the chain is closed; without children it has everything back when it is
      unregistered. */
  lemma PermissionsFlow(s: State, y: nat, p: Perm)
    requires Reachable(s) && Quiescent(s) && y < |s.nodes|
    ensures s.nodes[y].pred.Some? ==>
              var x := s.nodes[y].pred.value;
              x < y && (Sat(p) in s.nodes[y].flags <==> Sat(p) in s.nodes[x].flags && LetsThrough(s.nodes[x], p))
    ensures s.nodes[y].pred.None? && s.nodes[y].chain.Under? ==>
              var a := s.nodes[y].chain.parent; a < y && (Sat(p) in s.nodes[y].flags <==> Sat(p) in s.nodes[a].flags)
    ensures s.nodes[y].pred.None? && s.nodes[y].chain.Root? ==> Sat(p) in s.nodes[y].flags
    ensures HasChild !in s.nodes[y].flags ==> (ChildDone(p) in s.nodes[y].flags <==> Unregistered in s.nodes[y].flags)
    ensures HasChild in s.nodes[y].flags ==>
              && Under(y) in s.bottom && s.bottom[Under(y)] < |s.nodes|
              && var last := s.nodes[s.bottom[Under(y)]];
                 ChildDone(p) in s.nodes[y].flags
                 <==> NextIsParent in last.flags && Sat(p) in last.flags && LetsThrough(last, p)
  {
    ReachableInv(s);
    assert Linked(s, y) && ArrivalOk(s, y, p) && ReturnOk(s, y, p);
    if s.nodes[y].pred.Some? {
      assert Linked(s, s.nodes[y].pred.value);
      LinkFlows(s, s.nodes[y].pred.value, p);
    } else if s.nodes[y].chain.Under? {
      FirstChildHolds(s, y);
      assert Sat(p) in s.nodes[y].flags <==> p in SatSet(s.nodes[y]);
    }
    if HasChild in s.nodes[y].flags {
      assert BottomOk(s, Under(y)) && Linked(s, s.bottom[Under(y)]);
      LinkFlows(s, s.bottom[Under(y)], p);
    }
  }

  lemma LinkFlows(s: State, x: nat, p: Perm)
    requires Inv(s) && Quiescent(s) && x < |s.nodes|
    ensures Delivered(s, x, NextSat(p))
            <==> HasNext in s.nodes[x].flags && Sat(p) in s.nodes[x].flags && LetsThrough(s.nodes[x], p)
  {
    QuiescentDelivery(s, x, p);
  }

  // ---------------------------------------------------------------------------------------------
  // A whole chain

  /** The access at the front of the chain of `y` has the permission. */
  predicate Entered(s: State, y: nat, p: Perm)
    requires y < |s.nodes|
  {
    s.nodes[y].chain.Root?
    || (s.nodes[y].chain.parent < |s.nodes| && Sat(p) in s.nodes[s.nodes[y].chain.parent].flags)
  }

  /** Once no message is left, an access holds a permission if and only if the permission has entered its chain and
      every access before it in the chain lets it through. */
  lemma {:induction false} HoldsExactly(s: State, y: nat, p: Perm)
    requires Reachable(s) && Quiescent(s) && y < |s.nodes|
    ensures Sat(p) in s.nodes[y].flags
            <==> && Entered(s, y, p)
                 && forall x: nat :: x < |s.nodes| && ChainBefore(s, x, y) ==> LetsThrough(s.nodes[x], p)
    decreases y
  {
    PermissionsFlow(s, y, p);
    if s.nodes[y].pred.Some? {
      var w := s.nodes[y].pred.value;
      SameChain(s, y);
      HoldsExactly(s, w, p);
      assert ChainBefore(s, w, y);
      forall x: nat ensures ChainBefore(s, x, y) <==> x == w || ChainBefore(s, x, w) {}
    }
  }

  lemma SameChain(s: State, y: nat)
    requires Reachable(s) && y < |s.nodes| && s.nodes[y].pred.Some?
    ensures s.nodes[y].pred.value < y && s.nodes[s.nodes[y].pred.value].chain == s.nodes[y].chain
  {
    ReachableInv(s);
    assert Linked(s, y);
  }

  /** Readers, concurrents or commutatives that follow each other in a chain hold their permission together: whoever
      registers behind one that holds it holds it too, whether or not that one has been unregistered. */
  lemma {:induction false} SharersRunTogether(s: State, x: nat, y: nat, p: Perm)
    requires Reachable(s) && Quiescent(s) && ChainBefore(s, x, y) && x < |s.nodes|
    requires Common(s.nodes[x].ty, p) && Sat(p) in s.nodes[x].flags
    requires forall z: nat :: z < |s.nodes| && ChainBefore(s, x, z) && ChainBefore(s, z, y) ==> Common(s.nodes[z].ty, p)
    ensures Sat(p) in s.nodes[y].flags
    decreases y
  {
    var w := s.nodes[y].pred.value;
    PermissionsFlow(s, y, p);
    if w != x {
      assert ChainBefore(s, w, y);
      forall z: nat | z < |s.nodes| && ChainBefore(s, x, z) && ChainBefore(s, z, w) ensures Common(s.nodes[z].ty, p) {
        assert ChainBefore(s, z, y);
      }
      SharersRunTogether(s, x, w, p);
    }
  }

  // ---------------------------------------------------------------------------------------------
  // When a task starts

  /** The permission that the task of an access waits for. */
  predicate Wants(ty: AccessType, p: Perm) {
    match ty
    case ReadAccess => p.Read?
    case ConcurrentAccess => p.Concurrent?
    case CommutativeAccess => p.Commutative?
    case _ => p.Write?
  }

  /** Two accesses to one address that may be in use at once. */
  predicate MayOverlap(t: AccessType, u: AccessType) {
    || (t.ReadAccess? && u.ReadAccess?)
    || (t.ConcurrentAccess? && u.ConcurrentAccess?)
    || (t.CommutativeAccess? && u.CommutativeAccess?)
  }

  /** Once no message is left, a task no longer waits for an access if and only if the access is weak, or a reduction,
      or the permission that it wants has entered the chain and all accesses before it let that through. */
  lemma StartsExactly(s: State, y: nat, p: Perm)
    requires Reachable(s) && Quiescent(s) && y < |s.nodes| && Wants(s.nodes[y].ty, p)
    ensures s.nodes[y].started
            <==> || IsWeak in s.nodes[y].flags || s.nodes[y].ty.ReductionAccess?
                 || (Entered(s, y, p)
                     && forall x: nat :: x < |s.nodes| && ChainBefore(s, x, y) ==> LetsThrough(s.nodes[x], p))
  {
    ReachableInv(s);
    assert ScheduleOk(s, y);
    HoldsExactly(s, y, p);
  }

  /** In a chain without weak and without nested accesses: once no message is left, a task no longer waits for an access
      if and only if each access before it has been unregistered or may be in use together with it. So no task waits
      longer than its conflicts require. */
  lemma StartsWhenClear(s: State, y: nat)
    requires Reachable(s) && Quiescent(s) && y < |s.nodes| && s.nodes[y].chain.Root?
    requires IsWeak !in s.nodes[y].flags && !s.nodes[y].ty.ReductionAccess?
    requires forall x: nat :: x < |s.nodes| && ChainBefore(s, x, y) ==>
               IsWeak !in s.nodes[x].flags && HasChild !in s.nodes[x].flags
    ensures s.nodes[y].started
            <==> forall x: nat :: x < |s.nodes| && ChainBefore(s, x, y) ==>
                   Unregistered in s.nodes[x].flags || MayOverlap(s.nodes[x].ty, s.nodes[y].ty)
  {
    var p :| Wants(s.nodes[y].ty, p);
    StartsExactly(s, y, p);
    forall x: nat | x < |s.nodes| && ChainBefore(s, x, y)
      ensures LetsThrough(s.nodes[x], p)
              <==> Unregistered in s.nodes[x].flags || MayOverlap(s.nodes[x].ty, s.nodes[y].ty)
    {
      PlainLetsThrough(s, x, p);
    }
  }

  lemma PlainLetsThrough(s: State, x: nat, p: Perm)
    requires Reachable(s) && x < |s.nodes| && IsWeak !in s.nodes[x].flags && HasChild !in s.nodes[x].flags
    ensures LetsThrough(s.nodes[x], p) <==> Unregistered in s.nodes[x].flags || Common(s.nodes[x].ty, p)
  {
    ReachableInv(s);
    assert Linked(s, x) && ScheduleOk(s, x) && ReturnOk(s, x, p);
  }
}
