/** Every step keeps the reductions, their counters and what the calls remember consistent. */
module ReductionInvariant {
  import opened AccessFlags
  import opened DataAccess
  import Tree = AccessTree
  import TreeLinks = AccessTreeLinks
  import TreeSteps = AccessTreeSteps
  import TreeTokens = AccessTreeTokens
  import TreeInvariant = AccessTreeInvariant
  import opened ReductionOrder
  import opened ReductionInfo

  // ---------------------------------------------------------------------------------------------
  // The tree

  /** Accesses and messages stay, and flags are only added. */
  predicate Grows(t: Tree.State, u: Tree.State) {
    && SameLinks(t, u) && |t.sent| <= |u.sent|
    && (forall x :: 0 <= x < |t.nodes| ==> u.nodes[x].ty == t.nodes[x].ty && t.nodes[x].flags <= u.nodes[x].flags)
    && (forall i :: 0 <= i < |t.sent| ==> u.sent[i].msg == t.sent[i].msg)
  }

  /** What a step of the tree does to the accesses, apart from a new one. */
  ghost predicate Moves(s: State, step: Step, t: Tree.State) {
    && Grows(s.tree, t) && Tree.Inv(t)
    && (forall x: nat :: x < |s.tree.nodes| && step != Unregister(x) ==> SameRegistration(s.tree, t, x))
    && (!step.Insert? ==> |t.nodes| == |s.tree.nodes| && t.bottom == s.tree.bottom)
    && (TreeStep(s, step).None? ==> t == s.tree)
    && (!MaySend(step) ==> |t.sent| == |s.tree.sent|)
  }

  predicate MaySend(step: Step) {
    step.Insert? || step.CloseChain? || step.Unregister? || step.Deliver?
  }

  predicate SameRegistration(t: Tree.State, u: Tree.State, x: nat) {
    x < |t.nodes| && x < |u.nodes| && (Unregistered in u.nodes[x].flags <==> Unregistered in t.nodes[x].flags)
  }

  lemma TreeNodeGrows(t: Tree.State, step: Tree.Step, x: nat)
    requires Tree.Enabled(t, step) && x < |t.nodes|
    ensures x < |Tree.Next(t, step).nodes|
    ensures var u := Tree.Next(t, step);
            && u.nodes[x].pred == t.nodes[x].pred && u.nodes[x].chain == t.nodes[x].chain
            && u.nodes[x].ty == t.nodes[x].ty && t.nodes[x].flags <= u.nodes[x].flags
  {
    TreeInvariant.StepNode(t, step, x);
  }

  lemma TreeSentGrows(t: Tree.State, step: Tree.Step)
    requires Tree.Enabled(t, step)
    ensures var u := Tree.Next(t, step);
            && |t.sent| <= |u.sent| && (forall i :: 0 <= i < |t.sent| ==> u.sent[i].msg == t.sent[i].msg)
            && |t.nodes| <= |u.nodes| && (!step.Insert? ==> |u.nodes| == |t.nodes| && u.bottom == t.bottom)
            && (!Tree.RunsAutomaton(step) ==> |u.sent| == |t.sent|)
  {
  }

  lemma TreeGrows(t: Tree.State, step: Tree.Step)
    requires Tree.Enabled(t, step)
    ensures Grows(t, Tree.Next(t, step))
  {
    TreeSentGrows(t, step);
    forall x: nat | x < |t.nodes|
      ensures var u := Tree.Next(t, step);
              && u.nodes[x].pred == t.nodes[x].pred && u.nodes[x].chain == t.nodes[x].chain
              && u.nodes[x].ty == t.nodes[x].ty && t.nodes[x].flags <= u.nodes[x].flags
    {
      TreeNodeGrows(t, step, x);
    }
  }

  /** Only unregistration unregisters. */
  lemma StaysRegistered(t: Tree.State, step: Tree.Step, x: nat)
    requires Tree.Inv(t) && Tree.Enabled(t, step) && x < |t.nodes| && step != Tree.Unregister(x)
    ensures SameRegistration(t, Tree.Next(t, step), x)
  {
    TreeInvariant.StepNode(t, step, x);
    TreeInvariant.AddedKinds(t, step);
  }

  lemma StepMoves(s: State, step: Step)
    requires Inv(s) && Enabled(s, step)
    ensures Moves(s, step, TreeAfter(s, step))
  {
    hide Tree.Next, Tree.Inv, Tree.Enabled, Structure, Counters, Mail, Memory;
    var t := TreeAfter(s, step);
    if TreeStep(s, step).Some? {
      var ts := TreeStep(s, step).value;
      TreeGrows(s.tree, ts);
      TreeSentGrows(s.tree, ts);
      TreeInvariant.StepInv(s.tree, ts);
      forall x: nat | x < |s.tree.nodes| && step != Unregister(x) ensures SameRegistration(s.tree, t, x) {
        StaysRegistered(s.tree, ts, x);
      }
    }
  }

  // ---------------------------------------------------------------------------------------------
  // Reductions and the tree

  /** The same accesses, reductions and open reductions; participants may be released. */
  ghost predicate Quiet(s: State, s': State) {
    && Sized(s) && Sized(s') && Grows(s.tree, s'.tree) && |s'.tree.nodes| == |s.tree.nodes|
       && s'.tree.bottom == s.tree.bottom
    && s'.red == s.red && |s'.reds| == |s.reds|
    && (forall r :: 0 <= r < |s.reds| ==> s'.reds[r].first == s.reds[r].first)
    && (forall x :: 0 <= x < |s.red| && s'.registered[x] ==> s.registered[x] && Unregistered !in s'.tree.nodes[x].flags)
  }

  lemma QuietStructure(s: State, s': State)
    requires Structure(s) && Quiet(s, s') && s'.entry == s.entry
    ensures Structure(s')
  {
    forall x | 0 <= x < |s'.red| ensures StructOk(s', x) { assert StructOk(s, x); }
    forall r | 0 <= r < |s'.reds| ensures FirstOk(s', r) { assert FirstOk(s, r); }
    forall ch ensures EntryOk(s', ch) {
      assert EntryOk(s, ch);
      if ch in s.entry { assert FirstOk(s, s.entry[ch]); }
    }
  }

  lemma StepIsQuiet(s: State, step: Step, t: Tree.State)
    requires Inv(s) && Ready(s, step) && Moves(s, step, t) && !step.Insert?
    ensures Quiet(s, Apply(s, step, t))
  {
    hide Tree.Inv, Counters, Mail, Memory;
    var s' := Apply(s, step, t);
    forall x: nat | x < |s.red| && s'.registered[x] ensures s.registered[x] && Unregistered !in t.nodes[x].flags {
      assert StructOk(s, x);
      if step != Unregister(x) { assert SameRegistration(s.tree, t, x); }
    }
  }

  lemma DetachStructure(s: State, ch: Tree.Chain)
    requires Inv(s) && Ready(s, Detach(ch))
    ensures Structure(Apply(s, Detach(ch), s.tree))
  {
    var s' := Apply(s, Detach(ch), s.tree);
    forall x | 0 <= x < |s'.red| ensures StructOk(s', x) { assert StructOk(s, x); }
    forall r | 0 <= r < |s'.reds| ensures FirstOk(s', r) { assert FirstOk(s, r); }
    forall c ensures EntryOk(s', c) { assert EntryOk(s, c); }
  }

  // Insertion

  /** What registration does to the tree: a new access at the end of the chain. */
  lemma Inserted(t: Tree.State, ch: Tree.Chain, ty: AccessType, weak: bool)
    requires Tree.Inv(t) && Tree.Enabled(t, Tree.Insert(ch, ty, weak))
    ensures NewNode(t, Tree.Next(t, Tree.Insert(ch, ty, weak)), ch, ty.ReductionAccess?)
  {
    hide Emit, Tree.Linked, Tree.TokenOk, Tree.MessageOk, Tree.ArrivalOk, Tree.ReturnOk;
    assert Tree.BottomOk(t, ch);
    TreeLinks.NoFutureChain(t);
  }

  /** The reduction of the new access. */
  lemma JoinedKinds(s: State, ch: Tree.Chain, ty: AccessType, weak: bool, same: bool)
    requires Inv(s) && Ready(s, Insert(ch, ty, weak, same))
    ensures var red := Joined(s, ch, ty, same);
            && (red.Some? <==> ty.ReductionAccess?)
            && (red.Some? ==> red.value == |s.reds| || red == Prior(s, ch, ty))
            && (Inner(s, ch) ==> red == s.red[ch.parent])
            && (Prior(s, ch, ty).Some? ==> Prior(s, ch, ty).value < |s.reds|)
            && (red.Some? && red.value < |s.reds| && ch !in s.tree.bottom ==> Inner(s, ch) && red == s.red[ch.parent])
            && (red.Some? && red.value < |s.reds| && ch in s.tree.bottom ==>
                  s.tree.bottom[ch] < |s.red| && red == s.red[s.tree.bottom[ch]] && Opened(s, ch) == red)
  {
    assert EntryOk(s, ch);
    if Inner(s, ch) && ch in s.tree.bottom {
      assert Tree.BottomOk(s.tree, ch);
      assert StructOk(s, s.tree.bottom[ch]);
    }
  }

  /** The new state after registration at the end of `ch`, with the new access in the reduction `red`. */
  ghost predicate Inserts(s: State, s': State, ch: Tree.Chain, red: Option<nat>) {
    && Sized(s) && Sized(s') && |s'.red| == |s.red| + 1
    && (forall x :: 0 <= x < |s.red| ==> SameAccess(s, s', x))
    && s'.red[|s.red|] == red && s'.registered[|s.red|] == red.Some?
    && NewNode(s.tree, s'.tree, ch, red.Some?)
    && s'.entry == (if red.Some? then s.entry[ch := red.value] else s.entry - {ch})
    && |s'.reds| == |s.reds| + (if red == Some(|s.reds|) then 1 else 0)
    && (forall r :: 0 <= r < |s.reds| ==> s'.reds[r].first == s.reds[r].first)
    && (red == Some(|s.reds|) ==> s'.reds[|s.reds|].first == |s.red|)
    && (Inner(s, ch) ==> red == s.red[ch.parent] && s.registered[ch.parent])
    && (red.Some? && red.value < |s.reds| ==> Continues(s, ch, red))
  }

  predicate SameAccess(s: State, s': State, x: nat)
    requires Sized(s) && Sized(s') && x < |s.red| && x < |s'.red|
  {
    && s'.red[x] == s.red[x] && s'.registered[x] == s.registered[x]
    && s'.tree.nodes[x].ty == s.tree.nodes[x].ty && s'.tree.nodes[x].chain == s.tree.nodes[x].chain
    && s'.tree.nodes[x].pred == s.tree.nodes[x].pred
    && (Unregistered in s'.tree.nodes[x].flags <==> Unregistered in s.tree.nodes[x].flags)
  }

  predicate NewNode(t: Tree.State, u: Tree.State, ch: Tree.Chain, reduction: bool) {
    var n := |t.nodes|;
    && |u.nodes| == n + 1 && u.bottom == t.bottom[ch := n]
    && u.nodes[n].ty.ReductionAccess? == reduction && u.nodes[n].chain == ch && Unregistered !in u.nodes[n].flags
    && u.nodes[n].pred == (if ch in t.bottom then Some(t.bottom[ch]) else None)
    && (ch in t.bottom ==> t.bottom[ch] < n) && (ch.Under? ==> ch.parent < n) && Tree.Under(n) !in t.bottom
  }

  /** A reduction that is joined is that of the access before, and open, or that of the parent access. */
  predicate Continues(s: State, ch: Tree.Chain, red: Option<nat>)
    requires Sized(s)
  {
    if ch in s.tree.bottom then s.tree.bottom[ch] < |s.red| && s.red[s.tree.bottom[ch]] == red && Opened(s, ch) == red
    else Inner(s, ch) && s.red[ch.parent] == red
  }

  lemma InsertSized(s: State, ch: Tree.Chain, ty: AccessType, weak: bool, same: bool, t: Tree.State)
    requires Inv(s) && Ready(s, Insert(ch, ty, weak, same)) && Grows(s.tree, t)
    requires NewNode(s.tree, t, ch, ty.ReductionAccess?)
    ensures var s' := Apply(s, Insert(ch, ty, weak, same), t);
            && Sized(s') && s'.red == s.red + [Joined(s, ch, ty, same)]
            && s'.registered == s.registered + [Joined(s, ch, ty, same).Some?] && s'.tree == t
  {
    JoinedKinds(s, ch, ty, weak, same);
  }

  lemma InsertInserts(s: State, ch: Tree.Chain, ty: AccessType, weak: bool, same: bool, t: Tree.State)
    requires Inv(s) && Ready(s, Insert(ch, ty, weak, same)) && Moves(s, Insert(ch, ty, weak, same), t)
    requires NewNode(s.tree, t, ch, ty.ReductionAccess?)
    ensures Inserts(s, Apply(s, Insert(ch, ty, weak, same), t), ch, Joined(s, ch, ty, same))
  {
    var step := Insert(ch, ty, weak, same);
    var s' := Apply(s, step, t);
    InsertSized(s, ch, ty, weak, same, t);
    JoinedKinds(s, ch, ty, weak, same);
    forall x: nat | x < |s.red| ensures SameAccess(s, s', x) {
      assert SameRegistration(s.tree, t, x);
    }
  }

  /** What hangs below a participant stays what it is. */
  lemma InnerSame(s: State, s': State, ch: Tree.Chain, red: Option<nat>, c: Tree.Chain)
    requires Inserts(s, s', ch, red) && c != Tree.Under(|s.red|)
    ensures Inner(s', c) <==> Inner(s, c)
    ensures Inner(s, c) ==> s'.red[c.parent] == s.red[c.parent]
  {
    if c.Under? && c.parent < |s.red| { assert SameAccess(s, s', c.parent); }
  }

  lemma InsertStruct(s: State, s': State, ch: Tree.Chain, red: Option<nat>, x: nat)
    requires Inv(s) && Inserts(s, s', ch, red) && x < |s'.red|
    ensures StructOk(s', x)
  {
    hide Counters, Mail, Memory;
    var w := FlowPred(s'.tree.nodes[x]);
    if w.Some? && w.value < |s.red| { assert SameAccess(s, s', w.value); }
    if x < |s.red| {
      assert StructOk(s, x) && SameAccess(s, s', x);
      assert Tree.Linked(s.tree, x);
      InnerSame(s, s', ch, red, s.tree.nodes[x].chain);
    } else {
      InnerSame(s, s', ch, red, ch);
    }
  }

  lemma InsertFirst(s: State, s': State, ch: Tree.Chain, red: Option<nat>, r: nat)
    requires Inv(s) && Inserts(s, s', ch, red) && r < |s'.reds|
    ensures FirstOk(s', r)
  {
    if r < |s.reds| {
      var x := s.reds[r].first;
      assert FirstOk(s, r) && SameAccess(s, s', x);
      assert Tree.Linked(s.tree, x);
      InnerSame(s, s', ch, red, s.tree.nodes[x].chain);
    } else {
      InnerSame(s, s', ch, red, ch);
    }
  }

  lemma InsertEntry(s: State, s': State, ch: Tree.Chain, red: Option<nat>, c: Tree.Chain)
    requires Inv(s) && Inserts(s, s', ch, red)
    ensures EntryOk(s', c)
  {
    assert EntryOk(s, c);
    if c == Tree.Under(|s.red|) {
      assert c !in s'.tree.bottom && c !in s.entry;
    } else {
      InnerSame(s, s', ch, red, c);
      if c in s'.entry { HomeKept(s, s', ch, red, s'.entry[c]); }
      if c != ch && c in s.entry { assert SameAccess(s, s', s.tree.bottom[c]); }
    }
  }

  lemma HomeKept(s: State, s': State, ch: Tree.Chain, red: Option<nat>, r: nat)
    requires Inv(s) && Inserts(s, s', ch, red) && r < |s'.reds|
    ensures Home(s', r) == if r < |s.reds| then Home(s, r) else ch
  {
    if r < |s.reds| {
      assert FirstOk(s, r) && SameAccess(s, s', s.reds[r].first);
    }
  }

  lemma InsertStructure(s: State, s': State, ch: Tree.Chain, red: Option<nat>)
    requires Inv(s) && Inserts(s, s', ch, red)
    ensures Structure(s')
  {
    forall x | 0 <= x < |s'.red| ensures StructOk(s', x) { InsertStruct(s, s', ch, red, x); }
    forall r | 0 <= r < |s'.reds| ensures FirstOk(s', r) { InsertFirst(s, s', ch, red, r); }
    forall c ensures EntryOk(s', c) { InsertEntry(s, s', ch, red, c); }
  }

  /** What a step may rely on: the tree moves as it may, and a new access is where it belongs. */
  ghost predicate Stepped(s: State, step: Step, t: Tree.State) {
    && Inv(s) && Ready(s, step) && Moves(s, step, t)
    && (step.Insert? ==> NewNode(s.tree, t, step.chain, step.ty.ReductionAccess?))
  }

  lemma StepStepped(s: State, step: Step)
    requires Inv(s) && Enabled(s, step)
    ensures Stepped(s, step, TreeAfter(s, step))
  {
    StepMoves(s, step);
    if step.Insert? { Inserted(s.tree, step.chain, step.ty, step.weak); }
  }

  lemma StepStructure(s: State, step: Step, t: Tree.State)
    requires Stepped(s, step, t)
    ensures Structure(Apply(s, step, t))
  {
    hide Tree.Inv, Counters, Mail, Memory, Inserts, Quiet, Grows;
    if step.Insert? {
      InsertInserts(s, step.chain, step.ty, step.weak, step.same, t);
      InsertStructure(s, Apply(s, step, t), step.chain, Joined(s, step.chain, step.ty, step.same));
    } else if step.Detach? {
      DetachStructure(s, step.chain);
    } else {
      StepIsQuiet(s, step, t);
      QuietStructure(s, Apply(s, step, t));
    }
  }

  // ---------------------------------------------------------------------------------------------
  // Counters

  lemma {:induction false} ParticipantsSame(s: State, s': State, n: nat, r: nat)
    requires n <= |s.red| && n <= |s'.red| && |s.registered| == |s.red| && |s'.registered| == |s'.red|
    requires forall x :: 0 <= x < n ==> s'.red[x] == s.red[x] && s'.registered[x] == s.registered[x]
    ensures Participants(s'.red, s'.registered, n, r) == Participants(s.red, s.registered, n, r)
  {
    if n > 0 { ParticipantsSame(s, s', n - 1, r); }
  }

  lemma {:induction false} ParticipantsLess(s: State, s': State, n: nat, r: nat, a: nat)
    requires a < n <= |s.red| == |s'.red| == |s.registered| == |s'.registered|
    requires s'.red == s.red && s'.registered == s.registered[a := false] && s.registered[a]
    ensures Participants(s'.red, s'.registered, n, r)
            == Participants(s.red, s.registered, n, r) - (if s.red[a] == Some(r) then 1 else 0)
  {
    if a == n - 1 { ParticipantsSame(s, s', n - 1, r); } else { ParticipantsLess(s, s', n - 1, r, a); }
  }

  lemma {:induction false} ParticipantCounts(s: State, n: nat, r: nat, a: nat)
    requires a < n <= |s.red| == |s.registered| && s.red[a] == Some(r) && s.registered[a]
    ensures Participants(s.red, s.registered, n, r) > 0
  {
    if a < n - 1 { ParticipantCounts(s, n - 1, r, a); }
  }

  lemma {:induction false} NoParticipants(s: State, n: nat, r: nat)
    requires n <= |s.red| == |s.registered| && forall x :: 0 <= x < n && s.red[x] == Some(r) ==> !s.registered[x]
    ensures Participants(s.red, s.registered, n, r) == 0
  {
    if n > 0 { NoParticipants(s, n - 1, r); }
  }

  lemma FirstStays(s: State, step: Step, t: Tree.State, r: nat)
    requires Stepped(s, step, t) && r < |s.reds|
    ensures r < |Apply(s, step, t).reds| && Apply(s, step, t).reds[r].first == s.reds[r].first
  {
    if step.Insert? {
      InsertInserts(s, step.chain, step.ty, step.weak, step.same, t);
    } else {
      StepIsQuiet(s, step, t);
    }
  }

  /** Combination requests are recorded once and for all, and a new one has not been handled. */
  ghost predicate Requests(s: State, t: Tree.State) {
    forall x: nat :: x < |s.tree.nodes| ==> RequestKept(s.tree, t, x)
  }

  predicate RequestKept(t: Tree.State, u: Tree.State, x: nat) {
    x < |t.nodes| && x < |u.nodes| &&
    var l, l' := t.nodes[x].ledger, u.nodes[x].ledger;
    && (ReductionCombined in l ==> ReductionCombined in l' && l'[ReductionCombined] == l[ReductionCombined])
    && (ReductionCombined in l' && ReductionCombined !in l ==> l'[ReductionCombined] >= |t.sent|)
  }

  lemma ArrivalKept(s: State, step: Step, t: Tree.State, r: nat)
    requires Stepped(s, step, t) && Requests(s, t) && !step.Combine? && r < |s.reds|
    ensures r < |Apply(s, step, t).reds| && (ArrivalHandled(Apply(s, step, t), r) <==> ArrivalHandled(s, r))
  {
    FirstStays(s, step, t, r);
    assert FirstOk(s, r) && RequestKept(s.tree, t, s.reds[r].first);
  }

  lemma StepRequests(s: State, step: Step)
    requires Inv(s) && Enabled(s, step)
    ensures Requests(s, TreeAfter(s, step))
  {
    if TreeStep(s, step).Some? {
      forall x: nat | x < |s.tree.nodes| ensures RequestKept(s.tree, TreeAfter(s, step), x) {
        RequestRecorded(s.tree, TreeStep(s, step).value, x);
      }
    }
  }

  lemma RequestRecorded(t: Tree.State, step: Tree.Step, x: nat)
    requires Tree.Inv(t) && Tree.Enabled(t, step) && x < |t.nodes|
    ensures RequestKept(t, Tree.Next(t, step), x)
  {
    TreeInvariant.StepNode(t, step, x);
    assert Tree.TokenOk(t, x, ReductionCombined);
    if !step.ScheduleSender? && x == Tree.Subject(t, step) {
      var raised, schedule := TreeInvariant.StepSends(t, step);
      TreeInvariant.LedgerIsTriggered(t, step, raised, schedule);
      TreeTokens.RecordAt(t.nodes[x].ledger, Tree.Out(t, step), |t.sent|, ReductionCombined);
    }
  }

  /** The counters that a step does not touch. */
  lemma RedKept(s: State, step: Step, t: Tree.State, r: nat)
    requires Stepped(s, step, t) && Requests(s, t) && Structure(Apply(s, step, t)) && r < |s.reds|
    requires !step.Insert? && !step.Release? && !step.Detach? && !step.MarkClosed? && !step.Combine?
    ensures RedOk(Apply(s, step, t), r)
  {
    hide Tree.Inv, Mail, Memory, ArrivalHandled, StructOk;
    var s' := Apply(s, step, t);
    assert RedOk(s, r) && FirstOk(s, r);
    ArrivalKept(s, step, t, r);
    ParticipantsSame(s, s', |s.red|, r);
  }

  lemma ReleaseRed(s: State, a: nat, r: nat)
    requires Inv(s) && Ready(s, Release(a)) && Structure(Apply(s, Release(a), s.tree)) && r < |s.reds|
    ensures RedOk(Apply(s, Release(a), s.tree), r)
  {
    assert RedOk(s, r) && FirstOk(s, r);
    ParticipantsLess(s, Apply(s, Release(a), s.tree), |s.red|, r, a);
    if s.red[a] == Some(r) { ParticipantCounts(s, |s.red|, r, a); }
  }

  lemma DetachRed(s: State, ch: Tree.Chain, r: nat)
    requires Inv(s) && Ready(s, Detach(ch)) && Structure(Apply(s, Detach(ch), s.tree)) && r < |s.reds|
    ensures RedOk(Apply(s, Detach(ch), s.tree), r)
  {
    assert RedOk(s, r) && FirstOk(s, r) && EntryOk(s, ch);
    ParticipantsSame(s, Apply(s, Detach(ch), s.tree), |s.red|, r);
  }

  lemma CloseRed(s: State, closed: nat, r: nat)
    requires Inv(s) && Ready(s, MarkClosed(closed)) && Structure(Apply(s, MarkClosed(closed), s.tree)) && r < |s.reds|
    ensures RedOk(Apply(s, MarkClosed(closed), s.tree), r)
  {
    assert RedOk(s, r) && FirstOk(s, r);
    ParticipantsSame(s, Apply(s, MarkClosed(closed), s.tree), |s.red|, r);
  }

  /** The reduction that is joined is not combined: it is open, or the parent access still counts in it. */
  lemma JoinedCounts(s: State, ch: Tree.Chain, red: Option<nat>)
    requires Inv(s) && red.Some? && red.value < |s.reds| && Continues(s, ch, red)
    requires Inner(s, ch) ==> red == s.red[ch.parent] && s.registered[ch.parent]
    ensures s.reds[red.value].count > 0 && (!Inner(s, ch) ==> Open(s, red.value))
  {
    var r := red.value;
    assert RedOk(s, r) && EntryOk(s, ch);
    if Inner(s, ch) { ParticipantCounts(s, |s.red|, r, ch.parent); }
  }

  /** What registration closes was open in this chain. */
  lemma ClosesOpen(s: State, ch: Tree.Chain, ty: AccessType, weak: bool, same: bool)
    requires Inv(s) && Ready(s, Insert(ch, ty, weak, same)) && Prior(s, ch, ty).Some?
    requires Prior(s, ch, ty) != Joined(s, ch, ty, same)
    ensures Prior(s, ch, ty).value < |s.reds| && Home(s, Prior(s, ch, ty).value) == ch
    ensures Open(s, Prior(s, ch, ty).value)
  {
    JoinedKinds(s, ch, ty, weak, same);
    assert EntryOk(s, ch);
  }

  /** Registration keeps apart what is open, what is being closed, and what is closed. */
  lemma InsertStatus(s: State, ch: Tree.Chain, ty: AccessType, weak: bool, same: bool, t: Tree.State, r: nat)
    requires Stepped(s, Insert(ch, ty, weak, same), t) && r < |s.reds|
    requires Inserts(s, Apply(s, Insert(ch, ty, weak, same), t), ch, Joined(s, ch, ty, same))
    ensures var s' := Apply(s, Insert(ch, ty, weak, same), t);
            && (s.reds[r].closed <==> r !in s'.closing && !Open(s', r)) && (r in s'.closing ==> !Open(s', r))
  {
    hide Tree.Inv, Mail, Memory, Grows, StructOk;
    var red := Joined(s, ch, ty, same);
    assert RedOk(s, r) && FirstOk(s, r);
    HomeKept(s, Apply(s, Insert(ch, ty, weak, same), t), ch, red, r);
    assert EntryOk(s, ch);
    if red == Some(r) { JoinedCounts(s, ch, red); }
    if Prior(s, ch, ty).Some? && Prior(s, ch, ty) != red { ClosesOpen(s, ch, ty, weak, same); }
  }

  lemma InsertOldRed(s: State, ch: Tree.Chain, ty: AccessType, weak: bool, same: bool, t: Tree.State, r: nat)
    requires Stepped(s, Insert(ch, ty, weak, same), t) && Requests(s, t) && r < |s.reds|
    requires Inserts(s, Apply(s, Insert(ch, ty, weak, same), t), ch, Joined(s, ch, ty, same))
    ensures RedOk(Apply(s, Insert(ch, ty, weak, same), t), r)
  {
    hide Tree.Inv, Mail, Memory, Grows, ArrivalHandled, StructOk;
    var step := Insert(ch, ty, weak, same);
    assert RedOk(s, r);
    ArrivalKept(s, step, t, r);
    InsertStatus(s, ch, ty, weak, same, t, r);
    InsertSized(s, ch, ty, weak, same, t);
    ParticipantsSame(s, Apply(s, step, t), |s.red|, r);
    if Joined(s, ch, ty, same) == Some(r) { JoinedCounts(s, ch, Some(r)); }
  }

  /** A message of the tree before the step is not from a new access. */
  lemma OldMessage(s: State, t: Tree.State, x: nat)
    requires Inv(s) && Grows(s.tree, t) && Tree.Inv(t) && |s.tree.nodes| <= x < |t.nodes|
    requires ReductionCombined in t.nodes[x].ledger
    ensures t.nodes[x].ledger[ReductionCombined] >= |s.tree.sent|
  {
    assert Tree.TokenOk(t, x, ReductionCombined);
    forall i: nat | i < |s.tree.sent| ensures t.sent[i].msg.from < |s.tree.nodes| { assert Tree.MessageOk(s.tree, i); }
  }

  lemma InsertNewRed(s: State, ch: Tree.Chain, ty: AccessType, weak: bool, same: bool, t: Tree.State)
    requires Stepped(s, Insert(ch, ty, weak, same), t) && Joined(s, ch, ty, same) == Some(|s.reds|)
    requires Inserts(s, Apply(s, Insert(ch, ty, weak, same), t), ch, Joined(s, ch, ty, same))
    ensures RedOk(Apply(s, Insert(ch, ty, weak, same), t), |s.reds|)
  {
    hide Tree.Inv, Memory, StructOk, CombineOk, MailOk, CallOk, EntryOk, FirstOk;
    var s' := Apply(s, Insert(ch, ty, weak, same), t);
    InsertSized(s, ch, ty, weak, same, t);
    ParticipantsSame(s, s', |s.red|, |s.reds|);
    NoParticipants(s, |s.red|, |s.reds|);
    HomeKept(s, s', ch, Some(|s.reds|), |s.reds|);
    if ReductionCombined in t.nodes[|s.red|].ledger { OldMessage(s, t, |s.red|); }
    JoinedKinds(s, ch, ty, weak, same);
  }

  /** The request of an access is recorded for it. */
  lemma RequestOf(s: State, i: nat)
    requires Inv(s) && Unhandled(s, i)
    ensures var x := s.tree.sent[i].msg.from;
            x < |s.tree.nodes| && ReductionCombined in s.tree.nodes[x].ledger
              && s.tree.nodes[x].ledger[ReductionCombined] == i
  {
    assert CombineOk(s, i) && Tree.MessageOk(s.tree, i);
  }

  lemma CombineRed(s: State, k: nat, r: nat)
    requires Inv(s) && Ready(s, Combine(k)) && Structure(Apply(s, Combine(k), s.tree)) && r < |s.reds|
    ensures RedOk(Apply(s, Combine(k), s.tree), r)
  {
    hide Tree.Linked, Tree.ArrivalOk, Tree.ReturnOk, Tree.ScheduleOk, MailOk, StructOk, EntryOk, WaitsOk, Grows;
    var i := Current(s, k);
    var x := s.tree.sent[i].msg.from;
    RequestOf(s, i);
    assert RedOk(s, r) && FirstOk(s, r) && RequestOk(s, i) && CallOk(s, k);
    var f := s.reds[r].first;
    assert Tree.TokenOk(s.tree, f, ReductionCombined);
    ParticipantsSame(s, Apply(s, Combine(k), s.tree), |s.red|, r);
  }

  lemma StepCounters(s: State, step: Step, t: Tree.State)
    requires Stepped(s, step, t) && Requests(s, t)
    ensures Counters(Apply(s, step, t))
  {
    var s' := Apply(s, step, t);
    StepStructure(s, step, t);
    if step.Insert? {
      InsertInserts(s, step.chain, step.ty, step.weak, step.same, t);
    } else {
      StepIsQuiet(s, step, t);
    }
    forall r | 0 <= r < |s'.reds| ensures RedOk(s', r) { StepRed(s, step, t, r); }
  }

  lemma StepRed(s: State, step: Step, t: Tree.State, r: nat)
    requires Stepped(s, step, t) && Requests(s, t) && Structure(Apply(s, step, t)) && r < |Apply(s, step, t).reds|
    requires step.Insert? ==> Inserts(s, Apply(s, step, t), step.chain, Joined(s, step.chain, step.ty, step.same))
    requires !step.Insert? ==> |Apply(s, step, t).reds| == |s.reds|
    ensures RedOk(Apply(s, step, t), r)
  {
    hide Tree.Inv, Counters, Mail, Memory, Structure, RedOk, Grows, Inserts, Requests;
    match step
    case Insert(ch, ty, weak, same) =>
      if r < |s.reds| { InsertOldRed(s, ch, ty, weak, same, t, r); } else { InsertNewRed(s, ch, ty, weak, same, t); }
    case Release(a) => ReleaseRed(s, a, r);
    case Detach(ch) => DetachRed(s, ch, r);
    case MarkClosed(c) => CloseRed(s, c, r);
    case Combine(k) => CombineRed(s, k, r);
    case _ => RedKept(s, step, t, r);
  }
}
