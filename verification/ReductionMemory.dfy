/** Every step keeps the calls in order: what a call has seen last tells it whether an arrival is the first. */
module ReductionMemory {
  import opened AccessFlags
  import opened DataAccess
  import Tree = AccessTree
  import Safety = AccessTreeSafety
  import TreeTokens = AccessTreeTokens
  import TreeInvariant = AccessTreeInvariant
  import opened ReductionOrder
  import opened ReductionInfo
  import opened ReductionInvariant

  // ---------------------------------------------------------------------------------------------
  // What a step sends

  /** A new message: untouched, from access `x`, asking for a combination exactly if its acknowledgement says so. */
  predicate NewMessage(e: Tree.Sent, x: nat) {
    && e.msg.from == x && e.stage == Tree.FirstStage(e.msg)
    && (e.msg.combine <==> ReductionCombined in e.msg.flagsAfter)
  }

  /** The step delivers message `cur`, if any, and access `x`, which is in the reduction `red`, sends messages. */
  ghost predicate Posts(s: State, t: Tree.State, x: nat, red: Option<nat>, cur: Option<nat>) {
    && Grows(s.tree, t) && x < |t.nodes|
    && (forall i: nat :: i < |s.tree.sent| && cur != Some(i) ==> t.sent[i] == s.tree.sent[i])
    && (cur.Some? ==>
          && cur.value < |s.tree.sent| && s.tree.sent[cur.value].stage.Deliver?
          && t.sent[cur.value].stage == Tree.AfterDeliver(s.tree.sent[cur.value].msg))
    && (forall i :: |s.tree.sent| <= i < |t.sent| ==> NewMessage(t.sent[i], x))
    && (red.Some? ==> |t.sent| <= |s.tree.sent| + 1)
  }

  lemma EmitCombines(self: nat, ty: AccessType, held: Flags, added: Flags, succ: Option<nat>, child: Option<nat>,
      k: nat)
    requires k < |Emit(self, ty, held, added, succ, child)|
    ensures var m := Emit(self, ty, held, added, succ, child)[k];
            m.from == self && (m.combine <==> ReductionCombined in m.flagsAfter) && (m.combine ==> Combines(ty, added))
    ensures !TwoWay(ty) ==> |Emit(self, ty, held, added, succ, child)| == 1
    ensures Combines(ty, added) ==> Emit(self, ty, held, added, succ, child)[k].combine
  {
  }

  lemma OutcomeSent(t: Tree.State, step: Tree.Step, out: seq<Message>)
    requires Tree.Enabled(t, step) && Tree.RunsAutomaton(step)
    ensures var u := Tree.Outcome(t, step, out);
            && Tree.Subject(t, step) < |u.nodes| && |u.sent| == |t.sent| + |out|
            && u.nodes[Tree.Subject(t, step)].ty == Tree.Prepare(t, step).nodes[Tree.Subject(t, step)].ty
            && (forall i :: |t.sent| <= i < |u.sent| ==>
                  u.sent[i] == Tree.Sent(out[i - |t.sent|], Tree.FirstStage(out[i - |t.sent|])))
            && (forall i: nat :: i < |t.sent| && !(step.DeliverMessage? && step.i == i) ==> u.sent[i] == t.sent[i])
            && (step.DeliverMessage? ==>
                  t.sent[step.i].stage.Deliver? && u.sent[step.i].stage == Tree.AfterDeliver(t.sent[step.i].msg))
  {
  }

  lemma OutPosts(t: Tree.State, step: Tree.Step)
    requires Tree.Enabled(t, step) && Tree.RunsAutomaton(step)
    ensures var n := Tree.Prepare(t, step).nodes[Tree.Subject(t, step)];
            !TwoWay(n.ty) ==> |Tree.Out(t, step)| <= 1
    ensures forall k :: 0 <= k < |Tree.Out(t, step)| ==>
              var m := Tree.Out(t, step)[k];
              m.from == Tree.Subject(t, step) && (m.combine <==> ReductionCombined in m.flagsAfter)
  {
    var x := Tree.Subject(t, step);
    var n := Tree.Prepare(t, step).nodes[x];
    forall k: nat | k < |Tree.Out(t, step)|
      ensures var m := Tree.Out(t, step)[k]; m.from == x && (m.combine <==> ReductionCombined in m.flagsAfter)
      ensures !TwoWay(n.ty) ==> |Tree.Out(t, step)| == 1
    {
      EmitCombines(x, n.ty, n.flags, Tree.Added(t, step), n.succ, n.child, k);
    }
  }

  /** The access that a sending step makes send. */
  function Sender(s: State, step: Step): nat
    requires Enabled(s, step) && MaySend(step)
  {
    match step
    case Insert(ch, _, _, _) => Extended(s, ch)
    case CloseChain(a) => s.tree.bottom[Tree.Under(a)]
    case Unregister(a) => a
    case Deliver(k) => s.tree.sent[Current(s, k)].msg.to.value
  }

  function Delivering(s: State, step: Step): Option<nat> {
    if step.Deliver? && step.call < |s.calls| then s.calls[step.call].current else None
  }

  lemma SenderIsSubject(s: State, step: Step)
    requires Enabled(s, step) && MaySend(step)
    ensures TreeStep(s, step).Some? && Tree.RunsAutomaton(TreeStep(s, step).value)
    ensures Sender(s, step) == Tree.Subject(s.tree, TreeStep(s, step).value)
    ensures var ts := TreeStep(s, step).value; Delivering(s, step) == if ts.DeliverMessage? then Some(ts.i) else None
  {
  }

  lemma StepPosts(s: State, step: Step, t: Tree.State, ts: Tree.Step, red: Option<nat>)
    requires Tree.Inv(s.tree) && Tree.Enabled(s.tree, ts) && Tree.RunsAutomaton(ts) && t == Tree.Next(s.tree, ts)
    requires Grows(s.tree, t)
    requires red.Some? ==> Tree.Subject(s.tree, ts) < |t.nodes| && t.nodes[Tree.Subject(s.tree, ts)].ty.ReductionAccess?
    ensures Posts(s, t, Tree.Subject(s.tree, ts), red, if ts.DeliverMessage? then Some(ts.i) else None)
  {
    hide Emit, Tree.TokenOk, Tree.Linked, Tree.ScheduleOk, Tree.ArrivalOk, Tree.ReturnOk;
    OutPosts(s.tree, ts);
    OutcomeSent(s.tree, ts, Tree.Out(s.tree, ts));
    if ts.DeliverMessage? { assert Tree.MessageOk(s.tree, ts.i); }
  }

  // ---------------------------------------------------------------------------------------------
  // Calls

  /** The same accesses in the same reductions, and perhaps a new one. */
  ghost predicate Keeps(s: State, s': State) {
    && Sized(s) && Sized(s') && Grows(s.tree, s'.tree)
    && |s.red| <= |s'.red| && s'.red[..|s.red|] == s.red
    && |s.reds| <= |s'.reds| && (forall r :: 0 <= r < |s.reds| ==> s'.reds[r].first == s.reds[r].first)
  }

  /** Access `x` has sent messages that a new call handles, or, at a delivery, the call that delivers. */
  ghost predicate Sent(s: State, s': State, x: nat, cur: Option<nat>, k: nat) {
    && Keeps(s, s') && x < |s'.red| && Posts(s, s'.tree, x, s'.red[x], cur) && s'.handled == s.handled
    && s'.owner == s.owner + Owners(|s'.tree.sent| - |s.tree.sent|, k)
    && k < |s'.calls| && |s.calls| <= |s'.calls| && k <= |s.calls|
    && (forall j :: 0 <= j < |s.calls| && j != k ==> s'.calls[j] == s.calls[j])
    && |s'.calls| == |s.calls| + (if cur.Some? then 0 else 1)
    && (cur.Some? ==>
          && k < |s.calls| && s.calls[k].current == cur
          && s'.calls[k] == s.calls[k].(stack := s.calls[k].stack + Since(|s.tree.sent|, |s'.tree.sent|)))
    && (cur.None? ==>
          && k == |s.calls| && s'.calls[k].start == x && s'.calls[k].current.None?
          && s'.calls[k].stack == Since(|s.tree.sent|, |s'.tree.sent|))
  }

  /** Steps of the reduction that sent message `i` do not change. */
  lemma SameRed(s: State, s': State, i: nat)
    requires Inv(s) && Keeps(s, s') && i < |s.tree.sent|
    ensures RedOf(s', i) == RedOf(s, i)
  {
    assert Tree.MessageOk(s.tree, i);
    assert s'.red[..|s.red|][s.tree.sent[i].msg.from] == s.red[s.tree.sent[i].msg.from];
  }

  lemma SentCombine(s: State, s': State, x: nat, cur: Option<nat>, k: nat, i: nat)
    requires Inv(s) && Sent(s, s', x, cur, k) && i < |s'.tree.sent|
    ensures CombineOk(s', i) && MailOk(s', i)
  {
    if i < |s.tree.sent| {
      assert CombineOk(s, i) && MailOk(s, i);
      if cur == Some(i) && s.tree.sent[i].msg.combine { assert s.tree.sent[i].msg.flagsAfter != {}; }
      if s.owner[i] == k && i in s.calls[k].stack {
        var p :| 0 <= p < |s.calls[k].stack| && s.calls[k].stack[p] == i;
        assert s'.calls[k].stack[p] == i;
      }
    } else {
      assert NewMessage(s'.tree.sent[i], x);
      var before := |s'.calls[k].stack| - (|s'.tree.sent| - |s.tree.sent|);
      assert s'.calls[k].stack[before + (i - |s.tree.sent|)] == i;
    }
  }

  /** The stack below the new messages. */
  lemma SentWaitsOld(s: State, s': State, x: nat, cur: Option<nat>, k: nat, j: nat, p: nat)
    requires Inv(s) && Sent(s, s', x, cur, k) && j < |s.calls| && p < |s.calls[j].stack|
    ensures WaitsOk(s', j, p)
  {
    assert CallOk(s, j) && WaitsOk(s, j, p);
    SameRed(s, s', s.calls[j].stack[p]);
    if s.calls[j].current.Some? { assert CallOk(s, j); }
    if cur.Some? { assert CallOk(s, k); }
  }

  lemma SentWaitsNew(s: State, s': State, x: nat, cur: Option<nat>, k: nat, p: nat)
    requires Inv(s) && Sent(s, s', x, cur, k)
    requires |s'.calls[k].stack| - (|s'.tree.sent| - |s.tree.sent|) <= p < |s'.calls[k].stack|
    ensures WaitsOk(s', k, p)
  {
    var i := s'.calls[k].stack[p];
    assert NewMessage(s'.tree.sent[i], x);
    if cur.Some? { assert CallOk(s, k); }
  }

  lemma SentCall(s: State, s': State, x: nat, cur: Option<nat>, k: nat, j: nat)
    requires Inv(s) && Sent(s, s', x, cur, k) && j < |s'.calls|
    ensures CallOk(s', j)
  {
    var before := if j < |s.calls| then |s.calls[j].stack| else 0;
    if j < |s.calls| { assert CallOk(s, j); }
    forall p: nat | p < |s'.calls[j].stack| ensures WaitsOk(s', j, p) {
      if p < before { SentWaitsOld(s, s', x, cur, k, j, p); } else { SentWaitsNew(s, s', x, cur, k, p); }
    }
    forall p, q | 0 <= p < q < |s'.calls[j].stack| ensures s'.calls[j].stack[p] != s'.calls[j].stack[q] {
      if p < before { assert WaitsOk(s, j, p); }
    }
  }

  lemma SentMail(s: State, s': State, x: nat, cur: Option<nat>, k: nat)
    requires Inv(s) && Sent(s, s', x, cur, k)
    ensures Mail(s')
  {
    forall i | 0 <= i < |s'.tree.sent| ensures CombineOk(s', i) && MailOk(s', i) { SentCombine(s, s', x, cur, k, i); }
    forall j | 0 <= j < |s'.calls| ensures CallOk(s', j) { SentCall(s, s', x, cur, k, j); }
  }

  // Steps that send nothing

  /** The call `k` goes on with its current message, or nothing happens to messages at all. */
  ghost predicate GoesOn(s: State, s': State, cur: Option<nat>) {
    && Keeps(s, s') && s'.red == s.red && s'.owner == s.owner && |s'.calls| == |s.calls|
       && |s'.tree.sent| == |s.tree.sent|
    && (forall j :: 0 <= j < |s.calls| ==> s'.calls[j] == s.calls[j].(seen := s'.calls[j].seen))
    && (forall i: nat :: i < |s.tree.sent| && cur != Some(i) ==>
          s'.tree.sent[i] == s.tree.sent[i] && (i in s'.handled <==> i in s.handled))
    && (cur.Some? ==> Continued(s, s', cur.value))
    && (forall i :: i in s'.handled ==> i < |s.tree.sent|)
  }

  /** Message `i`, which some call handles, is scheduled, combined or acknowledged. */
  predicate Continued(s: State, s': State, i: nat) {
    && i < |s.tree.sent| && i < |s'.tree.sent| && s'.tree.sent[i].msg == s.tree.sent[i].msg
    && (exists k: nat :: k < |s.calls| && s.calls[k].current == Some(i))
    && !s.tree.sent[i].stage.Deliver? && !s'.tree.sent[i].stage.Deliver?
    && (s.tree.sent[i].stage.Done? ==> s'.tree.sent[i].stage.Done?)
    && (i in s.handled ==> i in s'.handled)
    && (i in s'.handled ==>
          s.tree.sent[i].msg.combine && (s'.tree.sent[i].stage.Acknowledge? || s'.tree.sent[i].stage.Done?))
    && (s.tree.sent[i].msg.combine && s'.tree.sent[i].stage.Done? ==> i in s'.handled)
  }

  lemma GoesOnMail(s: State, s': State, cur: Option<nat>)
    requires Inv(s) && GoesOn(s, s', cur)
    ensures Mail(s')
  {
    forall i | 0 <= i < |s'.tree.sent| ensures CombineOk(s', i) && MailOk(s', i) { GoesOnMessage(s, s', cur, i); }
    forall j | 0 <= j < |s'.calls| ensures CallOk(s', j) {
      assert CallOk(s, j);
      forall p | 0 <= p < |s'.calls[j].stack| ensures WaitsOk(s', j, p) { GoesOnWaits(s, s', cur, j, p); }
    }
  }

  lemma GoesOnMessage(s: State, s': State, cur: Option<nat>, i: nat)
    requires Inv(s) && GoesOn(s, s', cur) && i < |s.tree.sent|
    ensures CombineOk(s', i) && MailOk(s', i)
  {
    assert CombineOk(s, i) && MailOk(s, i);
    if cur == Some(i) {
      var k: nat :| k < |s.calls| && s.calls[k].current == Some(i);
      assert CallOk(s, k);
    }
  }

  lemma GoesOnWaits(s: State, s': State, cur: Option<nat>, j: nat, p: nat)
    requires Inv(s) && GoesOn(s, s', cur) && j < |s.calls| && p < |s.calls[j].stack|
    ensures WaitsOk(s', j, p)
  {
    assert CallOk(s, j) && WaitsOk(s, j, p);
    SameRed(s, s', s.calls[j].stack[p]);
    if cur.Some? {
      var k: nat :| k < |s.calls| && s.calls[k].current == cur;
      assert CallOk(s, k);
    }
  }

  // Going on to the next message

  lemma TakeMail(s: State, k: nat)
    requires Inv(s) && Ready(s, Take(k))
    ensures Mail(Apply(s, Take(k), s.tree))
  {
    hide Tree.Inv, Structure, Counters, Memory;
    var s' := Apply(s, Take(k), s.tree);
    var c := s.calls[k];
    var n := |c.stack| - 1;
    assert CallOk(s, k) && WaitsOk(s, k, n);
    forall i | 0 <= i < |s'.tree.sent| ensures CombineOk(s', i) && MailOk(s', i) {
      assert CombineOk(s, i) && MailOk(s, i);
      if s.owner[i] == k && i in c.stack && i != c.stack[n] {
        var p :| 0 <= p < |c.stack| && c.stack[p] == i;
        assert c.stack[..n][p] == i;
      }
    }
    forall j | 0 <= j < |s'.calls| ensures CallOk(s', j) {
      assert CallOk(s, j);
      forall p | 0 <= p < |s'.calls[j].stack| ensures WaitsOk(s', j, p) { assert WaitsOk(s, j, p); }
    }
  }

  // ---------------------------------------------------------------------------------------------
  // What a call has seen

  /** A participant that holds write permission has received it through the first participant. */
  lemma {:induction false} BegunBy(s: State, x: nat)
    requires Inv(s) && x < |s.red| && s.red[x].Some? && Sat(Write) in s.tree.nodes[x].flags
    ensures s.red[x].value < |s.reds| && Begun(s, s.red[x].value)
  {
    assert StructOk(s, x);
    if s.reds[s.red[x].value].first != x {
      var w := FlowPred(s.tree.nodes[x]).value;
      HeldBefore(s.tree, x);
      BegunBy(s, w);
    }
  }

  lemma BegunStays(s: State, s': State, r: nat)
    requires Keeps(s, s') && r < |s.reds| && Begun(s, r)
    ensures Begun(s', r)
  {
  }

  /** A call that may carry write permission out of somewhere after its start has seen only reductions that have
      begun. */
  lemma CarriedIsBegun(s: State, i: nat)
    requires Inv(s) && i < |s.tree.sent| && !s.tree.sent[i].stage.Done? && CarriesWrite(s.tree.sent[i].msg)
    ensures s.owner[i] < |s.calls|
    ensures Mind(s, s.owner[i]).Some? ==> Mind(s, s.owner[i]).value < |s.reds| && Begun(s, Mind(s, s.owner[i]).value)
  {
    var k := s.owner[i];
    assert MailOk(s, i) && PlaceOk(s, i) && CallOk(s, k) && SeenOk(s, k);
    var c := s.calls[k];
    if c.current.Some? && Unhandled(s, c.current.value) {
      UnhandledHolds(s, c.current.value);
    } else if c.seen.Some? && !Begun(s, c.seen.value) {
      CarrierPassedStart(s.tree, i, c.start);
      BegunBy(s, c.start);
    }
  }

  /** Who asks for a combination is a participant that holds write permission. */
  lemma UnhandledHolds(s: State, i: nat)
    requires Inv(s) && Unhandled(s, i)
    ensures RedOf(s, i).Some? && RedOf(s, i).value < |s.reds| && Begun(s, RedOf(s, i).value)
  {
    var x := s.tree.sent[i].msg.from;
    RequestOf(s, i);
    assert Tree.TokenOk(s.tree, x, ReductionCombined) && StructOk(s, x);
    BegunBy(s, x);
  }

  /** When write permission arrives at a participant, the call that brings it has seen the reduction, unless this is the
      first participant. */
  lemma ArrivalMinded(s: State, k: nat)
    requires Inv(s) && Enabled(s, Deliver(k)) && Sat(Write) in s.tree.sent[Current(s, k)].msg.flagsForNext
    requires s.red[s.tree.sent[Current(s, k)].msg.to.value].Some?
    ensures var c := s.tree.sent[Current(s, k)].msg.to.value;
            Mind(s, k) == s.red[c] <==> s.reds[s.red[c].value].first != c
  {
    var i := Current(s, k);
    var c := s.tree.sent[i].msg.to.value;
    WriteComesFrom(s.tree, i);
    assert CallOk(s, k) && StructOk(s, c);
    CarriedIsBegun(s, i);
    if s.reds[s.red[c].value].first != c { DeliveredMind(s, k); }
  }

  /** The call that passes write permission on inside a reduction has seen it. */
  lemma DeliveredMind(s: State, k: nat)
    requires Inv(s) && Enabled(s, Deliver(k)) && CarriesWrite(s.tree.sent[Current(s, k)].msg)
    requires var i := Current(s, k); RedOf(s, i).Some? && RedOf(s, i) == s.red[s.tree.sent[i].msg.to.value]
    ensures Mind(s, k) == RedOf(s, Current(s, k))
  {
    var i := Current(s, k);
    assert CallOk(s, k) && CarrierOk(s, i) && CombineOk(s, i);
  }

  // ---------------------------------------------------------------------------------------------
  // Messages that stay

  lemma SameMind(s: State, s': State, k: nat)
    requires Inv(s) && Keeps(s, s') && k < |s.calls| && k < |s'.calls|
    requires s'.calls[k].current == s.calls[k].current && s'.calls[k].seen == s.calls[k].seen && s'.handled == s.handled
    ensures Mind(s', k) == Mind(s, k)
  {
    assert CallOk(s, k);
    if s.calls[k].current.Some? { SameRed(s, s', s.calls[k].current.value); }
  }

  /** What is true of a message stays true as long as the mind of its call does. */
  lemma KeptMessage(s: State, s': State, i: nat)
    requires Inv(s) && Keeps(s, s') && i < |s.tree.sent| && s'.owner[i] == s.owner[i]
    requires s.owner[i] < |s.calls| <= |s'.calls|
    requires s'.calls[s.owner[i]].current == s.calls[s.owner[i]].current
    requires s'.calls[s.owner[i]].start == s.calls[s.owner[i]].start
    requires s'.calls[s.owner[i]].current == Some(i) && Unhandled(s', i) ==>
             s'.calls[s.owner[i]].seen == s.calls[s.owner[i]].seen
    requires Mind(s', s.owner[i]) == Mind(s, s.owner[i])
    requires s'.tree.sent[i].stage.Deliver? ==> s.tree.sent[i].stage.Deliver?
    requires s.tree.sent[i].stage.Done? ==> s'.tree.sent[i].stage.Done?
    requires Unhandled(s', i) ==> Unhandled(s, i)
    ensures CarrierOk(s', i) && RequestOk(s', i) && PlaceOk(s', i)
  {
    assert CarrierOk(s, i) && RequestOk(s, i) && PlaceOk(s, i) && Tree.MessageOk(s.tree, i);
    SameRed(s, s', i);
    var m := s.tree.sent[i].msg;
    if m.to.Some? { assert s'.red[..|s.red|][m.to.value] == s.red[m.to.value]; }
    var start := s.calls[s.owner[i]].start;
    if MayFollow(s.tree, start, m.from, GoesDown(m)) { MayFollowKept(s.tree, s'.tree, start, m.from, GoesDown(m)); }
  }

  lemma KeptSeen(s: State, s': State, k: nat)
    requires Inv(s) && Keeps(s, s') && k < |s.calls| && k < |s'.calls|
    requires s'.calls[k].start == s.calls[k].start && s'.calls[k].seen == s.calls[k].seen
    ensures SeenOk(s', k)
  {
    assert SeenOk(s, k);
    if s.calls[k].seen.Some? && Begun(s, s.calls[k].seen.value) { BegunStays(s, s', s.calls[k].seen.value); }
    if s.calls[k].start < |s.red| { assert s'.red[..|s.red|][s.calls[k].start] == s.red[s.calls[k].start]; }
  }

  // ---------------------------------------------------------------------------------------------
  // New messages

  /** A token is sent because the update added something that it waits for. */
  lemma TokenNeedsAdded(t: Tree.State, step: Tree.Step, k: nat, f: Flag) returns (g: Flag)
    requires Tree.Inv(t) && Tree.Enabled(t, step) && !step.ScheduleSender? && k < |Tree.Out(t, step)|
    requires f in Tree.Out(t, step)[k].flagsAfter
    ensures g in Trigger(Tree.Prepare(t, step).nodes[Tree.Subject(t, step)].ty, f) && g in Tree.Added(t, step)
  {
    hide Tree.Inv, Tree.Enabled, Tree.Prepare, Emit, Tree.Added, Tree.Subject, Tree.Out;
    var raised, schedule := TreeInvariant.StepSends(t, step);
    var n := Tree.Prepare(t, step).nodes[Tree.Subject(t, step)];
    assert CarriedBy(Tree.Out(t, step), k, f);
    assert f in raised && Enables(Trigger(n.ty, f), n.flags, Tree.Added(t, step));
    g :| g in Trigger(n.ty, f) && g !in n.flags;
  }

  /** What the children give back comes from the last of them. */
  lemma GivesBack(t: Tree.State, i: nat)
    requires Tree.Inv(t) && Tree.Enabled(t, Tree.DeliverMessage(i)) && ChildDone(Write) in t.sent[i].msg.flagsForNext
    ensures t.sent[i].msg.from < |t.nodes| && t.nodes[t.sent[i].msg.from].chain == Tree.Under(t.sent[i].msg.to.value)
    ensures CarriesWrite(t.sent[i].msg)
  {
    assert Tree.MessageOk(t, i) && Tree.Linked(t, t.sent[i].msg.from);
  }

  /** A participant that lets write permission through when something is delivered to it, other than write permission
      itself, has just got it back from its children. */
  lemma ReturnCompletes(t: Tree.State, i: nat, k: nat)
    requires Tree.Inv(t) && Tree.Enabled(t, Tree.DeliverMessage(i)) && k < |Tree.Out(t, Tree.DeliverMessage(i))|
    requires !TwoWay(t.nodes[t.sent[i].msg.to.value].ty) && Sat(Write) !in t.sent[i].msg.flagsForNext
    requires CarriesWrite(Tree.Out(t, Tree.DeliverMessage(i))[k])
    ensures ChildDone(Write) in t.sent[i].msg.flagsForNext
  {
    var step := Tree.DeliverMessage(i);
    var f := if NextSat(Write) in Tree.Out(t, step)[k].flagsAfter then NextSat(Write) else ChildSat(Write);
    var g := TokenNeedsAdded(t, step, k, f);
    TreeInvariant.AddedKinds(t, step);
  }

  /** Message `i` is one that the delivery sends. */
  ghost predicate FromDelivery(s: State, s': State, k: nat, i: nat) {
    && Enabled(s, Deliver(k)) && Keeps(s, s') && |s.tree.sent| <= i < |s'.tree.sent| && s'.owner[i] == k
    && k < |s'.calls| && s'.calls[k].current == s.calls[k].current && s'.calls[k].seen == s.calls[k].seen
       && s'.handled == s.handled
    && var ts := Tree.DeliverMessage(Current(s, k));
       && i - |s.tree.sent| < |Tree.Out(s.tree, ts)| && s'.tree.sent[i].msg == Tree.Out(s.tree, ts)[i - |s.tree.sent|]
       && s'.tree.sent[i].msg.from == s.tree.sent[Current(s, k)].msg.to.value
  }

  lemma DeliverPlace(s: State, s': State, k: nat, i: nat)
    requires Inv(s) && FromDelivery(s, s', k, i) && s'.calls[k].start == s.calls[k].start
    ensures PlaceOk(s', i)
  {
    hide Structure, Counters, Emit;
    var c := Current(s, k);
    assert CallOk(s, k) && PlaceOk(s, c) && Tree.MessageOk(s.tree, c);
    var m := s'.tree.sent[i].msg;
    DeliveryFollows(s.tree, c, s.calls[k].start, i - |s.tree.sent|);
    MayFollowKept(s.tree, s'.tree, s.calls[k].start, m.from, GoesDown(m));
  }

  lemma DeliverEmits(s: State, s': State, k: nat, i: nat)
    requires Inv(s) && FromDelivery(s, s', k, i)
    ensures var x := s.tree.sent[Current(s, k)].msg.to.value; var added := s.tree.sent[Current(s, k)].msg.flagsForNext;
            && x < |s.red| && RedOf(s', i) == s.red[x]
            && (s'.tree.sent[i].msg.combine ==> s.red[x].Some? && Sat(Write) in added)
            && (s.red[x].Some? && Sat(Write) in added ==> s'.tree.sent[i].msg.combine)
            && (s.red[x].Some? ==> !TwoWay(s.tree.nodes[x].ty))
  {
    var c, x := Current(s, k), s.tree.sent[Current(s, k)].msg.to.value;
    var n := s.tree.nodes[x];
    assert StructOk(s, x) && s'.red[..|s.red|][x] == s.red[x];
    EmitCombines(x, n.ty, n.flags, s.tree.sent[c].msg.flagsForNext, n.succ, n.child, i - |s.tree.sent|);
  }

  lemma DeliverRequest(s: State, s': State, k: nat, i: nat)
    requires Inv(s) && FromDelivery(s, s', k, i)
    ensures RequestOk(s', i)
  {
    DeliverEmits(s, s', k, i);
    SameMind(s, s', k);
    assert CallOk(s, k);
    if s'.tree.sent[i].msg.combine {
      ArrivalMinded(s, k);
      assert StructOk(s, s.tree.sent[Current(s, k)].msg.to.value);
    }
  }

  lemma DeliverCarrier(s: State, s': State, k: nat, i: nat)
    requires Inv(s) && FromDelivery(s, s', k, i)
    ensures CarrierOk(s', i)
  {
    hide Tree.Inv, Counters, Memory, Grows, Tree.Out, Emit;
    DeliverEmits(s, s', k, i);
    SameMind(s, s', k);
    if CarriesWrite(s'.tree.sent[i].msg) && RedOf(s', i).Some? && !s'.tree.sent[i].msg.combine {
      var c := Current(s, k);
      ReturnCompletes(s.tree, c, i - |s.tree.sent|);
      GivesBack(s.tree, c);
      assert StructOk(s, s.tree.sent[c].msg.from);
      DeliveredMind(s, k);
    }
  }

  // The messages of a new call

  /** Tokens go to the successor and to the child. */
  lemma TokenDestination(t: Tree.State, step: Tree.Step, k: nat)
    requires Tree.Inv(t) && Tree.Enabled(t, step) && !step.ScheduleSender? && k < |Tree.Out(t, step)|
    ensures var m := Tree.Out(t, step)[k]; var n := Tree.Prepare(t, step).nodes[Tree.Subject(t, step)];
            (NextSat(Write) in m.flagsAfter ==> m.to == n.succ) && (ChildSat(Write) in m.flagsAfter ==> m.to == n.child)
  {
    var raised, schedule := TreeInvariant.StepSends(t, step);
  }

  /** The access that registration or closing links to what sends. */
  lemma LinkedTo(t: Tree.State, step: Tree.Step)
    requires Tree.Inv(t) && Tree.Enabled(t, step) && (step.Insert? || step.CloseChain?)
    requires step.Insert? ==> step.chain in t.bottom || step.chain.Under?
    ensures var n := Tree.Prepare(t, step).nodes[Tree.Subject(t, step)];
            && (HasNext in Tree.Added(t, step) ==> n.succ == Some(if step.Insert? then |t.nodes| else step.a))
            && (HasChild in Tree.Added(t, step) ==> n.child == Some(if step.Insert? then |t.nodes| else step.a))
            && (HasNext in Tree.Added(t, step) <==> HasChild !in Tree.Added(t, step))
            && Sat(Write) !in Tree.Added(t, step) && Unregistered !in Tree.Added(t, step)
               && ChildDone(Write) !in Tree.Added(t, step)
            && (forall p :: Sat(p) !in Tree.Added(t, step))
  {
  }

  /** What registration and closing send goes to the access that is linked. */
  lemma GoesToLinked(t: Tree.State, step: Tree.Step, k: nat)
    requires Tree.Inv(t) && Tree.Enabled(t, step) && (step.Insert? || step.CloseChain?)
    requires k < |Tree.Out(t, step)| && CarriesWrite(Tree.Out(t, step)[k])
    requires step.Insert? ==> step.chain in t.bottom || step.chain.Under?
    ensures Tree.Out(t, step)[k].to == Some(if step.Insert? then |t.nodes| else step.a)
  {
    var f := if NextSat(Write) in Tree.Out(t, step)[k].flagsAfter then NextSat(Write) else ChildSat(Write);
    var g := TokenNeedsAdded(t, step, k, f);
    LinkedTo(t, step);
    TokenDestination(t, step, k);
  }

  /** A registration that does not find write permission at once sends no request for a combination. */
  lemma RequestsOnlyAtRoot(t: Tree.State, step: Tree.Step, k: nat)
    requires Tree.Inv(t) && Tree.Enabled(t, step) && (step.Insert? || step.CloseChain? || step.Unregister?)
    requires k < |Tree.Out(t, step)| && Tree.Out(t, step)[k].combine
    ensures step.Insert? && step.chain !in t.bottom && step.chain.Root?
  {
    var x := Tree.Subject(t, step);
    var n := Tree.Prepare(t, step).nodes[x];
    EmitCombines(x, n.ty, n.flags, Tree.Added(t, step), n.succ, n.child, k);
  }

  /** Message `i` belongs to the call that the step starts. */
  ghost predicate FromCall(s: State, s': State, step: Step, ts: Tree.Step, i: nat) {
    && Enabled(s, step) && TreeStep(s, step) == Some(ts) && (ts.Insert? || ts.CloseChain? || ts.Unregister?)
    && Keeps(s, s') && |s.tree.sent| <= i < |s'.tree.sent| && s'.owner[i] == |s.calls| < |s'.calls|
    && s'.calls[|s.calls|].current.None? && s'.calls[|s.calls|].start == Tree.Subject(s.tree, ts)
    && i - |s.tree.sent| < |Tree.Out(s.tree, ts)| && s'.tree.sent[i].msg == Tree.Out(s.tree, ts)[i - |s.tree.sent|]
    && s'.tree.sent[i].msg.from == Tree.Subject(s.tree, ts) < |s'.red| && s'.handled == s.handled
  }

  lemma CallPlace(s: State, s': State, step: Step, ts: Tree.Step, i: nat)
    requires Inv(s) && FromCall(s, s', step, ts, i)
    ensures PlaceOk(s', i)
  {
    assert Safety.InSubtree(s'.tree, Tree.Subject(s.tree, ts), Tree.Subject(s.tree, ts));
  }

  /** The new state after registration, as far as the new access is concerned. */
  ghost predicate Registers(s: State, s': State, step: Step) {
    && step.Insert? && Ready(s, step) && |s.calls| < |s'.calls|
    && Inserts(s, s', step.chain, Joined(s, step.chain, step.ty, step.same))
    && s'.calls[|s.calls|].seen == Prior(s, step.chain, step.ty)
  }

  lemma CallRequest(s: State, s': State, step: Step, ts: Tree.Step, i: nat)
    requires Inv(s) && FromCall(s, s', step, ts, i) && Structure(s') && (step.Insert? ==> Registers(s, s', step))
    requires s'.tree.nodes[s'.tree.sent[i].msg.from].ty == Tree.Prepare(s.tree, ts).nodes[Tree.Subject(s.tree, ts)].ty
    ensures RequestOk(s', i)
  {
    hide Tree.Inv, Emit, Mail, Memory, Counters, Grows, Ready;
    if s'.tree.sent[i].msg.combine {
      RequestsOnlyAtRoot(s.tree, ts, i - |s.tree.sent|);
      var n := Tree.Prepare(s.tree, ts).nodes[Tree.Subject(s.tree, ts)];
      EmitCombines(Tree.Subject(s.tree, ts), n.ty, n.flags, Tree.Added(s.tree, ts), n.succ, n.child, i - |s.tree.sent|);
      assert StructOk(s', |s.red|) && EntryOk(s, step.chain);
    }
  }

  lemma UnregisterCarrier(s: State, s': State, a: nat, i: nat)
    requires Inv(s) && FromCall(s, s', Unregister(a), Tree.Unregister(a), i) && s'.calls[|s.calls|].seen == s.red[a]
    ensures CarrierOk(s', i)
  {
    assert s'.red[..|s.red|][a] == s.red[a];
  }

  lemma CloseCarrier(s: State, s': State, a: nat, i: nat)
    requires Inv(s) && FromCall(s, s', CloseChain(a), Tree.CloseChain(a), i) && s'.calls[|s.calls|].seen == s.red[a]
    ensures CarrierOk(s', i)
  {
    hide Tree.Inv, Structure, Counters, Mail, Emit;
    if CarriesWrite(s'.tree.sent[i].msg) {
      GoesToLinked(s.tree, Tree.CloseChain(a), i - |s.tree.sent|);
      assert s'.red[..|s.red|][a] == s.red[a];
    }
  }

  lemma InsertCarrier(s: State, s': State, step: Step, ts: Tree.Step, i: nat)
    requires Inv(s) && FromCall(s, s', step, ts, i) && Registers(s, s', step)
    ensures CarrierOk(s', i)
  {
    hide Tree.Inv, Emit, Structure, Counters, Mail, Grows, Tree.Out, Tree.Prepare;
    var x := Extended(s, step.chain);
    SenderIsSubject(s, step);
    if CarriesWrite(s'.tree.sent[i].msg) {
      if step.chain in s.tree.bottom || step.chain.Under? {
        GoesToLinked(s.tree, ts, i - |s.tree.sent|);
        ExtendedIsOld(s, step.chain, step.ty, step.weak);
        assert s'.red[..|s.red|][x] == s.red[x];
        CallCarriesIn(s, s', step, x);
      } else {
        RootSendsNothingOn(s.tree, ts, i - |s.tree.sent|);
      }
    }
  }

  lemma ExtendedIsOld(s: State, ch: Tree.Chain, ty: AccessType, weak: bool)
    requires Inv(s) && Tree.Enabled(s.tree, Tree.Insert(ch, ty, weak)) && (ch in s.tree.bottom || ch.Under?)
    ensures Extended(s, ch) < |s.red|
  {
  }

  /** Who joins the reduction of the access before it, or of its parent, has found it. */
  lemma CallCarriesIn(s: State, s': State, step: Step, x: nat)
    requires Inv(s) && Registers(s, s', step) && x == Extended(s, step.chain) < |s.red|
    ensures s.red[x].Some? && s'.red[|s.red|] == s.red[x] ==> Prior(s, step.chain, step.ty) == s.red[x]
  {
    JoinedKinds(s, step.chain, step.ty, step.weak, step.same);
    assert StructOk(s, x);
  }

  /** The first access of a root chain has nobody to pass write permission to. */
  lemma RootSendsNothingOn(t: Tree.State, step: Tree.Step, k: nat)
    requires Tree.Inv(t) && Tree.Enabled(t, step) && step.Insert? && step.chain !in t.bottom && step.chain.Root?
    requires k < |Tree.Out(t, step)|
    ensures !CarriesWrite(Tree.Out(t, step)[k])
  {
    hide Tree.Inv;
    var n := Tree.Prepare(t, step).nodes[Tree.Subject(t, step)];
    Safety.NoLinkNoPerms(n.ty, n.flags, Tree.Added(t, step));
  }

  // ---------------------------------------------------------------------------------------------
  // Steps

  lemma StepKeeps(s: State, step: Step, t: Tree.State)
    requires Stepped(s, step, t)
    ensures Keeps(s, Apply(s, step, t)) && Apply(s, step, t).tree == t
  {
    hide Tree.Inv, Counters, Mail, Memory, StructOk, SameAccess, NewNode;
    if step.Insert? {
      InsertInserts(s, step.chain, step.ty, step.weak, step.same, t);
      InsertSized(s, step.chain, step.ty, step.weak, step.same, t);
    } else {
      StepIsQuiet(s, step, t);
    }
  }

  /** What the step sends is at its sender. */
  lemma SenderPosts(s: State, step: Step, t: Tree.State, ts: Tree.Step)
    requires Stepped(s, step, t) && Enabled(s, step) && MaySend(step) && TreeStep(s, step) == Some(ts)
    requires t == Tree.Next(s.tree, ts)
    requires Structure(Apply(s, step, t))
    ensures var x := Tree.Subject(s.tree, ts);
            x < |Apply(s, step, t).red| && Posts(s, t, x, Apply(s, step, t).red[x], Delivering(s, step))
  {
    StepKeeps(s, step, t);
    SenderIsSubject(s, step);
    OutcomeSent(s.tree, ts, Tree.Out(s.tree, ts));
    var x := Tree.Subject(s.tree, ts);
    assert StructOk(Apply(s, step, t), x);
    StepPosts(s, step, t, ts, Apply(s, step, t).red[x]);
  }

  lemma DeliverCalls(s: State, k: nat, t: Tree.State)
    requires Ready(s, Deliver(k)) && Grows(s.tree, t)
    ensures var s' := Apply(s, Deliver(k), t);
            && s'.owner == s.owner + Owners(|t.sent| - |s.tree.sent|, k) && s'.handled == s.handled
            && s'.calls == s.calls[k := s.calls[k].(stack := s.calls[k].stack + Since(|s.tree.sent|, |t.sent|))]
  {
  }

  lemma AssembleDelivery(s: State, s': State, x: nat, k: nat)
    requires Keeps(s, s') && k < |s.calls| && s.calls[k].current.Some? && x < |s'.red|
    requires Posts(s, s'.tree, x, s'.red[x], s.calls[k].current) && s'.handled == s.handled
    requires s'.owner == s.owner + Owners(|s'.tree.sent| - |s.tree.sent|, k)
    requires s'.calls == s.calls[k := s.calls[k].(stack := s.calls[k].stack + Since(|s.tree.sent|, |s'.tree.sent|))]
    ensures Sent(s, s', x, s.calls[k].current, k)
  {
  }

  lemma AssembleCall(s: State, s': State, x: nat)
    requires Keeps(s, s') && x < |s'.red| && |s'.calls| == |s.calls| + 1 && s'.calls[..|s.calls|] == s.calls
    requires Posts(s, s'.tree, x, s'.red[x], None) && s'.handled == s.handled
    requires s'.owner == s.owner + Owners(|s'.tree.sent| - |s.tree.sent|, |s.calls|)
    requires var c := s'.calls[|s.calls|];
             && c.start == x && c.current.None?
             && c.stack == Since(|s.tree.sent|, |s'.tree.sent|)
    ensures Sent(s, s', x, None, |s.calls|)
  {
    forall j | 0 <= j < |s.calls| ensures s'.calls[j] == s.calls[j] { assert s'.calls[..|s.calls|][j] == s.calls[j]; }
  }

  lemma DeliverSent(s: State, k: nat, t: Tree.State, ts: Tree.Step, x: nat)
    requires Enabled(s, Deliver(k)) && TreeStep(s, Deliver(k)) == Some(ts) && t == Tree.Next(s.tree, ts)
    requires x == Tree.Subject(s.tree, ts) && Structure(Apply(s, Deliver(k), t)) && Stepped(s, Deliver(k), t)
    ensures Sent(s, Apply(s, Deliver(k), t), x, Delivering(s, Deliver(k)), k)
  {
    hide Apply, Structure, Sent, Posts, Keeps, Inv, Grows, Tree.Enabled, Tree.Next, Tree.Inv, Tree.Out, Emit;
    StepKeeps(s, Deliver(k), t);
    DeliverCalls(s, k, t);
    SenderPosts(s, Deliver(k), t, ts);
    AssembleDelivery(s, Apply(s, Deliver(k), t), x, k);
  }

  lemma NewCalls(s: State, step: Step, t: Tree.State)
    requires Ready(s, step) && (step.Insert? || step.CloseChain? || step.Unregister?) && Grows(s.tree, t)
    ensures var s' := Apply(s, step, t); var k := |s.calls|;
            && s'.owner == s.owner + Owners(|t.sent| - |s.tree.sent|, k) && s'.handled == s.handled
            && |s'.calls| == k + 1 && s'.calls[..k] == s.calls
            && s'.calls[k].current.None? && s'.calls[k].stack == Since(|s.tree.sent|, |t.sent|)
            && (step.Unregister? || step.CloseChain? ==> s'.calls[k].seen == s.red[step.access])
            && (step.Insert? ==> s'.calls[k].seen == Prior(s, step.chain, step.ty))
  {
  }

  lemma StartsAtSender(s: State, step: Step, t: Tree.State, ts: Tree.Step)
    requires Enabled(s, step) && (step.Insert? || step.CloseChain? || step.Unregister?) && TreeStep(s, step) == Some(ts)
    requires |Apply(s, step, t).calls| == |s.calls| + 1
    ensures Apply(s, step, t).calls[|s.calls|].start == Tree.Subject(s.tree, ts)
  {
  }

  lemma CallSent(s: State, step: Step, t: Tree.State, ts: Tree.Step)
    requires Stepped(s, step, t) && Enabled(s, step) && TreeStep(s, step) == Some(ts) && t == Tree.Next(s.tree, ts)
    requires (step.Insert? || step.CloseChain? || step.Unregister?) && Structure(Apply(s, step, t))
    ensures Sent(s, Apply(s, step, t), Tree.Subject(s.tree, ts), None, |s.calls|)
  {
    hide Apply, Structure, Sent, Posts, Ready, Keeps, Inv, Grows, TreeStep;
    hide Tree.Enabled, Tree.Next, Tree.Subject, Tree.Inv;
    var s' := Apply(s, step, t);
    StepKeeps(s, step, t);
    NewCalls(s, step, t);
    SenderPosts(s, step, t, ts);
    StartsAtSender(s, step, t, ts);
    AssembleCall(s, s', Tree.Subject(s.tree, ts));
  }

  /** Everything about the messages that were there before the step sent new ones. */
  lemma OldMemory(s: State, s': State, x: nat, cur: Option<nat>, k: nat, i: nat)
    requires Inv(s) && Sent(s, s', x, cur, k) && i < |s.tree.sent|
    ensures CarrierOk(s', i) && RequestOk(s', i) && PlaceOk(s', i)
  {
    assert MailOk(s, i) && CombineOk(s, i);
    SameMind(s, s', s.owner[i]);
    KeptMessage(s, s', i);
  }

  lemma OldSeen(s: State, s': State, x: nat, cur: Option<nat>, k: nat, j: nat)
    requires Inv(s) && Sent(s, s', x, cur, k) && j < |s.calls|
    ensures SeenOk(s', j)
  {
    KeptSeen(s, s', j);
  }

  lemma DeliverIsFrom(s: State, s': State, k: nat, ts: Tree.Step, i: nat)
    requires k < |s.calls| && k < |s'.calls| && |s.tree.sent| <= i < |s'.tree.sent|
    requires Enabled(s, Deliver(k)) && TreeStep(s, Deliver(k)) == Some(ts) && s'.tree == Tree.Next(s.tree, ts)
    requires Sent(s, s', Tree.Subject(s.tree, ts), s.calls[k].current, k)
    ensures FromDelivery(s, s', k, i) && s'.calls[k].start == s.calls[k].start
  {
    hide Emit, Tree.Grow, Tree.Prepare, Grows, Tree.Enabled;
    OutcomeSent(s.tree, ts, Tree.Out(s.tree, ts));
    assert NewMessage(s'.tree.sent[i], Tree.Subject(s.tree, ts));
  }

  lemma DeliverNew(s: State, s': State, k: nat, i: nat)
    requires Inv(s) && FromDelivery(s, s', k, i) && s'.calls[k].start == s.calls[k].start
    ensures CarrierOk(s', i) && RequestOk(s', i) && PlaceOk(s', i)
  {
    DeliverPlace(s, s', k, i);
    DeliverRequest(s, s', k, i);
    DeliverCarrier(s, s', k, i);
  }

  lemma DeliverMemory(s: State, k: nat, t: Tree.State, ts: Tree.Step)
    requires Inv(s) && Enabled(s, Deliver(k)) && TreeStep(s, Deliver(k)) == Some(ts) && t == Tree.Next(s.tree, ts)
    requires Sent(s, Apply(s, Deliver(k), t), Tree.Subject(s.tree, ts), s.calls[k].current, k)
    requires Apply(s, Deliver(k), t).tree == t
    ensures Memory(Apply(s, Deliver(k), t))
  {
    var s' := Apply(s, Deliver(k), t);
    var x := Tree.Subject(s.tree, ts);
    forall j | 0 <= j < |s'.calls| ensures SeenOk(s', j) { OldSeen(s, s', x, s.calls[k].current, k, j); }
    forall i | 0 <= i < |s'.tree.sent| ensures CarrierOk(s', i) && RequestOk(s', i) && PlaceOk(s', i) {
      if i < |s.tree.sent| {
        OldMemory(s, s', x, s.calls[k].current, k, i);
      } else {
        DeliverIsFrom(s, s', k, ts, i);
        DeliverNew(s, s', k, i);
      }
    }
  }

  lemma CallIsFrom(s: State, s': State, step: Step, ts: Tree.Step, i: nat)
    requires Enabled(s, step) && TreeStep(s, step) == Some(ts) && s'.tree == Tree.Next(s.tree, ts)
    requires ts.Insert? || ts.CloseChain? || ts.Unregister?
    requires Sent(s, s', Tree.Subject(s.tree, ts), None, |s.calls|) && |s.tree.sent| <= i < |s'.tree.sent|
    ensures FromCall(s, s', step, ts, i)
    ensures s'.tree.nodes[s'.tree.sent[i].msg.from].ty == Tree.Prepare(s.tree, ts).nodes[Tree.Subject(s.tree, ts)].ty
  {
    hide Emit, Tree.Grow, Tree.Prepare, Grows, Tree.Enabled, Tree.Subject;
    OutcomeSent(s.tree, ts, Tree.Out(s.tree, ts));
    assert NewMessage(s'.tree.sent[i], Tree.Subject(s.tree, ts));
  }

  lemma CallNew(s: State, s': State, step: Step, ts: Tree.Step, i: nat)
    requires Inv(s) && FromCall(s, s', step, ts, i) && Structure(s') && (step.Insert? ==> Registers(s, s', step))
    requires s'.tree.nodes[s'.tree.sent[i].msg.from].ty == Tree.Prepare(s.tree, ts).nodes[Tree.Subject(s.tree, ts)].ty
    requires step.Unregister? || step.CloseChain? ==> s'.calls[|s.calls|].seen == s.red[step.access]
    ensures CarrierOk(s', i) && RequestOk(s', i) && PlaceOk(s', i)
  {
    CallPlace(s, s', step, ts, i);
    CallRequest(s, s', step, ts, i);
    match step
    case Insert(_, _, _, _) => InsertCarrier(s, s', step, ts, i);
    case CloseChain(a) => CloseCarrier(s, s', a, i);
    case Unregister(a) => UnregisterCarrier(s, s', a, i);
  }

  /** What a new call starts with: the reduction of the access where it starts, or nothing. */
  lemma StartSeen(s: State, step: Step, ts: Tree.Step)
    requires Inv(s) && Enabled(s, step) && TreeStep(s, step) == Some(ts) && (step.CloseChain? || step.Unregister?)
    ensures var x := Tree.Subject(s.tree, ts);
            && x < |s.red|
            && (s.red[step.access].Some? ==> s.red[x] == s.red[step.access])
  {
    if step.CloseChain? {
      assert Tree.BottomOk(s.tree, Tree.Under(step.access));
      assert StructOk(s, Tree.Subject(s.tree, ts));
    }
  }

  lemma StartPrior(s: State, ch: Tree.Chain, ty: AccessType, weak: bool, same: bool)
    requires Inv(s) && Ready(s, Insert(ch, ty, weak, same)) && Prior(s, ch, ty).Some?
    ensures Extended(s, ch) < |s.red| && s.red[Extended(s, ch)] == Prior(s, ch, ty) && Prior(s, ch, ty).value < |s.reds|
  {
    JoinedKinds(s, ch, ty, weak, same);
    assert EntryOk(s, ch);
  }

  lemma NewSeen(s: State, s': State, x: nat, seen: Option<nat>)
    requires Inv(s) && Sent(s, s', x, None, |s.calls|) && s'.calls[|s.calls|].seen == seen
    requires seen.Some? ==> x < |s.red| && s.red[x] == seen
    ensures SeenOk(s', |s.calls|)
  {
    if seen.Some? { assert s'.red[..|s.red|][x] == s.red[x]; }
  }

  lemma CallSeen(s: State, s': State, step: Step, ts: Tree.Step)
    requires Inv(s) && Enabled(s, step) && TreeStep(s, step) == Some(ts)
    requires (step.Insert? || step.CloseChain? || step.Unregister?)
    requires Sent(s, s', Tree.Subject(s.tree, ts), None, |s.calls|)
    requires step.Unregister? || step.CloseChain? ==> s'.calls[|s.calls|].seen == s.red[step.access]
    requires step.Insert? ==> s'.calls[|s.calls|].seen == Prior(s, step.chain, step.ty)
    ensures SeenOk(s', |s.calls|)
  {
    SenderIsSubject(s, step);
    if step.Insert? {
      if Prior(s, step.chain, step.ty).Some? { StartPrior(s, step.chain, step.ty, step.weak, step.same); }
    } else {
      StartSeen(s, step, ts);
    }
    NewSeen(s, s', Tree.Subject(s.tree, ts), s'.calls[|s.calls|].seen);
  }

  lemma CallMessages(s: State, s': State, step: Step, ts: Tree.Step, i: nat)
    requires Inv(s) && Enabled(s, step) && TreeStep(s, step) == Some(ts)
    requires (ts.Insert? || ts.CloseChain? || ts.Unregister?)
    requires s'.tree == Tree.Next(s.tree, ts) && Structure(s') && (step.Insert? ==> Registers(s, s', step))
    requires Sent(s, s', Tree.Subject(s.tree, ts), None, |s.calls|) && i < |s'.tree.sent|
    requires step.Unregister? || step.CloseChain? ==> s'.calls[|s.calls|].seen == s.red[step.access]
    ensures CarrierOk(s', i) && RequestOk(s', i) && PlaceOk(s', i)
  {
    if i < |s.tree.sent| {
      OldMemory(s, s', Tree.Subject(s.tree, ts), None, |s.calls|, i);
    } else {
      CallIsFrom(s, s', step, ts, i);
      CallNew(s, s', step, ts, i);
    }
  }

  lemma CallMemory(s: State, s': State, step: Step, ts: Tree.Step)
    requires Inv(s) && Enabled(s, step) && TreeStep(s, step) == Some(ts)
    requires (ts.Insert? || ts.CloseChain? || ts.Unregister?)
    requires s'.tree == Tree.Next(s.tree, ts) && Structure(s') && (step.Insert? ==> Registers(s, s', step))
    requires Sent(s, s', Tree.Subject(s.tree, ts), None, |s.calls|)
    requires step.Unregister? || step.CloseChain? ==> s'.calls[|s.calls|].seen == s.red[step.access]
    ensures Memory(s')
  {
    hide Tree.Next, Tree.Enabled, Structure, Counters, Mail, Posts, CarrierOk, RequestOk, PlaceOk, SeenOk, Tree.Inv;
    CallSeen(s, s', step, ts);
    forall j | 0 <= j < |s.calls|
      ensures SeenOk(s', j)
    {
      OldSeen(s, s', Tree.Subject(s.tree, ts), None, |s.calls|, j);
    }
    forall i | 0 <= i < |s'.tree.sent| ensures CarrierOk(s', i) && RequestOk(s', i) && PlaceOk(s', i) {
      CallMessages(s, s', step, ts, i);
    }
  }

  lemma CallStep(s: State, step: Step, t: Tree.State, ts: Tree.Step)
    requires Stepped(s, step, t) && Enabled(s, step) && TreeStep(s, step) == Some(ts) && t == Tree.Next(s.tree, ts)
    requires (step.Insert? || step.CloseChain? || step.Unregister?) && Structure(Apply(s, step, t))
    ensures Mail(Apply(s, step, t)) && Memory(Apply(s, step, t))
  {
    hide Apply, Structure, Tree.Next, Mail, Memory, Counters, Tree.Inv, Tree.Enabled;
    var s' := Apply(s, step, t);
    CallSent(s, step, t, ts);
    StepKeeps(s, step, t);
    SentMail(s, s', Tree.Subject(s.tree, ts), None, |s.calls|);
    NewCalls(s, step, t);
    if step.Insert? { InsertInserts(s, step.chain, step.ty, step.weak, step.same, t); }
    CallMemory(s, s', step, ts);
  }

  lemma DeliverStep(s: State, k: nat, t: Tree.State, ts: Tree.Step)
    requires Stepped(s, Deliver(k), t) && Enabled(s, Deliver(k)) && TreeStep(s, Deliver(k)) == Some(ts)
    requires t == Tree.Next(s.tree, ts)
    requires Structure(Apply(s, Deliver(k), t))
    ensures Mail(Apply(s, Deliver(k), t)) && Memory(Apply(s, Deliver(k), t))
  {
    DeliverSent(s, k, t, ts, Tree.Subject(s.tree, ts));
    StepKeeps(s, Deliver(k), t);
    SentMail(s, Apply(s, Deliver(k), t), Tree.Subject(s.tree, ts), s.calls[k].current, k);
    DeliverMemory(s, k, t, ts);
  }

  // Steps that send nothing

  /** The message that the call of the step goes on with. */
  function Going(s: State, step: Step): Option<nat> {
    if (step.Schedule? || step.Combine? || step.Acknowledge?) && step.call < |s.calls| then s.calls[step.call].current
        else None
  }

  /** What scheduling, acknowledging and the end of a parent do to the messages. */
  lemma StageOnly(t: Tree.State, ts: Tree.Step)
    requires Tree.Enabled(t, ts) && !Tree.RunsAutomaton(ts)
    ensures Tree.Next(t, ts).sent ==
            if ts.FinishParent? then t.sent
            else t.sent[ts.i := t.sent[ts.i].(stage := if ts.ScheduleSender? then Tree.AfterSchedule(t.sent[ts.i].msg)
                                                       else Tree.Done)]
  {
    assert Tree.Post([]) == [];
  }

  lemma CombineGoesOn(s: State, k: nat)
    requires Inv(s) && Enabled(s, Combine(k)) && Keeps(s, Next(s, Combine(k)))
    ensures GoesOn(s, Next(s, Combine(k)), Going(s, Combine(k)))
  {
    hide Tree.Inv, Tree.Next, Structure, Counters, Memory, Keeps;
    assert CallOk(s, k) && CombineOk(s, Current(s, k));
  }

  lemma QuietGoesOn(s: State, step: Step)
    requires Inv(s) && Enabled(s, step) && Keeps(s, Next(s, step)) && !MaySend(step) && !step.Take?
    ensures GoesOn(s, Next(s, step), Going(s, step))
  {
    hide Inv, Next, Keeps, GoesOn;
    if step.Combine? { CombineGoesOn(s, step.call); } else { StageGoesOn(s, step); }
  }

  lemma StageGoesOn(s: State, step: Step)
    requires Inv(s) && Enabled(s, step) && Keeps(s, Next(s, step)) && !MaySend(step) && !step.Take? && !step.Combine?
    ensures GoesOn(s, Next(s, step), Going(s, step))
  {
    hide Tree.Inv, Tree.Next, Structure, Counters, Memory, Keeps, Decrement;
    if Going(s, step).Some? { assert CallOk(s, step.call) && CombineOk(s, Going(s, step).value); }
    if TreeStep(s, step).Some? { StageOnly(s.tree, TreeStep(s, step).value); }
  }

  /** The mind of a call does not change when it goes on with its message. */
  lemma GoesOnMind(s: State, s': State, cur: Option<nat>, k: nat)
    requires Inv(s) && GoesOn(s, s', cur) && k < |s.calls|
    requires s'.calls[k].seen != s.calls[k].seen ==>
               s.calls[k].current.Some? && Unhandled(s, s.calls[k].current.value)
                 && s'.calls[k].seen == RedOf(s, s.calls[k].current.value)
               && s.calls[k].current.value in s'.handled
    requires cur.Some? && s.calls[k].current == cur && Unhandled(s, cur.value) && cur.value in s'.handled ==>
             s'.calls[k].seen == RedOf(s, cur.value)
    ensures Mind(s', k) == Mind(s, k)
  {
    assert CallOk(s, k);
    if s.calls[k].current.Some? { SameRed(s, s', s.calls[k].current.value); }
  }

  /** Only a combination changes what a call has seen, to what it had in mind. */
  ghost predicate SeesWhatItHandles(s: State, s': State) {
    && |s'.calls| == |s.calls|
    && forall k :: 0 <= k < |s.calls| ==>
         if s.calls[k].current.Some? && Unhandled(s, s.calls[k].current.value) && s.calls[k].current.value in s'.handled
         then s'.calls[k].seen == RedOf(s, s.calls[k].current.value)
         else s'.calls[k].seen == s.calls[k].seen
  }

  lemma QuietSees(s: State, step: Step)
    requires Inv(s) && Enabled(s, step) && !MaySend(step) && !step.Take?
    ensures SeesWhatItHandles(s, Next(s, step))
  {
    if step.Combine? {
      assert CallOk(s, step.call);
      forall k | 0 <= k < |s.calls| && k != step.call
        ensures s.calls[k].current != s.calls[step.call].current
      {
        assert CallOk(s, k);
      }
    }
  }

  lemma GoesOnSeen(s: State, s': State, cur: Option<nat>, k: nat)
    requires Inv(s) && GoesOn(s, s', cur) && SeesWhatItHandles(s, s') && k < |s.calls|
    ensures SeenOk(s', k)
  {
    if s'.calls[k].seen == s.calls[k].seen {
      KeptSeen(s, s', k);
    } else {
      UnhandledHolds(s, s.calls[k].current.value);
      BegunStays(s, s', RedOf(s, s.calls[k].current.value).value);
    }
  }

  lemma GoesOnMemory(s: State, s': State, cur: Option<nat>)
    requires Inv(s) && GoesOn(s, s', cur) && SeesWhatItHandles(s, s')
    ensures Memory(s')
  {
    forall k | 0 <= k < |s'.calls| ensures SeenOk(s', k) { GoesOnSeen(s, s', cur, k); }
    forall i | 0 <= i < |s'.tree.sent| ensures CarrierOk(s', i) && RequestOk(s', i) && PlaceOk(s', i) {
      assert MailOk(s, i);
      GoesOnMind(s, s', cur, s.owner[i]);
      KeptMessage(s, s', i);
    }
  }

  // Going on to the next message

  /** What a participant sent is the next message of its call. */
  lemma NextIsTop(s: State, k: nat, i: nat)
    requires Inv(s) && Ready(s, Take(k)) && i < |s.tree.sent| && s.owner[i] == k && !s.tree.sent[i].stage.Done?
    requires RedOf(s, i).Some?
    ensures i == s.calls[k].stack[|s.calls[k].stack| - 1]
  {
    assert MailOk(s, i) && CallOk(s, k);
    var p :| 0 <= p < |s.calls[k].stack| && s.calls[k].stack[p] == i;
    assert WaitsOk(s, k, p);
  }

  /** Before it goes on, a call has nothing in mind but what it has seen. */
  lemma MindIsSeen(s: State, k: nat)
    requires Inv(s) && Ready(s, Take(k))
    ensures Mind(s, k) == s.calls[k].seen
  {
    if s.calls[k].current.Some? { assert CombineOk(s, s.calls[k].current.value); }
  }

  lemma TakenMessage(s: State, k: nat, i: nat)
    requires Inv(s) && Ready(s, Take(k)) && i < |s.tree.sent| && s.owner[i] == k
    ensures var s' := Apply(s, Take(k), s.tree); CarrierOk(s', i) && RequestOk(s', i) && PlaceOk(s', i)
  {
    assert MailOk(s, i) && CarrierOk(s, i) && RequestOk(s, i) && PlaceOk(s, i) && CombineOk(s, i);
    MindIsSeen(s, k);
    if !s.tree.sent[i].stage.Done? && RedOf(s, i).Some? { NextIsTop(s, k, i); }
  }

  lemma TakeMemory(s: State, k: nat)
    requires Inv(s) && Ready(s, Take(k))
    ensures Memory(Apply(s, Take(k), s.tree))
  {
    hide Tree.Inv, Structure, Counters;
    var s' := Apply(s, Take(k), s.tree);
    forall j | 0 <= j < |s'.calls| ensures SeenOk(s', j) { assert SeenOk(s, j); }
    forall i | 0 <= i < |s'.tree.sent| ensures CarrierOk(s', i) && RequestOk(s', i) && PlaceOk(s', i) {
      if s.owner[i] == k {
        TakenMessage(s, k, i);
      } else {
        assert CarrierOk(s, i) && RequestOk(s, i) && PlaceOk(s, i);
      }
    }
  }

  // All of it together

  lemma StepMailMemory(s: State, step: Step, t: Tree.State)
    requires Stepped(s, step, t) && Enabled(s, step) && t == TreeAfter(s, step) && Structure(Apply(s, step, t))
    ensures Mail(Apply(s, step, t)) && Memory(Apply(s, step, t))
  {
    hide Structure, Mail, Memory, Counters, Tree.Inv, Tree.Next, Apply, GoesOn, Keeps, Tree.Enabled;
    if step.Deliver? {
      DeliverStep(s, step.call, t, TreeStep(s, step).value);
    } else if MaySend(step) {
      CallStep(s, step, t, TreeStep(s, step).value);
    } else if step.Take? {
      TakeMail(s, step.call);
      TakeMemory(s, step.call);
    } else {
      StepKeeps(s, step, t);
      QuietGoesOn(s, step);
      QuietSees(s, step);
      GoesOnMail(s, Next(s, step), Going(s, step));
      GoesOnMemory(s, Next(s, step), Going(s, step));
    }
  }

  lemma StepInv(s: State, step: Step)
    requires Inv(s) && Enabled(s, step)
    ensures Inv(Next(s, step))
  {
    var t := TreeAfter(s, step);
    StepStepped(s, step);
    StepRequests(s, step);
    StepStructure(s, step, t);
    StepCounters(s, step, t);
    StepMailMemory(s, step, t);
    StepKeeps(s, step, t);
  }
}
