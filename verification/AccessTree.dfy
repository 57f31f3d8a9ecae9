/** All the accesses to one address, as a tree of sibling chains, with every message ever sent.
    A step is one atomic update of an access word; any thread may take the next step. */
module AccessTree {
  import opened AccessFlags
  import opened DataAccess

  /** A chain of siblings: below an access of the parent task, or a chain of its own if that task has none. */
  datatype Chain = Root(id: nat) | Under(parent: nat)

  /** `pred` and `chain` record how the access was inserted; `ledger` records which message carries each
      token, `scheduledBy` which one carries the schedule request; `reports` counts the transitions that
      reported the access as deletable; `started` says that its task no longer waits for it. */
  datatype Node = Node(
    ty: AccessType, flags: Flags, succ: Option<nat>, child: Option<nat>,
    chain: Chain, pred: Option<nat>, started: bool, reports: nat,
    ledger: map<Flag, nat>, scheduledBy: Option<nat>)

  /** What remains to be done with a message: deliver it, schedule its sender, then acknowledge. */
  datatype Stage = Deliver | Schedule | Acknowledge | Done

  datatype Sent = Sent(msg: Message, stage: Stage)

  /** Accesses are named by order of creation; `finished` holds the chains that were told that the parent is done. */
  datatype State = State(nodes: seq<Node>, sent: seq<Sent>, bottom: map<Chain, nat>, finished: set<Chain>)

  // ---------------------------------------------------------------------------------------------
  // Atomic updates

  function AfterSchedule(m: Message): Stage {
    if m.flagsAfter != {} then Acknowledge else Done
  }

  function AfterDeliver(m: Message): Stage {
    if m.schedule then Schedule else AfterSchedule(m)
  }

  function FirstStage(m: Message): Stage {
    if m.to.Some? && m.flagsForNext != {} then Deliver else AfterDeliver(m)
  }

  function Post(out: seq<Message>): (r: seq<Sent>)
    ensures |r| == |out|
  {
    seq(|out|, k requires 0 <= k < |out| => Sent(out[k], FirstStage(out[k])))
  }

  function Record(ledger: map<Flag, nat>, out: seq<Message>, n: nat): map<Flag, nat> {
    var l := if |out| > 0 then ledger + (map f | f in out[0].flagsAfter :: n) else ledger;
    if |out| > 1 then l + (map f | f in out[1].flagsAfter :: n + 1) else l
  }

  function RecordSchedule(prior: Option<nat>, out: seq<Message>, n: nat): Option<nat> {
    if ScheduledBy(out, 0) then Some(n) else if ScheduledBy(out, 1) then Some(n + 1) else prior
  }

  function Grown(node: Node, added: Flags, out: seq<Message>, n: nat): Node {
    node.(flags := node.flags + added,
          reports := node.reports + if Complete(node.ty, node.flags + added) then 1 else 0,
          ledger := Record(node.ledger, out, n),
          scheduledBy := RecordSchedule(node.scheduledBy, out, n))
  }

  /** Access `a` gains `added` and sends `out`. */
  function Grow(s: State, a: nat, added: Flags, out: seq<Message>): State
    requires a < |s.nodes|
  {
    s.(nodes := s.nodes[a := Grown(s.nodes[a], added, out, |s.sent|)], sent := s.sent + Post(out))
  }

  function SetStage(s: State, i: nat, stage: Stage): State
    requires i < |s.sent|
  {
    s.(sent := s.sent[i := s.sent[i].(stage := stage)])
  }

  // ---------------------------------------------------------------------------------------------
  // Steps

  datatype Step =
    | Insert(chain: Chain, ty: AccessType, weak: bool)  // register an access at the end of a chain
    | DeliverMessage(i: nat)
    | ScheduleSender(i: nat)
    | AcknowledgeMessage(i: nat)
    | CloseChain(a: nat)                               // the last child gets its parent access as successor
    | Unregister(a: nat)
    | FinishParent(chain: Chain)

  predicate Closed(s: State, a: nat) {
    Under(a) in s.bottom && s.bottom[Under(a)] < |s.nodes| && NextIsParent in s.nodes[s.bottom[Under(a)]].flags
  }

  predicate Enabled(s: State, step: Step) {
    match step
    case Insert(ch, ty, weak) =>
      && ch !in s.finished
      && (ch in s.bottom ==> s.bottom[ch] < |s.nodes|)
      && (ch.Under? ==>
            && ch.parent < |s.nodes| && s.nodes[ch.parent].started
            && Unregistered !in s.nodes[ch.parent].flags && !Closed(s, ch.parent))
    case DeliverMessage(i) =>
      i < |s.sent| && s.sent[i].stage.Deliver? && s.sent[i].msg.to.Some? && s.sent[i].msg.to.value < |s.nodes|
    case ScheduleSender(i) => i < |s.sent| && s.sent[i].stage.Schedule? && s.sent[i].msg.from < |s.nodes|
    case AcknowledgeMessage(i) => i < |s.sent| && s.sent[i].stage.Acknowledge? && s.sent[i].msg.from < |s.nodes|
    case CloseChain(a) =>
      && a < |s.nodes| && s.nodes[a].started && Unregistered !in s.nodes[a].flags && HasChild in s.nodes[a].flags
      && Under(a) in s.bottom && s.bottom[Under(a)] < |s.nodes| && !Closed(s, a)
    case Unregister(a) =>
      && a < |s.nodes| && s.nodes[a].started && Unregistered !in s.nodes[a].flags
      && (HasChild in s.nodes[a].flags ==> Closed(s, a))
    case FinishParent(ch) =>
      && ch in s.bottom && s.bottom[ch] < |s.nodes| && ch !in s.finished
      && (ch.Under? ==> ch.parent < |s.nodes| && Unregistered in s.nodes[ch.parent].flags)
  }

  function NewNode(s: State, chain: Chain, ty: AccessType, weak: bool): Node {
    Node(ty, if weak then {IsWeak} else {}, None, None, chain,
         if chain in s.bottom then Some(s.bottom[chain]) else None,
         weak || ty.ReductionAccess?, 0, map[], None)
  }

  /** The pointers that change before the flags do: new node, successor, child, bottom map. */
  function Prepare(s: State, step: Step): State
    requires Enabled(s, step)
  {
    match step
    case Insert(ch, ty, weak) =>
      var n := |s.nodes|;
      var t := s.(nodes := s.nodes + [NewNode(s, ch, ty, weak)], bottom := s.bottom[ch := n]);
      if ch in s.bottom then t.(nodes := t.nodes[s.bottom[ch] := t.nodes[s.bottom[ch]].(succ := Some(n))])
      else if ch.Under? then t.(nodes := t.nodes[ch.parent := t.nodes[ch.parent].(child := Some(n))])
      else t
    case DeliverMessage(i) => SetStage(s, i, AfterDeliver(s.sent[i].msg))
    case ScheduleSender(i) =>
      var a := s.sent[i].msg.from;
      SetStage(s, i, AfterSchedule(s.sent[i].msg)).(nodes := s.nodes[a := s.nodes[a].(started := true)])
    case AcknowledgeMessage(i) => SetStage(s, i, Done)
    case CloseChain(a) =>
      var last := s.bottom[Under(a)];
      s.(nodes := s.nodes[last := s.nodes[last].(succ := Some(a))])
    case Unregister(a) => s
    case FinishParent(ch) => s.(finished := s.finished + {ch})
  }

  /** The access whose flags the step changes. */
  function Subject(s: State, step: Step): (a: nat)
    requires Enabled(s, step)
    ensures a < |Prepare(s, step).nodes|
  {
    match step
    case Insert(ch, ty, weak) =>
      if ch in s.bottom then s.bottom[ch] else if ch.Under? then ch.parent else |s.nodes|
    case DeliverMessage(i) => s.sent[i].msg.to.value
    case ScheduleSender(i) => s.sent[i].msg.from
    case AcknowledgeMessage(i) => s.sent[i].msg.from
    case CloseChain(a) => s.bottom[Under(a)]
    case Unregister(a) => a
    case FinishParent(ch) => s.bottom[ch]
  }

  /** The flags that the step adds to its subject. */
  function Added(s: State, step: Step): Flags
    requires Enabled(s, step)
  {
    match step
    case Insert(ch, ty, weak) =>
      if ch in s.bottom then {HasNext} else if ch.Under? then {HasChild} else SatFlags(ALL_PERMS)
    case DeliverMessage(i) => s.sent[i].msg.flagsForNext
    case ScheduleSender(i) => {}
    case AcknowledgeMessage(i) => s.sent[i].msg.flagsAfter
    case CloseChain(a) => {HasNext, NextIsParent}
    case Unregister(a) => {Unregistered} + if HasChild in s.nodes[a].flags then {} else ChildDoneFlags(ALL_PERMS)
    case FinishParent(ch) => {ParentDone}
  }

  predicate RunsAutomaton(step: Step) {
    !step.ScheduleSender? && !step.AcknowledgeMessage? && !step.FinishParent?
  }

  /** The step, had its update sent `out`. */
  function Outcome(s: State, step: Step, out: seq<Message>): State
    requires Enabled(s, step)
  {
    Grow(Prepare(s, step), Subject(s, step), Added(s, step), out)
  }

  /** What the step sends: the automaton runs unless the update only records a delivery. */
  function Out(s: State, step: Step): seq<Message>
    requires Enabled(s, step)
  {
    var a := Subject(s, step);
    var n := Prepare(s, step).nodes[a];
    if RunsAutomaton(step) then Emit(a, n.ty, n.flags, Added(s, step), n.succ, n.child) else []
  }

  function Next(s: State, step: Step): State
    requires Enabled(s, step)
  {
    if step.ScheduleSender? then Prepare(s, step) else Outcome(s, step, Out(s, step))
  }

  const EMPTY: State := State([], [], map[], {})

  // ---------------------------------------------------------------------------------------------
  // Invariant

  /** The token was sent and its message has reached the receiver. */
  predicate Delivered(s: State, a: nat, f: Flag)
    requires a < |s.nodes|
  {
    f in s.nodes[a].ledger && s.nodes[a].ledger[f] < |s.sent| && !s.sent[s.nodes[a].ledger[f]].stage.Deliver?
  }

  /** Pointers, chains and bottom map agree around access `a`. */
  predicate Linked(s: State, a: nat)
    requires a < |s.nodes|
  {
    var n := s.nodes[a];
    && (n.pred.Some? ==>
          && n.pred.value < a
          && s.nodes[n.pred.value].succ == Some(a)
          && NextIsParent !in s.nodes[n.pred.value].flags
          && s.nodes[n.pred.value].chain == n.chain)
    && (n.chain.Under? ==> n.chain.parent < a && HasChild in s.nodes[n.chain.parent].flags)
    && (n.pred.None? && n.chain.Under? ==> s.nodes[n.chain.parent].child == Some(a))
    && (HasNext in n.flags <==> n.succ.Some?)
    && (NextIsParent in n.flags ==> n.succ.Some? && n.chain == Under(n.succ.value))
    && (n.succ.Some? && NextIsParent !in n.flags ==>
          a < n.succ.value < |s.nodes| && s.nodes[n.succ.value].pred == Some(a))
    && (HasChild in n.flags <==> n.child.Some?)
    && (n.child.Some? ==>
          && a < n.child.value < |s.nodes|
          && s.nodes[n.child.value].chain == Under(a) && s.nodes[n.child.value].pred.None?)
    && n.chain in s.bottom
    && (n.succ.None? || NextIsParent in n.flags <==> s.bottom[n.chain] == a)
    && (HasChild in n.flags <==> Under(a) in s.bottom)
    && (ParentDone in n.flags <==> n.chain in s.finished && s.bottom[n.chain] == a)
    && (Unregistered in n.flags || HasChild in n.flags ==> n.started)
    && (Unregistered in n.flags && HasChild in n.flags ==> Closed(s, a))
    && (n.chain.Under? && n.chain in s.finished ==> Unregistered in s.nodes[n.chain.parent].flags)
  }

  predicate BottomOk(s: State, ch: Chain) {
    ch in s.bottom ==> s.bottom[ch] < |s.nodes| && s.nodes[s.bottom[ch]].chain == ch
  }

  /** A token is in the ledger exactly when its trigger holds, in one message, and is set when that message is done. */
  predicate TokenOk(s: State, a: nat, f: Flag)
    requires a < |s.nodes|
  {
    var n := s.nodes[a];
    && (f in n.ledger <==> Token(n.ty, f) && Trigger(n.ty, f) <= n.flags)
    && (f in n.ledger ==>
          && n.ledger[f] < |s.sent|
          && s.sent[n.ledger[f]].msg.from == a
          && f in s.sent[n.ledger[f]].msg.flagsAfter
          && (f in n.flags <==> s.sent[n.ledger[f]].stage.Done?))
    && (f in n.flags && (f.NextSat? || f.ChildSat? || f.ReductionCombined?) ==> f in n.ledger)
  }

  predicate ScheduleOk(s: State, a: nat)
    requires a < |s.nodes|
  {
    var n := s.nodes[a];
    if n.ty.ReductionAccess? || IsWeak in n.flags then n.started && n.scheduledBy.None?
    else
      && (n.scheduledBy.Some? <==> Sat(OwnPerm(n.ty)) in n.flags)
      && (n.scheduledBy.Some? ==>
            && n.scheduledBy.value < |s.sent|
            && s.sent[n.scheduledBy.value].msg.from == a && s.sent[n.scheduledBy.value].msg.schedule
            && (n.started <==>
                  s.sent[n.scheduledBy.value].stage.Acknowledge? || s.sent[n.scheduledBy.value].stage.Done?))
      && (n.scheduledBy.None? ==> !n.started)
  }

  ghost predicate MessageOk(s: State, i: nat)
    requires i < |s.sent|
  {
    var m := s.sent[i].msg;
    && m.from < |s.nodes|
    && Shaped(m, m.from, NextIsParent in s.nodes[m.from].flags, s.nodes[m.from].succ, s.nodes[m.from].child)
    && (m.to.Some? ==> m.to.value < |s.nodes|)
    && (forall f :: f in m.flagsAfter ==> f in s.nodes[m.from].ledger && s.nodes[m.from].ledger[f] == i)
    && (m.schedule ==> s.nodes[m.from].scheduledBy == Some(i))
    && (s.sent[i].stage.Deliver? ==> m.to.Some?)
    && (s.sent[i].stage.Schedule? ==> m.schedule)
    && (s.sent[i].stage.Acknowledge? ==> m.flagsAfter != {})
  }

  /** Permission `p` has come in from the predecessor, from the parent access, or from outside. */
  predicate Arrived(s: State, b: nat, p: Perm)
    requires b < |s.nodes|
  {
    var n := s.nodes[b];
    if n.pred.Some? then n.pred.value < |s.nodes| && Delivered(s, n.pred.value, NextSat(p))
    else if n.chain.Under? then n.chain.parent < |s.nodes| && Delivered(s, n.chain.parent, ChildSat(p))
    else true
  }

  predicate ArrivalOk(s: State, b: nat, p: Perm)
    requires b < |s.nodes|
  {
    Sat(p) in s.nodes[b].flags <==> Arrived(s, b, p)
  }

  /** Permission `p` has come back from the children, or there never were any. */
  predicate Returned(s: State, a: nat, p: Perm)
    requires a < |s.nodes|
  {
    if HasChild in s.nodes[a].flags then Closed(s, a) && Delivered(s, s.bottom[Under(a)], NextSat(p))
    else Unregistered in s.nodes[a].flags
  }

  predicate ReturnOk(s: State, a: nat, p: Perm)
    requires a < |s.nodes|
  {
    ChildDone(p) in s.nodes[a].flags <==> Returned(s, a, p)
  }

  predicate ReportOk(s: State, a: nat)
    requires a < |s.nodes|
  {
    s.nodes[a].reports == if Complete(s.nodes[a].ty, s.nodes[a].flags) then 1 else 0
  }

  ghost predicate Inv(s: State) {
    && (forall a :: 0 <= a < |s.nodes| ==> Linked(s, a))
    && (forall ch :: BottomOk(s, ch))
    && (forall a, f :: 0 <= a < |s.nodes| ==> TokenOk(s, a, f))
    && (forall a :: 0 <= a < |s.nodes| ==> ScheduleOk(s, a))
    && (forall i :: 0 <= i < |s.sent| ==> MessageOk(s, i))
    && (forall b, p :: 0 <= b < |s.nodes| ==> ArrivalOk(s, b, p))
    && (forall a, p :: 0 <= a < |s.nodes| ==> ReturnOk(s, a, p))
    && (forall a :: 0 <= a < |s.nodes| ==> ReportOk(s, a))
  }
}
