/** The counter that decides when a reduction is combined, over the whole tree of accesses. A child access below a weak
    reduction joins the reduction of its parent. Write permission reaches every participant, but only its first arrival
    may count; the threads tell by remembering the last reduction they saw. */
module ReductionInfo {
  import opened AccessFlags
  import opened DataAccess
  import Tree = AccessTree
  import opened ReductionOrder

  /** `first` is the access that it was created for; `arrived` says that a write arrival has been counted. */
  datatype Reduction = Reduction(first: nat, count: int, closed: bool, arrived: bool, combinations: nat)

  /** One call that propagates messages, from the access where it started: the message it handles, those it still has to
      handle, last in first out, and the reduction that it saw last. */
  datatype Call = Call(start: nat, current: Option<nat>, stack: seq<nat>, seen: Option<nat>)

  /** `red` is the reduction of each access, if it participates in one, and `registered` says that it still counts in
      it; `entry` holds the open reductions of the bottom maps, `closing` those that have left it but are not yet marked
      as closed; `owner` is the call that handles a message, and `handled` holds the messages whose combination request
      has been handled. */
  datatype State = State(
    tree: Tree.State, red: seq<Option<nat>>, registered: seq<bool>,
    reds: seq<Reduction>, entry: map<Tree.Chain, nat>, closing: set<nat>,
    calls: seq<Call>, owner: seq<nat>, handled: set<nat>)

  datatype Step =
    | Insert(chain: Tree.Chain, ty: AccessType, weak: bool, same: bool)  // `same`: operator and length match
    | CloseChain(access: nat)
    | Release(access: nat)        // the participant is released
    | Unregister(access: nat)
    | FinishParent(chain: Tree.Chain)
    | Detach(chain: Tree.Chain)   // a taskwait, or the end of the parent, takes the open reduction
    | MarkClosed(red: nat)
    | Take(call: nat)             // the call goes on to its next message
    | Deliver(call: nat)
    | Schedule(call: nat)
    | Combine(call: nat)
    | Acknowledge(call: nat)

  const EMPTY := State(Tree.EMPTY, [], [], [], map[], {}, [], [], {})

  // ---------------------------------------------------------------------------------------------
  // Registration

  /** The chain hangs below a participant of a reduction. */
  predicate Inner(s: State, ch: Tree.Chain) {
    ch.Under? && ch.parent < |s.red| && s.red[ch.parent].Some?
  }

  function Opened(s: State, ch: Tree.Chain): Option<nat> {
    if ch in s.entry then Some(s.entry[ch]) else None
  }

  /** The first access of a chain looks for a reduction at the parent access. */
  function Inherited(s: State, ch: Tree.Chain): Option<nat> {
    if ch !in s.tree.bottom && Inner(s, ch) then s.red[ch.parent] else None
  }

  /** The reduction that registration finds. */
  function Prior(s: State, ch: Tree.Chain, ty: AccessType): Option<nat> {
    if Opened(s, ch).None? && ty.ReductionAccess? then Inherited(s, ch) else Opened(s, ch)
  }

  /** The reduction of the new access: what was found if it matches, else a new one. */
  function Joined(s: State, ch: Tree.Chain, ty: AccessType, same: bool): Option<nat> {
    if !ty.ReductionAccess? then None
    else if Prior(s, ch, ty).None? || !same then Some(|s.reds|)
    else Prior(s, ch, ty)
  }

  /** A new reduction counts its first participant, its closing, and the arrival of write permission. */
  function Registered(reds: seq<Reduction>, red: Option<nat>, access: nat): seq<Reduction> {
    if red.None? then reds
    else if red.value < |reds| then reds[red.value := reds[red.value].(count := reds[red.value].count + 1)]
    else reds + [Reduction(access, 3, false, false, 0)]
  }

  /** One event less to wait for; at zero the reduction is combined. */
  function Decrement(r: Reduction): Reduction {
    r.(count := r.count - 1, combinations := if r.count - 1 == 0 then r.combinations + 1 else r.combinations)
  }

  // ---------------------------------------------------------------------------------------------
  // Steps

  /** What the step does to the tree, if anything. */
  function TreeStep(s: State, step: Step): Option<Tree.Step> {
    match step
    case Insert(ch, ty, weak, _) => Some(Tree.Insert(ch, ty, weak))
    case CloseChain(a) => Some(Tree.CloseChain(a))
    case Unregister(a) => Some(Tree.Unregister(a))
    case FinishParent(ch) => Some(Tree.FinishParent(ch))
    case Deliver(k) => if Handling(s, k) then Some(Tree.DeliverMessage(Current(s, k))) else None
    case Schedule(k) => if Handling(s, k) then Some(Tree.ScheduleSender(Current(s, k))) else None
    case Acknowledge(k) => if Handling(s, k) then Some(Tree.AcknowledgeMessage(Current(s, k))) else None
    case _ => None
  }

  predicate Handling(s: State, k: nat) {
    k < |s.calls| && s.calls[k].current.Some? && s.calls[k].current.value < |s.tree.sent|
  }

  function Current(s: State, k: nat): nat
    requires Handling(s, k)
  {
    s.calls[k].current.value
  }

  predicate Sized(s: State) {
    && |s.red| == |s.registered| == |s.tree.nodes| && |s.owner| == |s.tree.sent|
    && (forall x :: 0 <= x < |s.red| && s.red[x].Some? ==> s.red[x].value < |s.reds|)
    && (forall ch :: ch in s.entry ==> s.entry[ch] < |s.reds|)
    && (forall r :: r in s.closing ==> r < |s.reds|)
  }

  /** The reduction of the access that sent message `i`. */
  function RedOf(s: State, i: nat): Option<nat> {
    if i < |s.tree.sent| && s.tree.sent[i].msg.from < |s.red| then s.red[s.tree.sent[i].msg.from] else None
  }

  /** Below a participant there are only accesses to the same reduction, and its task must not have released it. */
  predicate WellNested(s: State, ch: Tree.Chain, ty: AccessType, same: bool) {
    Inner(s, ch) ==> ty.ReductionAccess? && same && ch.parent < |s.registered| && s.registered[ch.parent]
  }

  /** What the step needs apart from the tree. */
  predicate Ready(s: State, step: Step) {
    Sized(s) &&
    match step
    case Insert(ch, ty, _, same) => WellNested(s, ch, ty, same)
    case Release(a) => a < |s.red| && s.red[a].Some? && s.registered[a]
    case Unregister(a) => a < |s.red| && !s.registered[a]
    case CloseChain(a) => a < |s.red| && Tree.Under(a) in s.tree.bottom
    case FinishParent(_) => true
    case Detach(ch) => ch in s.entry && !Inner(s, ch)
    case MarkClosed(r) => r in s.closing
    case Take(k) =>
      && k < |s.calls| && s.calls[k].stack != []
      && (s.calls[k].current.Some? ==> Handling(s, k) && s.tree.sent[Current(s, k)].stage.Done?)
    case Combine(k) =>
      && Handling(s, k) && s.tree.sent[Current(s, k)].stage.Acknowledge? && Unhandled(s, Current(s, k))
      && RedOf(s, Current(s, k)).Some?
    case Acknowledge(k) => Handling(s, k) && !Unhandled(s, Current(s, k))
    case _ => Handling(s, step.call)
  }

  predicate Enabled(s: State, step: Step) {
    Ready(s, step) && (TreeStep(s, step).Some? ==> Tree.Enabled(s.tree, TreeStep(s, step).value))
  }

  predicate Unhandled(s: State, i: nat) {
    i < |s.tree.sent| && s.tree.sent[i].msg.combine && i !in s.handled
  }

  function TreeAfter(s: State, step: Step): Tree.State
    requires Enabled(s, step)
  {
    if TreeStep(s, step).Some? then Tree.Next(s.tree, TreeStep(s, step).value) else s.tree
  }

  /** The messages sent since there were `n`. */
  function Since(n: nat, m: nat): (r: seq<nat>)
    ensures |r| == (if m <= n then 0 else m - n)
    ensures forall i :: 0 <= i < |r| ==> r[i] == n + i
  {
    if m <= n then [] else seq(m - n, i requires 0 <= i < m - n => n + i)
  }

  function Owners(n: nat, k: nat): (r: seq<nat>)
    ensures |r| == n && forall i :: 0 <= i < n ==> r[i] == k
  {
    seq(n, i => k)
  }

  /** A new call handles what the update of `start` has sent. */
  function NewCall(s: State, t: Tree.State, start: nat, seen: Option<nat>): State {
    var sent := Since(|s.tree.sent|, |t.sent|);
    s.(tree := t, calls := s.calls + [Call(start, None, sent, seen)], owner := s.owner + Owners(|sent|, |s.calls|))
  }

  /** The access that sends what the registration at the end of `ch` sends. */
  function Extended(s: State, ch: Tree.Chain): nat {
    if ch in s.tree.bottom then s.tree.bottom[ch] else if ch.Under? then ch.parent else |s.tree.nodes|
  }

  function Next(s: State, step: Step): State
    requires Enabled(s, step)
  {
    Apply(s, step, TreeAfter(s, step))
  }

  /** The step, had it left the tree `t`. */
  function Apply(s: State, step: Step, t: Tree.State): State
    requires Ready(s, step)
  {
    match step
    case Insert(ch, ty, weak, same) =>
      var prior, red := Prior(s, ch, ty), Joined(s, ch, ty, same);
      NewCall(s, t, Extended(s, ch), prior)
        .(red := s.red + [red], registered := s.registered + [red.Some?],
          reds := Registered(s.reds, red, |s.tree.nodes|),
          entry := if red.Some? then s.entry[ch := red.value] else s.entry - {ch},
          closing := if prior.Some? && prior != red then s.closing + {prior.value} else s.closing)
    case CloseChain(a) => NewCall(s, t, s.tree.bottom[Tree.Under(a)], s.red[a])
    case Unregister(a) => NewCall(s, t, a, s.red[a])
    case Release(a) =>
      var r := s.red[a].value;
      s.(registered := s.registered[a := false], reds := s.reds[r := Decrement(s.reds[r])])
    case FinishParent(_) => s.(tree := t)
    case Detach(ch) => s.(entry := s.entry - {ch}, closing := s.closing + {s.entry[ch]})
    case MarkClosed(r) => s.(reds := s.reds[r := Decrement(s.reds[r]).(closed := true)], closing := s.closing - {r})
    case Take(k) =>
      var c := s.calls[k];
      var n := |c.stack| - 1;
      s.(calls := s.calls[k := c.(current := Some(c.stack[n]), stack := c.stack[..n])])
    case Deliver(k) =>
      var sent := Since(|s.tree.sent|, |t.sent|);
      s.(tree := t, calls := s.calls[k := s.calls[k].(stack := s.calls[k].stack + sent)],
          owner := s.owner + Owners(|sent|, k))
    case Schedule(_) => s.(tree := t)
    case Acknowledge(_) => s.(tree := t)
    case Combine(k) =>
      var i := Current(s, k);
      var red := RedOf(s, i);
      var r := red.value;
      s.(handled := s.handled + {i}, calls := s.calls[k := s.calls[k].(seen := red)],
         reds := if s.calls[k].seen != red then s.reds[r := Decrement(s.reds[r]).(arrived := true)] else s.reds)
  }

  // ---------------------------------------------------------------------------------------------
  // The invariant

  // Reductions and the tree

  predicate StructOk(s: State, x: nat)
    requires Sized(s) && x < |s.red|
  {
    var n := s.tree.nodes[x];
    && (s.red[x].Some? <==> n.ty.ReductionAccess?)
    && (s.registered[x] ==> s.red[x].Some? && Unregistered !in n.flags)
    && (s.red[x].Some? ==> s.reds[s.red[x].value].first == x || InFlow(s, x))
    && (Inner(s, n.chain) ==> s.red[x] == s.red[n.chain.parent])
  }

  /** The access from which write permission comes is in the same reduction. */
  predicate InFlow(s: State, x: nat)
    requires Sized(s) && x < |s.red|
  {
    var w := FlowPred(s.tree.nodes[x]);
    w.Some? && w.value < x && s.red[w.value] == s.red[x]
  }

  predicate FirstOk(s: State, r: nat)
    requires r < |s.reds|
  {
    var x := s.reds[r].first;
    x < |s.red| && x < |s.tree.nodes| && s.red[x] == Some(r) && !Inner(s, s.tree.nodes[x].chain)
  }

  /** The chain in which the reduction was created. */
  function Home(s: State, r: nat): Tree.Chain
    requires r < |s.reds|
  {
    if s.reds[r].first < |s.tree.nodes| then s.tree.nodes[s.reds[r].first].chain else Tree.Root(0)
  }

  predicate EntryOk(s: State, ch: Tree.Chain)
    requires Sized(s)
  {
    && (ch in s.entry ==>
          && ch in s.tree.bottom && s.tree.bottom[ch] < |s.red| && s.red[s.tree.bottom[ch]] == Some(s.entry[ch])
          && (Inner(s, ch) || Home(s, s.entry[ch]) == ch))
    && (Inner(s, ch) && ch in s.tree.bottom ==> ch in s.entry)
  }

  ghost predicate Structure(s: State) {
    && Sized(s)
    && (forall x :: 0 <= x < |s.red| ==> StructOk(s, x))
    && (forall r :: 0 <= r < |s.reds| ==> FirstOk(s, r))
    && (forall ch :: EntryOk(s, ch))
  }

  // The counter

  /** The participants of the reduction among the first `n` accesses that are not yet released. */
  function Participants(red: seq<Option<nat>>, registered: seq<bool>, n: nat, r: nat): nat
    requires n <= |red| && n <= |registered|
  {
    if n == 0 then 0 else Participants(red, registered, n - 1, r) + (if red[n - 1] == Some(r)
      && registered[n - 1] then 1 else 0)
  }

  predicate Open(s: State, r: nat)
    requires r < |s.reds|
  {
    Home(s, r) in s.entry && s.entry[Home(s, r)] == r
  }

  /** The combination request of the first participant has been handled. */
  predicate ArrivalHandled(s: State, r: nat)
    requires r < |s.reds|
  {
    var x := s.reds[r].first;
    x < |s.tree.nodes| && ReductionCombined in s.tree.nodes[x].ledger
      && s.tree.nodes[x].ledger[ReductionCombined] in s.handled
  }

  predicate RedOk(s: State, r: nat)
    requires Sized(s) && r < |s.reds|
  {
    var red := s.reds[r];
    && red.count == (if red.closed then 0 else 1) + (if red.arrived then 0
       else 1) + Participants(s.red, s.registered, |s.red|, r)
    && red.combinations == (if red.count == 0 then 1 else 0)
    && (red.closed <==> r !in s.closing && !Open(s, r))
    && (r in s.closing ==> !Open(s, r))
    && (red.arrived <==> ArrivalHandled(s, r))
  }

  ghost predicate Counters(s: State) {
    Sized(s) && forall r :: 0 <= r < |s.reds| ==> RedOk(s, r)
  }

  // Messages and calls

  predicate CombineOk(s: State, i: nat)
    requires i < |s.tree.sent|
  {
    var e := s.tree.sent[i];
    && (e.msg.combine <==> ReductionCombined in e.msg.flagsAfter)
    && (i in s.handled ==> e.msg.combine && (e.stage.Acknowledge? || e.stage.Done?))
    && (e.msg.combine && e.stage.Done? ==> i in s.handled)
  }

  predicate PastDelivery(s: State, c: Call) {
    c.current.Some? ==> c.current.value < |s.tree.sent| && !s.tree.sent[c.current.value].stage.Deliver?
  }

  /** What waits in the stack has not been touched, and what a participant sent is on top and comes next. */
  predicate WaitsOk(s: State, k: nat, p: nat)
    requires k < |s.calls| && p < |s.calls[k].stack| && Sized(s)
  {
    var c := s.calls[k];
    var i := c.stack[p];
    && i < |s.tree.sent| && s.owner[i] == k && c.current != Some(i)
    && s.tree.sent[i].stage == Tree.FirstStage(s.tree.sent[i].msg)
    && (RedOf(s, i).Some? ==> p == |c.stack| - 1 && PastDelivery(s, c))
  }

  predicate CallOk(s: State, k: nat)
    requires k < |s.calls| && Sized(s)
  {
    var c := s.calls[k];
    && c.start < |s.tree.nodes|
    && (c.current.Some? ==> c.current.value < |s.tree.sent| && s.owner[c.current.value] == k)
    && (forall p :: 0 <= p < |c.stack| ==> WaitsOk(s, k, p))
    && (forall p, q :: 0 <= p < q < |c.stack| ==> c.stack[p] != c.stack[q])
  }

  /** The message is with its call until it is done. */
  predicate MailOk(s: State, i: nat)
    requires i < |s.tree.sent| && Sized(s)
  {
    s.owner[i] < |s.calls|
      && (s.tree.sent[i].stage.Done? || s.calls[s.owner[i]].current == Some(i) || i in s.calls[s.owner[i]].stack)
  }

  ghost predicate Mail(s: State) {
    && Sized(s)
    && (forall i :: 0 <= i < |s.tree.sent| ==> CombineOk(s, i) && MailOk(s, i))
    && (forall k :: 0 <= k < |s.calls| ==> CallOk(s, k))
    && (forall i :: i in s.handled ==> i < |s.tree.sent|)
  }

  // What the calls remember

  /** The reduction that the call will have seen when it goes on to its next message. */
  function Mind(s: State, k: nat): Option<nat>
    requires k < |s.calls|
  {
    var c := s.calls[k];
    if c.current.Some? && Unhandled(s, c.current.value) then RedOf(s, c.current.value) else c.seen
  }

  /** Write permission has arrived at the first participant. */
  predicate Begun(s: State, r: nat)
    requires r < |s.reds|
  {
    s.reds[r].first < |s.tree.nodes| && Sat(Write) in s.tree.nodes[s.reds[r].first].flags
  }

  predicate SeenOk(s: State, k: nat)
    requires k < |s.calls|
  {
    var c := s.calls[k];
    c.seen.Some? ==>
      c.seen.value < |s.reds| && (Begun(s, c.seen.value) || (c.start < |s.red| && s.red[c.start] == c.seen))
  }

  /** Write permission on its way from one participant to another comes in a call that has seen their reduction. */
  predicate CarrierOk(s: State, i: nat)
    requires i < |s.tree.sent| && Sized(s)
  {
    var e, k := s.tree.sent[i], s.owner[i];
    k < |s.calls| && e.stage.Deliver? && CarriesWrite(e.msg) && RedOf(s, i).Some? && !e.msg.combine
      && e.msg.to.Some? && e.msg.to.value < |s.red| && s.red[e.msg.to.value] == RedOf(s, i)
    ==> Mind(s, k) == RedOf(s, i)
  }

  /** A call that is about to handle an arrival has seen the reduction already, unless it is the first arrival. */
  predicate RequestOk(s: State, i: nat)
    requires i < |s.tree.sent| && Sized(s)
  {
    var k := s.owner[i];
    k < |s.calls| && Unhandled(s, i) ==>
      && RedOf(s, i).Some?
      && ((if s.calls[k].current == Some(i) then s.calls[k].seen else Mind(s, k)) == RedOf(s, i)
          <==> s.reds[RedOf(s, i).value].first != s.tree.sent[i].msg.from)
  }

  ghost predicate PlaceOk(s: State, i: nat)
    requires i < |s.tree.sent| && Sized(s)
  {
    var e, k := s.tree.sent[i], s.owner[i];
    k < |s.calls| && !e.stage.Done? ==> MayFollow(s.tree, s.calls[k].start, e.msg.from, GoesDown(e.msg))
  }

  ghost predicate Memory(s: State) {
    && Sized(s)
    && (forall k :: 0 <= k < |s.calls| ==> SeenOk(s, k))
    && (forall i :: 0 <= i < |s.tree.sent| ==> CarrierOk(s, i) && RequestOk(s, i) && PlaceOk(s, i))
  }

  ghost predicate Inv(s: State) {
    Tree.Inv(s.tree) && Structure(s) && Counters(s) && Mail(s) && Memory(s)
  }
}
