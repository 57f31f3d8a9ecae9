/** One access: the five automata, the disposal condition, and the two atomic updates.
    The automata are methods that follow the source's masks; each is proved against the permissions
    whose propagation condition has just become true. */
module DataAccess {
  import opened AccessFlags

  // ---------------------------------------------------------------------------------------------
  // What the automata mean

  /** Types whose automaton runs once per destination. */
  predicate TwoWay(ty: AccessType) {
    ty.ReadAccess? || ty.ConcurrentAccess? || ty.CommutativeAccess?
  }

  /** The permission that lets an access of this type start. */
  function OwnPerm(ty: AccessType): Perm {
    match ty
    case ReadAccess => Read
    case ConcurrentAccess => Concurrent
    case CommutativeAccess => Commutative
    case _ => Write
  }

  /** A sharing access passes its own permission on without waiting to be unregistered. */
  predicate Shares(ty: AccessType, p: Perm) {
    TwoWay(ty) && p == OwnPerm(ty)
  }

  /** Flags that must all be set before permission `p` goes to the successor or back to the parent. */
  function NextCondition(ty: AccessType, p: Perm): Flags {
    if Shares(ty, p) then {Sat(p), HasNext}
    else if TwoWay(ty) then {Sat(OwnPerm(ty)), Sat(p), Unregistered, ChildDone(p), HasNext}
    else {Sat(p), HasNext, Unregistered, ChildDone(p)}
  }

  /** Flags that must all be set before permission `p` goes to the first child. */
  function ChildCondition(p: Perm): Flags {
    {Sat(p), HasChild}
  }

  /** A condition is enabled by an update when the update completes it. */
  predicate Enables(cond: Flags, held: Flags, added: Flags) {
    cond <= held + added && !(cond <= held)
  }

  function NextPerms(ty: AccessType, held: Flags, added: Flags): set<Perm> {
    set p: Perm | Enables(NextCondition(ty, p), held, added)
  }

  function ChildPerms(held: Flags, added: Flags): set<Perm> {
    set p: Perm | Enables(ChildCondition(p), held, added)
  }

  /** The assertions of the write, readwrite and reduction automata: never both destinations at once. */
  predicate SingleDestination(ty: AccessType, held: Flags, added: Flags) {
    NextPerms(ty, held, added) == {} || ChildPerms(held, added) == {}
  }

  predicate Schedules(ty: AccessType, held: Flags, added: Flags) {
    !ty.ReductionAccess? && IsWeak !in held && Sat(OwnPerm(ty)) in added
  }

  predicate Combines(ty: AccessType, added: Flags) {
    ty.ReductionAccess? && Sat(Write) in added
  }

  function ForwardFlags(upward: bool, ps: set<Perm>): Flags {
    if upward then ChildDoneFlags(ps) else SatFlags(ps)
  }

  function ChildMessage(self: nat, ps: set<Perm>, child: Option<nat>, schedule: bool): Message {
    Message(SatFlags(ps), ChildSatFlags(ps), self, if ps == {} then None else child, schedule, false)
  }

  function NextMessage(self: nat, ps: set<Perm>, upward: bool, succ: Option<nat>, schedule: bool): Message {
    Message(ForwardFlags(upward, ps), NextSatFlags(ps), self, if ps == {} then None else succ, schedule, false)
  }

  /** Two messages at most, one per destination; only one of them asks to schedule. */
  function TwoMessages(c: Message, n: Message): seq<Message> {
    (if c.to.Some? then [c] else []) + (if n.to.Some? || n.schedule then [n] else [])
  }

  function OneMessage(m: Message, combine: bool): seq<Message> {
    if m.to.Some? || m.schedule || combine then
      [m.(combine := combine, flagsAfter := m.flagsAfter + if combine then {ReductionCombined} else {})]
    else []
  }

  function Outgoing(self: nat, twoWay: bool, cs: set<Perm>, ns: set<Perm>, schedule: bool, combine: bool, upward: bool,
                    succ: Option<nat>, child: Option<nat>): seq<Message>
  {
    var c := ChildMessage(self, cs, child, schedule);
    if twoWay then TwoMessages(c, NextMessage(self, ns, upward, succ, schedule && c.to.None?))
    else OneMessage(if cs != {} then c else NextMessage(self, ns, upward, succ, schedule), combine)
  }

  /** The messages that an update of an access produces. */
  function Emit(self: nat, ty: AccessType, held: Flags, added: Flags, succ: Option<nat>,
      child: Option<nat>): seq<Message>
  {
    Outgoing(self, TwoWay(ty), ChildPerms(held, added), NextPerms(ty, held, added),
             Schedules(ty, held, added), Combines(ty, added), NextIsParent in held + added, succ, child)
  }

  /** An access can be deleted once every permission has passed through it in every direction it is linked to. */
  predicate Complete(ty: AccessType, all: Flags) {
    && (forall p :: Sat(p) in all)
    && Unregistered in all
    && (HasChild in all ==> forall p :: ChildSat(p) in all && ChildDone(p) in all)
    && (HasNext in all || NextIsParent in all ==> forall p :: NextSat(p) in all)
    && (NextIsParent in all || HasNext !in all ==> ParentDone in all)
    && (ty.ReductionAccess? ==> ReductionCombined in all)
  }

  // ---------------------------------------------------------------------------------------------
  // What an update sends, token by token

  /** A token is a flag that acknowledges something sent: a permission passed on, or a combination. */
  predicate Token(ty: AccessType, f: Flag) {
    f.NextSat? || f.ChildSat? || (f.ReductionCombined? && ty.ReductionAccess?)
  }

  /** The flags that must be set before the token is sent. */
  function Trigger(ty: AccessType, f: Flag): Flags {
    match f
    case NextSat(p) => NextCondition(ty, p)
    case ChildSat(p) => ChildCondition(p)
    case _ => {Sat(Write)}
  }

  /** The tokens that an update enables. */
  function Raised(ty: AccessType, held: Flags, added: Flags): Flags {
    NextSatFlags(NextPerms(ty, held, added)) + ChildSatFlags(ChildPerms(held, added))
    + (if Combines(ty, added) then {ReductionCombined} else {})
  }

  lemma RaisedIsEnabled(ty: AccessType, held: Flags, added: Flags, f: Flag)
    requires held !! added
    ensures f in Raised(ty, held, added) <==> Token(ty, f) && Enables(Trigger(ty, f), held, added)
  {
    if Sat(Write) in added {
      assert Sat(Write) !in held;
    }
  }

  /** A message carries one flag for its receiver per permission token, and its tokens all go one way. */
  ghost predicate Shaped(m: Message, self: nat, upward: bool, succ: Option<nat>, child: Option<nat>) {
    && m.from == self
    && (forall p :: NextSat(p) in m.flagsAfter ==>
          succ.Some? && m.to == succ && (if upward then ChildDone(p) else Sat(p)) in m.flagsForNext)
    && (forall p :: ChildSat(p) in m.flagsAfter ==> child.Some? && m.to == child && Sat(p) in m.flagsForNext)
    && (forall p :: Sat(p) in m.flagsForNext ==> ChildSat(p) in m.flagsAfter || (!upward && NextSat(p) in m.flagsAfter))
    && (forall p :: ChildDone(p) in m.flagsForNext ==> upward && NextSat(p) in m.flagsAfter)
    && (forall g :: g in m.flagsForNext ==> g.Sat? || g.ChildDone?)
    && (forall g :: g in m.flagsAfter ==> g.NextSat? || g.ChildSat? || g.ReductionCombined?)
    && (forall p, q :: !(NextSat(p) in m.flagsAfter && ChildSat(q) in m.flagsAfter))
    && (m.flagsForNext != {} <==> m.to.Some?)
  }

  /** What is sent when an update raises the tokens `raised`: each token in exactly one message,
      and the schedule request, if any, in exactly one message. */
  ghost predicate Sends(self: nat, raised: Flags, schedule: bool, upward: bool,
                        succ: Option<nat>, child: Option<nat>, out: seq<Message>) {
    && |out| <= 2
    && (forall k :: 0 <= k < |out| ==> Shaped(out[k], self, upward, succ, child))
    && (forall f :: f in raised <==> CarriedBy(out, 0, f) || CarriedBy(out, 1, f))
    && (forall f :: !(CarriedBy(out, 0, f) && CarriedBy(out, 1, f)))
    && (schedule <==> ScheduledBy(out, 0) || ScheduledBy(out, 1))
    && !(ScheduledBy(out, 0) && ScheduledBy(out, 1))
    && (forall k :: 0 <= k < |out| ==> out[k].flagsForNext != {} || out[k].schedule || out[k].flagsAfter != {})
  }

  predicate CarriedBy(out: seq<Message>, k: nat, f: Flag) {
    k < |out| && f in out[k].flagsAfter
  }

  predicate ScheduledBy(out: seq<Message>, k: nat) {
    k < |out| && out[k].schedule
  }

  lemma ChildMessageShaped(self: nat, ps: set<Perm>, upward: bool, succ: Option<nat>, child: Option<nat>,
      schedule: bool)
    requires ps != {} ==> child.Some?
    ensures Shaped(ChildMessage(self, ps, child, schedule), self, upward, succ, child)
  {
    if p :| p in ps {
      assert Sat(p) in SatFlags(ps);
    }
  }

  lemma NextMessageShaped(self: nat, ps: set<Perm>, upward: bool, succ: Option<nat>, child: Option<nat>, schedule: bool)
    requires ps != {} ==> succ.Some?
    ensures Shaped(NextMessage(self, ps, upward, succ, schedule), self, upward, succ, child)
  {
    if p :| p in ps {
      assert Sat(p) in SatFlags(ps) && ChildDone(p) in ChildDoneFlags(ps);
    }
  }

  lemma TwoMessagesSend(self: nat, c: Message, n: Message, schedule: bool, upward: bool, succ: Option<nat>,
      child: Option<nat>)
    requires Shaped(c, self, upward, succ, child) && Shaped(n, self, upward, succ, child)
    requires c.flagsAfter !! n.flagsAfter
    requires c.to.None? ==> c.flagsAfter == {}
    requires n.to.None? ==> n.flagsAfter == {}
    requires c.schedule == schedule && n.schedule == (schedule && c.to.None?)
    ensures Sends(self, c.flagsAfter + n.flagsAfter, schedule, upward, succ, child, TwoMessages(c, n))
  {
  }

  lemma CombineShaped(m: Message, combine: bool, self: nat, upward: bool, succ: Option<nat>, child: Option<nat>)
    requires Shaped(m, self, upward, succ, child)
    ensures var after := m.flagsAfter + if combine then {ReductionCombined} else {};
            Shaped(m.(combine := combine, flagsAfter := after), self, upward, succ, child)
  {
  }

  lemma OneMessageSends(self: nat, m: Message, combine: bool, upward: bool, succ: Option<nat>, child: Option<nat>)
    requires Shaped(m, self, upward, succ, child) && (m.to.None? ==> m.flagsAfter == {})
    ensures Sends(self, m.flagsAfter + (if combine then {ReductionCombined} else {}), m.schedule, upward, succ, child,
            OneMessage(m, combine))
  {
    hide Shaped;
    CombineShaped(m, combine, self, upward, succ, child);
    assert m.to.Some? ==> m.flagsForNext != {} by { MessageForSomebody(m, self, upward, succ, child); }
  }

  lemma MessageForSomebody(m: Message, self: nat, upward: bool, succ: Option<nat>, child: Option<nat>)
    requires Shaped(m, self, upward, succ, child)
    ensures m.to.Some? <==> m.flagsForNext != {}
  {
  }

  lemma TwoWaySends(self: nat, cs: set<Perm>, ns: set<Perm>, schedule: bool, upward: bool, succ: Option<nat>,
      child: Option<nat>)
    requires (ns != {} ==> succ.Some?) && (cs != {} ==> child.Some?)
    ensures Sends(self, NextSatFlags(ns) + ChildSatFlags(cs), schedule, upward, succ, child,
                  Outgoing(self, true, cs, ns, schedule, false, upward, succ, child))
  {
    var c := ChildMessage(self, cs, child, schedule);
    var n := NextMessage(self, ns, upward, succ, schedule && c.to.None?);
    ChildMessageShaped(self, cs, upward, succ, child, schedule);
    NextMessageShaped(self, ns, upward, succ, child, schedule && c.to.None?);
    TwoMessagesSend(self, c, n, schedule, upward, succ, child);
    assert c.flagsAfter + n.flagsAfter == NextSatFlags(ns) + ChildSatFlags(cs);
  }

  lemma OneWaySends(self: nat, cs: set<Perm>, ns: set<Perm>, schedule: bool, combine: bool, upward: bool,
                    succ: Option<nat>, child: Option<nat>)
    requires (ns != {} ==> succ.Some?) && (cs != {} ==> child.Some?) && (cs == {} || ns == {})
    ensures Sends(self, NextSatFlags(ns) + ChildSatFlags(cs) + (if combine then {ReductionCombined} else {}),
                  schedule, upward, succ, child,
                  Outgoing(self, false, cs, ns, schedule, combine, upward, succ, child))
  {
    ChildMessageShaped(self, cs, upward, succ, child, schedule);
    NextMessageShaped(self, ns, upward, succ, child, schedule);
    var m := if cs != {} then ChildMessage(self, cs, child, schedule)
        else NextMessage(self, ns, upward, succ, schedule);
    OneMessageSends(self, m, combine, upward, succ, child);
    assert m.flagsAfter == NextSatFlags(ns) + ChildSatFlags(cs);
  }

  lemma OutgoingSends(self: nat, twoWay: bool, cs: set<Perm>, ns: set<Perm>, schedule: bool, combine: bool,
      upward: bool,
                      succ: Option<nat>, child: Option<nat>)
    requires ns != {} ==> succ.Some?
    requires cs != {} ==> child.Some?
    requires twoWay ==> !combine
    requires !twoWay ==> cs == {} || ns == {}
    ensures Sends(self, NextSatFlags(ns) + ChildSatFlags(cs) + (if combine then {ReductionCombined} else {}),
                  schedule, upward, succ, child,
                  Outgoing(self, twoWay, cs, ns, schedule, combine, upward, succ, child))
  {
    if twoWay {
      TwoWaySends(self, cs, ns, schedule, upward, succ, child);
      assert NextSatFlags(ns) + ChildSatFlags(cs) + {} == NextSatFlags(ns) + ChildSatFlags(cs);
    } else {
      OneWaySends(self, cs, ns, schedule, combine, upward, succ, child);
    }
  }

  function NoMessage(self: nat): Message { Message({}, {}, self, None, false, false) }

  /** An update with one destination sends one message at most. */
  lemma OneDestinationOneMessage(self: nat, ty: AccessType, held: Flags, added: Flags, succ: Option<nat>,
      child: Option<nat>)
    requires ChildPerms(held, added) == {} || NextPerms(ty, held, added) == {}
    requires HasChild in held + added ==> child.Some?
    ensures |Emit(self, ty, held, added, succ, child)| <= 1
  {
    PermsNeedLink(ty, held, added);
  }

  /** The automata lose nothing and send nothing twice. */
  lemma EmitSends(self: nat, ty: AccessType, held: Flags, added: Flags, succ: Option<nat>, child: Option<nat>)
    requires held !! added
    requires HasNext in held + added ==> succ.Some?
    requires HasChild in held + added ==> child.Some?
    requires !TwoWay(ty) ==> SingleDestination(ty, held, added)
    ensures Sends(self, Raised(ty, held, added), Schedules(ty, held, added), NextIsParent in held + added, succ, child,
                  Emit(self, ty, held, added, succ, child))
  {
    PermsNeedLink(ty, held, added);
    OutgoingSends(self, TwoWay(ty), ChildPerms(held, added), NextPerms(ty, held, added),
                  Schedules(ty, held, added), Combines(ty, added), NextIsParent in held + added, succ, child);
  }

  lemma PermsNeedLink(ty: AccessType, held: Flags, added: Flags)
    ensures NextPerms(ty, held, added) != {} ==> HasNext in held + added
    ensures ChildPerms(held, added) != {} ==> HasChild in held + added
  {
    if p :| p in NextPerms(ty, held, added) {
      assert HasNext in NextCondition(ty, p);
    }
    if p :| p in ChildPerms(held, added) {
      assert HasChild in ChildCondition(p);
    }
  }

  // ---------------------------------------------------------------------------------------------
  // What the source computes

  predicate CheckPropagation(flags: Flags, allFlags: Flags, condition: Flags) {
    flags * condition != {} && condition <= allFlags
  }

  /** The propagation test recognises the updates that complete the condition, as long as no flag is set twice. */
  lemma CheckIsEnables(flags: Flags, held: Flags, condition: Flags)
    requires held !! flags
    ensures CheckPropagation(flags, held + flags, condition) <==> Enables(condition, held, flags)
  {
    if condition <= held + flags && !(condition <= held) {
      var f :| f in condition && f !in held;
      assert f in flags * condition;
    }
    if CheckPropagation(flags, held + flags, condition) {
      var f :| f in flags * condition;
      assert f in condition && f !in held;
    }
  }

  lemma AnyPerm(ps: set<Perm>)
    ensures ps != {} <==> Read in ps || Write in ps || Concurrent in ps || Commutative in ps
  {
    if p :| p in ps {
      match p { case Read => case Write => case Concurrent => case Commutative => }
    }
  }

  /** Permissions gathered one by one, in any order, form the whole set. */
  lemma GatherSat(ps: set<Perm>, fs: Flags)
    requires Sat(Read) in fs <==> Read in ps
    requires Sat(Write) in fs <==> Write in ps
    requires Sat(Concurrent) in fs <==> Concurrent in ps
    requires Sat(Commutative) in fs <==> Commutative in ps
    requires forall f :: f in fs ==> f.Sat?
    ensures fs == SatFlags(ps)
  {
    forall f: Flag ensures f in fs <==> f in SatFlags(ps) {
      if f.Sat? { match f.perm { case Read => case Write => case Concurrent => case Commutative => } }
    }
  }

  lemma GatherDone(ps: set<Perm>, fs: Flags)
    requires ChildDone(Read) in fs <==> Read in ps
    requires ChildDone(Write) in fs <==> Write in ps
    requires ChildDone(Concurrent) in fs <==> Concurrent in ps
    requires ChildDone(Commutative) in fs <==> Commutative in ps
    requires forall f :: f in fs ==> f.ChildDone?
    ensures fs == ChildDoneFlags(ps)
  {
    forall f: Flag ensures f in fs <==> f in ChildDoneFlags(ps) {
      if f.ChildDone? { match f.perm { case Read => case Write => case Concurrent => case Commutative => } }
    }
  }

  lemma GatherNext(ps: set<Perm>, fs: Flags)
    requires NextSat(Read) in fs <==> Read in ps
    requires NextSat(Write) in fs <==> Write in ps
    requires NextSat(Concurrent) in fs <==> Concurrent in ps
    requires NextSat(Commutative) in fs <==> Commutative in ps
    requires forall f :: f in fs ==> f.NextSat?
    ensures fs == NextSatFlags(ps)
  {
    forall f: Flag ensures f in fs <==> f in NextSatFlags(ps) {
      if f.NextSat? { match f.perm { case Read => case Write => case Concurrent => case Commutative => } }
    }
  }

  lemma GatherChild(ps: set<Perm>, fs: Flags)
    requires ChildSat(Read) in fs <==> Read in ps
    requires ChildSat(Write) in fs <==> Write in ps
    requires ChildSat(Concurrent) in fs <==> Concurrent in ps
    requires ChildSat(Commutative) in fs <==> Commutative in ps
    requires forall f :: f in fs ==> f.ChildSat?
    ensures fs == ChildSatFlags(ps)
  {
    forall f: Flag ensures f in fs <==> f in ChildSatFlags(ps) {
      if f.ChildSat? { match f.perm { case Read => case Write => case Concurrent => case Commutative => } }
    }
  }

  /** A mask that lists a flag for each permission asks for all of them. */
  lemma MaskOfAll(all: Flags)
    ensures {Sat(Write), Sat(Read), Sat(Concurrent), Sat(Commutative)} <= all <==> forall p :: Sat(p) in all
    ensures {NextSat(Read), NextSat(Write), NextSat(Concurrent), NextSat(Commutative)} <= all
            <==> forall p :: NextSat(p) in all
    ensures {ChildSat(Read), ChildSat(Write), ChildSat(Concurrent), ChildSat(Commutative)} <= all
            <==> forall p :: ChildSat(p) in all
    ensures {ChildDone(Write), ChildDone(Read), ChildDone(Concurrent), ChildDone(Commutative)} <= all
            <==> forall p :: ChildDone(p) in all
  {
    forall p: Perm
      ensures Sat(p) in {Sat(Write), Sat(Read), Sat(Concurrent), Sat(Commutative)}
      ensures NextSat(p) in {NextSat(Read), NextSat(Write), NextSat(Concurrent), NextSat(Commutative)}
      ensures ChildSat(p) in {ChildSat(Read), ChildSat(Write), ChildSat(Concurrent), ChildSat(Commutative)}
      ensures ChildDone(p) in {ChildDone(Write), ChildDone(Read), ChildDone(Concurrent), ChildDone(Commutative)}
    {
      match p { case Read => case Write => case Concurrent => case Commutative => }
    }
  }

  /** A message has flags for its receiver exactly when some permission is propagated. */
  lemma SentIffAddressed(ps: set<Perm>, upward: bool)
    ensures SatFlags(ps) == {} <==> ps == {}
    ensures ForwardFlags(upward, ps) == {} <==> ps == {}
  {
    if p :| p in ps {
      assert Sat(p) in SatFlags(ps) && ChildDone(p) in ChildDoneFlags(ps);
    }
  }

  datatype Destination = ToNext | ToChild | ToParent | Nowhere

  class Access {
    const id: nat
    const ty: AccessType
    var flags: Flags
    var successor: Option<nat>
    var child: Option<nat>

    constructor (id: nat, ty: AccessType, weak: bool)
      ensures this.id == id && this.ty == ty && successor == None && child == None
      ensures flags == if weak then {IsWeak} else {}
    {
      this.id, this.ty := id, ty;
      this.successor, this.child := None, None;
      this.flags := if weak then {IsWeak} else {};
    }

    /** One propagation test towards the successor. */
    method PropagateNext(added: Flags, ghost held: Flags, all: Flags, condition: Flags, p: Perm, forNext: Flags)
      returns (r: Flags, fired: bool)
      requires held !! added && all == held + added && condition == NextCondition(ty, p)
      ensures fired <==> p in NextPerms(ty, held, added)
      ensures r == forNext + if p in NextPerms(ty, held, added) then {Sat(p)} else {}
    {
      CheckIsEnables(added, held, condition);
      fired := CheckPropagation(added, all, condition);
      r := forNext + if fired then {Sat(p)} else {};
    }

    /** One propagation test towards the first child. */
    method PropagateChild(added: Flags, ghost held: Flags, all: Flags, condition: Flags, p: Perm, forNext: Flags)
      returns (r: Flags, fired: bool)
      requires held !! added && all == held + added && condition == ChildCondition(p)
      ensures fired <==> p in ChildPerms(held, added)
      ensures r == forNext + if p in ChildPerms(held, added) then {Sat(p)} else {}
    {
      CheckIsEnables(added, held, condition);
      fired := CheckPropagation(added, all, condition);
      r := forNext + if fired then {Sat(p)} else {};
    }

    method TranslateFlags(original: Flags, ghost ps: set<Perm>) returns (r: Flags)
      requires original == SatFlags(ps)
      ensures r == ChildDoneFlags(ps)
    {
      r := {};
      if Sat(Read) in original { r := r + {ChildDone(Read)}; }
      if Sat(Write) in original { r := r + {ChildDone(Write)}; }
      if Sat(Concurrent) in original { r := r + {ChildDone(Concurrent)}; }
      if Sat(Commutative) in original { r := r + {ChildDone(Commutative)}; }
      GatherDone(ps, r);
    }

    /** Resolves the destination pointer; permissions that return to the parent become done flags. */
    method ReadDestination(all: Flags, ghost ps: set<Perm>, message: Message, destination: Destination)
      returns (m: Message, d: Destination)
      requires destination == Nowhere || destination == ToNext || destination == ToChild
      requires destination == Nowhere ==> ps == {}
      requires message.flagsForNext == SatFlags(ps) && message.to == None
      ensures ps == {} ==> m == message && d == destination
      ensures ps != {} && destination == ToChild ==> d == ToChild && m == message.(to := child)
      ensures ps != {} && destination == ToNext ==>
                && d == (if NextIsParent in all then ToParent else ToNext)
                && m == message.(to := successor, flagsForNext := ForwardFlags(NextIsParent in all, ps))
    {
      m, d := message, destination;
      if p :| p in ps {
        assert Sat(p) in message.flagsForNext;
      }
      if destination != Nowhere && message.flagsForNext != {} {
        if destination == ToNext {
          m := m.(to := successor);
          if NextIsParent in all {
            var translated := TranslateFlags(m.flagsForNext, ps);
            m := m.(flagsForNext := translated);
            d := ToParent;
          }
        } else {
          m := m.(to := child);
        }
      }
    }

    /** Flags to set on this access once the message has been delivered. */
    method CalculatePropagationFlags(forNext: Flags, destination: Destination, ghost ps: set<Perm>)
      returns (after: Flags)
      requires forNext == if destination == ToParent then ChildDoneFlags(ps) else SatFlags(ps)
      requires destination == Nowhere ==> ps == {}
      ensures after == if destination == ToChild then ChildSatFlags(ps) else NextSatFlags(ps)
    {
      after := {};
      if destination == ToNext {
        if Sat(Read) in forNext { after := after + {NextSat(Read)}; }
        if Sat(Write) in forNext { after := after + {NextSat(Write)}; }
        if Sat(Concurrent) in forNext { after := after + {NextSat(Concurrent)}; }
        if Sat(Commutative) in forNext { after := after + {NextSat(Commutative)}; }
        GatherNext(ps, after);
      } else if destination == ToChild {
        if Sat(Read) in forNext { after := after + {ChildSat(Read)}; }
        if Sat(Write) in forNext { after := after + {ChildSat(Write)}; }
        if Sat(Concurrent) in forNext { after := after + {ChildSat(Concurrent)}; }
        if Sat(Commutative) in forNext { after := after + {ChildSat(Commutative)}; }
        GatherChild(ps, after);
      } else if destination == ToParent {
        if ChildDone(Write) in forNext { after := after + {NextSat(Write)}; }
        if ChildDone(Read) in forNext { after := after + {NextSat(Read)}; }
        if ChildDone(Concurrent) in forNext { after := after + {NextSat(Concurrent)}; }
        if ChildDone(Commutative) in forNext { after := after + {NextSat(Commutative)}; }
        GatherNext(ps, after);
      }
    }

    /** The end that all automata share: pick the receiver, then the flags to set afterwards. */
    method Address(all: Flags, ghost ps: set<Perm>, message: Message, destination: Destination) returns (m: Message)
      requires destination == Nowhere || destination == ToNext || destination == ToChild
      requires destination == Nowhere ==> ps == {}
      requires message.flagsForNext == SatFlags(ps) && message.to == None
      ensures m.from == message.from && m.schedule == message.schedule && m.combine == message.combine
      ensures destination == ToChild ==>
                && m.to == (if ps == {} then None else child)
                && m.flagsForNext == SatFlags(ps)
                && m.flagsAfter == message.flagsAfter + ChildSatFlags(ps)
      ensures destination != ToChild ==>
                && m.to == (if ps == {} then None else successor)
                && m.flagsForNext == ForwardFlags(NextIsParent in all, ps)
                && m.flagsAfter == message.flagsAfter + NextSatFlags(ps)
    {
      var d;
      m, d := ReadDestination(all, ps, message, destination);
      var after := CalculatePropagationFlags(m.flagsForNext, d, ps);
      m := m.(flagsAfter := m.flagsAfter + after);
    }

    /** A message with nothing but its flags and its schedule request is addressed in full. */
    method AddressPlain(all: Flags, ghost ps: set<Perm>, schedule: bool, f: Flags, destination: Destination)
        returns (m: Message)
      requires destination == ToNext || destination == ToChild
      requires f == SatFlags(ps)
      ensures m == if destination == ToNext then NextMessage(id, ps, NextIsParent in all, successor, schedule)
                   else ChildMessage(id, ps, child, schedule)
    {
      m := Address(all, ps, Message(f, {}, id, None, schedule, false), destination);
      assert {} + NextSatFlags(ps) == NextSatFlags(ps) && {} + ChildSatFlags(ps) == ChildSatFlags(ps);
    }

    /** The tests towards the child are the same for the read, concurrent and commutative automata. */
    method GatherForChild(added: Flags, ghost held: Flags, all: Flags) returns (forNext: Flags)
      requires held !! added && all == held + added
      ensures forNext == SatFlags(ChildPerms(held, added))
    {
      var fired;
      forNext, fired := PropagateChild(added, held, all, {Sat(Read), HasChild}, Read, {});
      forNext, fired := PropagateChild(added, held, all, {Sat(Write), HasChild}, Write, forNext);
      forNext, fired := PropagateChild(added, held, all, {Sat(Concurrent), HasChild}, Concurrent, forNext);
      forNext, fired := PropagateChild(added, held, all, {Sat(Commutative), HasChild}, Commutative, forNext);
      GatherSat(ChildPerms(held, added), forNext);
    }

    /** The read automaton; it runs once for the child and once for the successor. */
    method InAutomata(added: Flags, held: Flags, toNextOnly: bool, weak: bool) returns (message: Message)
      requires ty.ReadAccess? && held !! added && weak == (IsWeak in held)
      ensures message == if toNextOnly then NextMessage(id, NextPerms(ty, held, added), NextIsParent in held + added,
              successor, Schedules(ty, held, added))
                         else ChildMessage(id, ChildPerms(held, added), child, Schedules(ty, held, added))
    {
      var all := added + held;
      var schedule := Sat(Read) in added && !weak;
      var f: Flags;
      var fired;
      if toNextOnly {
        f, fired := PropagateNext(added, held, all, {Sat(Read), Sat(Write), Unregistered, ChildDone(Write), HasNext},
            Write, {});
        f, fired := PropagateNext(added, held, all,
            {Sat(Read), Sat(Concurrent), Unregistered, ChildDone(Concurrent), HasNext}, Concurrent, f);
        f, fired := PropagateNext(added, held, all,
            {Sat(Read), Sat(Commutative), Unregistered, ChildDone(Commutative), HasNext}, Commutative, f);
        f, fired := PropagateNext(added, held, all, {Sat(Read), HasNext}, Read, f);
        GatherSat(NextPerms(ty, held, added), f);
        message := AddressPlain(all, NextPerms(ty, held, added), schedule, f, ToNext);
      } else {
        f := GatherForChild(added, held, all);
        message := AddressPlain(all, ChildPerms(held, added), schedule, f, ToChild);
      }
    }

    /** The concurrent automaton; it runs once for the child and once for the successor. */
    method ConcurrentAutomata(added: Flags, held: Flags, toNextOnly: bool, weak: bool) returns (message: Message)
      requires ty.ConcurrentAccess? && held !! added && weak == (IsWeak in held)
      ensures message == if toNextOnly then NextMessage(id, NextPerms(ty, held, added), NextIsParent in held + added,
              successor, Schedules(ty, held, added))
                         else ChildMessage(id, ChildPerms(held, added), child, Schedules(ty, held, added))
    {
      var all := added + held;
      var schedule := Sat(Concurrent) in added && !weak;
      var f: Flags;
      var fired;
      if toNextOnly {
        f, fired := PropagateNext(added, held, all,
            {Sat(Concurrent), Sat(Write), Unregistered, ChildDone(Write), HasNext}, Write, {});
        f, fired := PropagateNext(added, held, all,
            {Sat(Concurrent), Sat(Read), Unregistered, ChildDone(Read), HasNext}, Read, f);
        f, fired := PropagateNext(added, held, all,
            {Sat(Concurrent), Sat(Commutative), Unregistered, ChildDone(Commutative), HasNext}, Commutative, f);
        f, fired := PropagateNext(added, held, all, {Sat(Concurrent), HasNext}, Concurrent, f);
        GatherSat(NextPerms(ty, held, added), f);
        message := AddressPlain(all, NextPerms(ty, held, added), schedule, f, ToNext);
      } else {
        f := GatherForChild(added, held, all);
        message := AddressPlain(all, ChildPerms(held, added), schedule, f, ToChild);
      }
    }

    /** The commutative automaton; it runs once for the child and once for the successor. */
    method CommutativeAutomata(added: Flags, held: Flags, toNextOnly: bool, weak: bool) returns (message: Message)
      requires ty.CommutativeAccess? && held !! added && weak == (IsWeak in held)
      ensures message == if toNextOnly then NextMessage(id, NextPerms(ty, held, added), NextIsParent in held + added,
              successor, Schedules(ty, held, added))
                         else ChildMessage(id, ChildPerms(held, added), child, Schedules(ty, held, added))
    {
      var all := added + held;
      var schedule := Sat(Commutative) in added && !weak;
      var f: Flags;
      var fired;
      if toNextOnly {
        f, fired := PropagateNext(added, held, all,
            {Sat(Commutative), Sat(Write), Unregistered, ChildDone(Write), HasNext}, Write, {});
        f, fired := PropagateNext(added, held, all,
            {Sat(Commutative), Sat(Concurrent), Unregistered, ChildDone(Concurrent), HasNext}, Concurrent, f);
        f, fired := PropagateNext(added, held, all,
            {Sat(Commutative), Sat(Read), Unregistered, ChildDone(Read), HasNext}, Read, f);
        f, fired := PropagateNext(added, held, all, {Sat(Commutative), HasNext}, Commutative, f);
        GatherSat(NextPerms(ty, held, added), f);
        message := AddressPlain(all, NextPerms(ty, held, added), schedule, f, ToNext);
      } else {
        f := GatherForChild(added, held, all);
        message := AddressPlain(all, ChildPerms(held, added), schedule, f, ToChild);
      }
    }

    /** The two tests for one permission, with their assertions on the destination. */
    method OutTestsFor(added: Flags, held: Flags, all: Flags, p: Perm, forNext: Flags, destination: Destination)
      returns (f: Flags, d: Destination)
      requires !TwoWay(ty) && held !! added && all == held + added && SingleDestination(ty, held, added)
      requires destination == Nowhere || (destination == ToChild && ChildPerms(held, added) != {})
               || (destination == ToNext && NextPerms(ty, held, added) != {})
      ensures d == if p in ChildPerms(held, added) then ToChild else if p in NextPerms(ty, held, added) then ToNext
              else destination
      ensures f == forNext + if p in ChildPerms(held, added) || p in NextPerms(ty, held, added) then {Sat(p)} else {}
    {
      var fired;
      d := destination;
      f, fired := PropagateChild(added, held, all, {Sat(p), HasChild}, p, forNext);
      if fired {
        assert d == Nowhere || d == ToChild;
        d := ToChild;
      }
      f, fired := PropagateNext(added, held, all, {Sat(p), HasNext, Unregistered, ChildDone(p)}, p, f);
      if fired {
        assert d == Nowhere || d == ToNext;
        d := ToNext;
      }
    }

    /** The eight tests of the write and reduction automata. */
    method OutTests(added: Flags, held: Flags, all: Flags) returns (f: Flags, d: Destination)
      requires !TwoWay(ty) && held !! added && all == held + added
      requires SingleDestination(ty, held, added)
      ensures d == if ChildPerms(held, added) != {} then ToChild else if NextPerms(ty, held, added) != {} then ToNext
              else Nowhere
      ensures f == SatFlags(if ChildPerms(held, added) != {} then ChildPerms(held, added)
              else NextPerms(ty, held, added))
    {
      f, d := OutTestsFor(added, held, all, Read, {}, Nowhere);
      f, d := OutTestsFor(added, held, all, Write, f, d);
      f, d := OutTestsFor(added, held, all, Concurrent, f, d);
      f, d := OutTestsFor(added, held, all, Commutative, f, d);
      AnyPerm(ChildPerms(held, added));
      AnyPerm(NextPerms(ty, held, added));
      GatherSat(if ChildPerms(held, added) != {} then ChildPerms(held, added) else NextPerms(ty, held, added), f);
    }

    /** The write automaton. */
    method OutAutomata(added: Flags, held: Flags, weak: bool) returns (message: Message)
      requires !TwoWay(ty) && !ty.ReductionAccess? && held !! added && weak == (IsWeak in held)
      requires SingleDestination(ty, held, added)
      ensures message == if ChildPerms(held, added) != {}
              then ChildMessage(id, ChildPerms(held, added), child, Schedules(ty, held, added))
                         else NextMessage(id, NextPerms(ty, held, added), NextIsParent in held + added, successor,
                             Schedules(ty, held, added))
    {
      var all := added + held;
      message := Message({}, {}, id, None, Sat(Write) in added && !weak, false);
      var f, d := OutTests(added, held, all);
      message := Address(all, if ChildPerms(held, added) != {} then ChildPerms(held, added)
          else NextPerms(ty, held, added),
                         message.(flagsForNext := f), d);
    }

    /** The readwrite automaton. */
    method InoutAutomata(added: Flags, held: Flags, weak: bool) returns (message: Message)
      requires !TwoWay(ty) && !ty.ReductionAccess? && held !! added && weak == (IsWeak in held)
      requires SingleDestination(ty, held, added)
      ensures message == if ChildPerms(held, added) != {}
              then ChildMessage(id, ChildPerms(held, added), child, Schedules(ty, held, added))
                         else NextMessage(id, NextPerms(ty, held, added), NextIsParent in held + added, successor,
                             Schedules(ty, held, added))
    {
      message := OutAutomata(added, held, weak);
    }

    /** The reduction automaton. */
    method ReductionAutomata(added: Flags, held: Flags) returns (message: Message)
      requires ty.ReductionAccess? && held !! added
      requires SingleDestination(ty, held, added)
      ensures var m := if ChildPerms(held, added) != {} then ChildMessage(id, ChildPerms(held, added), child, false)
                       else NextMessage(id, NextPerms(ty, held, added), NextIsParent in held + added, successor, false);
              message == m.(combine := Combines(ty, added),
                            flagsAfter := m.flagsAfter + if Combines(ty, added) then {ReductionCombined} else {})
    {
      var all := added + held;
      message := Message({}, {}, id, None, false, false);
      if Sat(Write) in added {
        message := message.(combine := true, flagsAfter := message.flagsAfter + {ReductionCombined});
      }
      var f, d := OutTests(added, held, all);
      message := Address(all, if ChildPerms(held, added) != {} then ChildPerms(held, added)
          else NextPerms(ty, held, added),
                         message.(flagsForNext := f), d);
    }

    /** Sets the flags that record a delivery; says whether the access can now be deleted. */
    method ApplyPropagated(message: Message) returns (dispose: bool)
      requires message.from == id && message.flagsAfter !! flags
      modifies this`flags
      ensures flags == old(flags) + message.flagsAfter
      ensures dispose <==> message.flagsAfter != {} && Complete(ty, flags)
    {
      if message.flagsAfter == {} {
        return false;
      }
      flags := flags + message.flagsAfter;
      dispose := CalculateDisposing();
    }

    /** The disposal test, with the mask built up as the flags of the access require. */
    method CalculateDisposing() returns (dispose: bool)
      ensures dispose <==> Complete(ty, flags)
    {
      MaskOfAll(flags);
      var needed := {Sat(Write), Sat(Read), Sat(Concurrent), Sat(Commutative)} + {Unregistered};
      ghost var complete := (forall p :: Sat(p) in flags) && Unregistered in flags;
      assert needed <= flags <==> complete;
      if HasChild in flags {
        needed := needed + {ChildSat(Read), ChildSat(Write), ChildSat(Concurrent), ChildSat(Commutative)}
                  + {ChildDone(Write), ChildDone(Read), ChildDone(Concurrent), ChildDone(Commutative)};
        complete := complete && forall p :: ChildSat(p) in flags && ChildDone(p) in flags;
      }
      assert needed <= flags <==> complete;
      if NextIsParent in flags {
        needed := needed + {ParentDone} + {NextSat(Read), NextSat(Write), NextSat(Concurrent), NextSat(Commutative)};
        complete := complete && ParentDone in flags && forall p :: NextSat(p) in flags;
      } else if HasNext in flags {
        needed := needed + {NextSat(Read), NextSat(Write), NextSat(Concurrent), NextSat(Commutative)};
        complete := complete && forall p :: NextSat(p) in flags;
      } else {
        needed := needed + {ParentDone};
        complete := complete && ParentDone in flags;
      }
      assert needed <= flags <==> complete;
      if ty.ReductionAccess? {
        needed := needed + {ReductionCombined};
      }
      dispose := needed <= flags;
    }

    /** The read, concurrent and commutative branches: at most one message per destination, at most one schedule. */
    method RunTwice(held: Flags, added: Flags, weak: bool, mailbox: seq<Message>) returns (mailbox': seq<Message>)
      requires TwoWay(ty) && held !! added && weak == (IsWeak in held)
      requires HasNext in held + added ==> successor.Some?
      requires HasChild in held + added ==> child.Some?
      ensures mailbox' == mailbox + Emit(id, ty, held, added, successor, child)
    {
      hide Schedules, NextPerms, ChildPerms;
      mailbox' := mailbox;
      var toChild, toNext;
      match ty {
        case ReadAccess =>
          toChild := InAutomata(added, held, false, weak);
          toNext := InAutomata(added, held, true, weak);
        case ConcurrentAccess =>
          toChild := ConcurrentAutomata(added, held, false, weak);
          toNext := ConcurrentAutomata(added, held, true, weak);
        case CommutativeAccess =>
          toChild := CommutativeAutomata(added, held, false, weak);
          toNext := CommutativeAutomata(added, held, true, weak);
      }
      SentIffAddressed(ChildPerms(held, added), false);
      SentIffAddressed(NextPerms(ty, held, added), NextIsParent in held + added);
      if toChild.to != None && toChild.flagsForNext != {} {
        toNext := toNext.(schedule := false);
        mailbox' := mailbox' + [toChild];
      }
      if (toNext.to != None && toNext.flagsForNext != {}) || toNext.schedule {
        mailbox' := mailbox' + [toNext];
      }
    }

    /** The write, readwrite and reduction branches: a single message. */
    method RunOnce(held: Flags, added: Flags, weak: bool, mailbox: seq<Message>) returns (mailbox': seq<Message>)
      requires !TwoWay(ty) && held !! added && weak == (IsWeak in held)
      requires SingleDestination(ty, held, added)
      ensures mailbox' == mailbox + Emit(id, ty, held, added, successor, child)
    {
      mailbox' := mailbox;
      var next;
      if ty.ReductionAccess? {
        next := ReductionAutomata(added, held);
        if next.to != None || next.combine {
          mailbox' := mailbox' + [next];
        }
      } else {
        if ty.WriteAccess? {
          next := OutAutomata(added, held, weak);
        } else {
          next := InoutAutomata(added, held, weak);
        }
        assert next.flagsAfter + {} == next.flagsAfter;
        if next.to != None || next.schedule {
          mailbox' := mailbox' + [next];
        }
      }
    }

    /** Adds the flags of a message and pushes what the automaton produces; says whether the access can now be
        deleted. */
    method Apply(message: Message, mailbox: seq<Message>) returns (dispose: bool, mailbox': seq<Message>)
      requires message.flagsForNext != {} ==> message.to == Some(id) && message.flagsForNext !! flags
      requires !TwoWay(ty) ==> SingleDestination(ty, flags, message.flagsForNext)
      requires HasNext in flags + message.flagsForNext ==> successor.Some?
      requires HasChild in flags + message.flagsForNext ==> child.Some?
      modifies this`flags
      ensures flags == old(flags) + message.flagsForNext
      ensures message.flagsForNext == {} ==> !dispose && mailbox' == mailbox
      ensures message.flagsForNext != {} ==>
                && dispose == Complete(ty, flags)
                && mailbox' == mailbox + Emit(id, ty, old(flags), message.flagsForNext, successor, child)
    {
      mailbox' := mailbox;
      if message.flagsForNext == {} {
        return false, mailbox';
      }
      var held, added := flags, message.flagsForNext;
      flags := flags + added;
      var weak := IsWeak in held;
      if TwoWay(ty) {
        mailbox' := RunTwice(held, added, weak, mailbox);
      } else {
        mailbox' := RunOnce(held, added, weak, mailbox);
      }
      dispose := CalculateDisposing();
    }

    /** The same during registration, where at most one message comes back and is handled at once. */
    method ApplySingle(added: Flags) returns (message: Message)
      requires added !! flags && added != {}
      requires !TwoWay(ty) ==> SingleDestination(ty, flags, added)
      requires HasNext in flags + added ==> successor.Some?
      requires HasChild in flags + added ==> child.Some?
      requires |Emit(id, ty, flags, added, successor, child)| <= 1
      modifies this`flags
      ensures flags == old(flags) + added
      ensures var out := Emit(id, ty, old(flags), added, successor, child);
              message == if out == [] then NoMessage(id) else out[0]
    {
      message := Message(added, {}, id, Some(id), false, false);
      var dispose, mailbox := Apply(message, []);
      if mailbox != [] {
        message := mailbox[|mailbox| - 1];
      } else {
        message := NoMessage(id);
      }
    }
  }
}
