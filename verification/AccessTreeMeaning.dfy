/** What the protocol computes: once no message is left, the permissions of every access are those of a recursive
    definition over the shape of the tree, whatever the order of the deliveries. */
module AccessTreeMeaning {
  import opened AccessFlags
  import opened DataAccess
  import opened AccessTree
  import opened AccessTreeInvariant
  import opened AccessTreeSafety

  /** No message remains to be delivered or acknowledged. */
  predicate Quiescent(s: State) {
    forall i :: 0 <= i < |s.sent| ==> s.sent[i].stage.Done?
  }

  /** An access without its permissions: what the program did to it. */
  datatype Shape = Shape(
    ty: AccessType, pred: Option<nat>, parent: Option<nat>,
    succ: Option<nat>, child: Option<nat>, upward: bool, unregistered: bool)

  function ShapeOf(n: Node): Shape {
    Shape(n.ty, n.pred, if n.chain.Under? then Some(n.chain.parent) else None,
          n.succ, n.child, NextIsParent in n.flags, Unregistered in n.flags)
  }

  function Skeleton(s: State): (k: seq<Shape>)
    ensures |k| == |s.nodes|
  {
    seq(|s.nodes|, i requires 0 <= i < |s.nodes| => ShapeOf(s.nodes[i]))
  }

  // ---------------------------------------------------------------------------------------------
  // The recursive definition

  /** Permissions that an access which holds `sat`, and got `done` back from its children, passes on. */
  function PassedOn(h: Shape, sat: set<Perm>, done: set<Perm>): set<Perm> {
    if h.succ.None? then {}
    else
      set p: Perm |
        p in sat && (Shares(h.ty, p) || (h.unregistered && p in done && (TwoWay(h.ty) ==> OwnPerm(h.ty) in sat)))
  }

  /** Permissions that come back from below access `c` if it holds `sat`: its first child holds the same. */
  function GivenBack(k: seq<Shape>, c: nat, sat: set<Perm>): set<Perm>
    requires c < |k|
    decreases |k| - c, 0
  {
    if k[c].child.None? then (if k[c].unregistered then ALL_PERMS else {})
    else if c < k[c].child.value < |k| then ChainResult(k, k[c].child.value, sat)
    else {}
  }

  /** Permissions that reach the parent from the chain that starts at `c`, if `c` holds `sat`. */
  function ChainResult(k: seq<Shape>, c: nat, sat: set<Perm>): set<Perm>
    requires c < |k|
    decreases |k| - c, 1
  {
    var on := PassedOn(k[c], sat, GivenBack(k, c, sat));
    if k[c].succ.None? then {}
    else if k[c].upward then on
    else if c < k[c].succ.value < |k| then ChainResult(k, k[c].succ.value, on)
    else {}
  }

  /** Permissions that access `b` holds: all at the head of a root chain, else what comes from its predecessor or
      parent. */
  function Holds(k: seq<Shape>, b: nat): set<Perm>
    requires b < |k|
  {
    match k[b].pred
    case Some(a) => if a < b then PassedOn(k[a], Holds(k, a), GivenBack(k, a, Holds(k, a))) else {}
    case None =>
      match k[b].parent
      case Some(a) => if a < b then Holds(k, a) else {}
      case None => ALL_PERMS
  }

  // ---------------------------------------------------------------------------------------------
  // The protocol computes it

  function SatSet(n: Node): set<Perm> {
    set p: Perm | Sat(p) in n.flags
  }

  function DoneSet(n: Node): set<Perm> {
    set p: Perm | ChildDone(p) in n.flags
  }

  lemma AllPerms(p: Perm)
    ensures p in ALL_PERMS
  {
    match p { case Read => case Write => case Concurrent => case Commutative => }
  }

  lemma PassedOnIsPassed(s: State, a: nat, p: Perm)
    requires Inv(s) && a < |s.nodes|
    ensures p in PassedOn(ShapeOf(s.nodes[a]), SatSet(s.nodes[a]), DoneSet(s.nodes[a])) <==> Passed(s, a, p)
  {
    assert Linked(s, a);
  }

  /** Without messages in flight, what is sent is received. */
  lemma QuiescentDelivery(s: State, a: nat, p: Perm)
    requires Inv(s) && Quiescent(s) && a < |s.nodes|
    ensures Delivered(s, a, NextSat(p)) <==> Passed(s, a, p)
    ensures Delivered(s, a, ChildSat(p)) <==> ChildCondition(p) <= s.nodes[a].flags
    ensures NextSat(p) in s.nodes[a].flags <==> Passed(s, a, p)
    ensures ChildSat(p) in s.nodes[a].flags <==> ChildCondition(p) <= s.nodes[a].flags
  {
    assert TokenOk(s, a, NextSat(p)) && TokenOk(s, a, ChildSat(p));
  }

  lemma SuccessorHolds(s: State, b: nat)
    requires Inv(s) && Quiescent(s) && b < |s.nodes| && s.nodes[b].pred.Some?
    ensures s.nodes[b].pred.value < b
    ensures var a := s.nodes[s.nodes[b].pred.value]; SatSet(s.nodes[b]) == PassedOn(ShapeOf(a), SatSet(a), DoneSet(a))
  {
    assert Linked(s, b);
    var a := s.nodes[b].pred.value;
    forall p: Perm
      ensures p in SatSet(s.nodes[b]) <==> p in PassedOn(ShapeOf(s.nodes[a]), SatSet(s.nodes[a]), DoneSet(s.nodes[a]))
    {
      assert ArrivalOk(s, b, p);
      QuiescentDelivery(s, a, p);
      PassedOnIsPassed(s, a, p);
    }
  }

  lemma FirstChildHolds(s: State, b: nat)
    requires Inv(s) && Quiescent(s) && b < |s.nodes| && s.nodes[b].pred.None? && s.nodes[b].chain.Under?
    ensures s.nodes[b].chain.parent < b && SatSet(s.nodes[b]) == SatSet(s.nodes[s.nodes[b].chain.parent])
  {
    assert Linked(s, b);
    var a := s.nodes[b].chain.parent;
    forall p: Perm ensures p in SatSet(s.nodes[b]) <==> p in SatSet(s.nodes[a]) {
      assert ArrivalOk(s, b, p);
      QuiescentDelivery(s, a, p);
      assert ChildCondition(p) <= s.nodes[a].flags <==> Sat(p) in s.nodes[a].flags;
    }
  }

  /** What the chain of `c`, below access `a`, finally gives back to `a`. */
  lemma {:induction false} ChainGivesBack(s: State, a: nat, c: nat)
    requires Inv(s) && Quiescent(s) && c < |s.nodes| && s.nodes[c].chain == Under(a) && a < c
    ensures ChainResult(Skeleton(s), c, SatSet(s.nodes[c])) == DoneSet(s.nodes[a])
    decreases |s.nodes| - c, 1
  {
    var k := Skeleton(s);
    assert Linked(s, c) && BottomOk(s, Under(a));
    AccessGivesBack(s, c);
    var last := s.bottom[Under(a)];
    if c == last {
      forall p: Perm ensures p in ChainResult(k, c, SatSet(s.nodes[c])) <==> p in DoneSet(s.nodes[a]) {
        assert ReturnOk(s, a, p);
        QuiescentDelivery(s, c, p);
        PassedOnIsPassed(s, c, p);
      }
    } else {
      var d := s.nodes[c].succ.value;
      assert Linked(s, d);
      SuccessorHolds(s, d);
      ChainGivesBack(s, a, d);
    }
  }

  lemma {:induction false} AccessGivesBack(s: State, c: nat)
    requires Inv(s) && Quiescent(s) && c < |s.nodes|
    ensures GivenBack(Skeleton(s), c, SatSet(s.nodes[c])) == DoneSet(s.nodes[c])
    decreases |s.nodes| - c, 0
  {
    assert Linked(s, c);
    if s.nodes[c].child.Some? {
      FirstChildHolds(s, s.nodes[c].child.value);
      ChainGivesBack(s, c, s.nodes[c].child.value);
    } else {
      forall p: Perm ensures p in GivenBack(Skeleton(s), c, SatSet(s.nodes[c])) <==> p in DoneSet(s.nodes[c]) {
        assert ReturnOk(s, c, p);
        AllPerms(p);
      }
    }
  }

  lemma {:induction false} HoldsIsSat(s: State, b: nat)
    requires Inv(s) && Quiescent(s) && b < |s.nodes|
    ensures Holds(Skeleton(s), b) == SatSet(s.nodes[b])
  {
    assert Linked(s, b);
    if s.nodes[b].pred.Some? {
      var a := s.nodes[b].pred.value;
      HoldsIsSat(s, a);
      AccessGivesBack(s, a);
      SuccessorHolds(s, b);
    } else if s.nodes[b].chain.Under? {
      HoldsIsSat(s, s.nodes[b].chain.parent);
      FirstChildHolds(s, b);
    } else {
      forall p: Perm ensures p in SatSet(s.nodes[b]) {
        assert ArrivalOk(s, b, p);
      }
      forall p: Perm ensures p in ALL_PERMS { AllPerms(p); }
    }
  }

  /** Flags that record where permissions are. */
  predicate PermissionFlag(f: Flag) {
    f.Sat? || f.ChildDone? || f.NextSat? || f.ChildSat?
  }

  /** The permission flags of access `a` by the recursive definition. */
  predicate Meant(k: seq<Shape>, a: nat, f: Flag)
    requires a < |k|
  {
    var sat := Holds(k, a);
    var done := GivenBack(k, a, sat);
    match f
    case Sat(p) => p in sat
    case ChildDone(p) => p in done
    case NextSat(p) => p in PassedOn(k[a], sat, done)
    case ChildSat(p) => k[a].child.Some? && p in sat
    case _ => false
  }

  /** Once no message is left, every permission flag is as the recursive definition says. */
  lemma QuiescentMeaning(s: State, a: nat, f: Flag)
    requires Reachable(s) && Quiescent(s) && a < |s.nodes| && PermissionFlag(f)
    ensures f in s.nodes[a].flags <==> Meant(Skeleton(s), a, f)
  {
    ReachableInv(s);
    HoldsIsSat(s, a);
    AccessGivesBack(s, a);
    QuiescentDelivery(s, a, f.perm);
    PassedOnIsPassed(s, a, f.perm);
    assert Linked(s, a);
    assert ChildCondition(f.perm) <= s.nodes[a].flags
        <==> Sat(f.perm) in s.nodes[a].flags && HasChild in s.nodes[a].flags;
  }

  // ---------------------------------------------------------------------------------------------
  // Independence of the order

  function Rename(f: seq<nat>, a: Option<nat>): Option<nat> {
    if a.Some? && a.value < |f| then Some(f[a.value]) else None
  }

  /** Access `f[a]` of the second run is access `a` of the first: the same has been done to it. */
  ghost predicate Renames(k: seq<Shape>, l: seq<Shape>, f: seq<nat>) {
    && |f| == |k| && (forall a :: 0 <= a < |k| ==> f[a] < |l|)
    && forall a :: 0 <= a < |k| ==> SameShape(k[a], l[f[a]], f)
  }

  predicate SameShape(g: Shape, h: Shape, f: seq<nat>) {
    && h.ty == g.ty && h.upward == g.upward && h.unregistered == g.unregistered
    && h.pred == Rename(f, g.pred) && h.parent == Rename(f, g.parent) && h.child == Rename(f, g.child)
    && (g.succ.None? <==> h.succ.None?) && h.succ == Rename(f, g.succ)
  }

  /** Names grow along the chains and downwards. */
  predicate Grown(k: seq<Shape>, a: nat)
    requires a < |k|
  {
    && (k[a].pred.Some? ==> k[a].pred.value < a) && (k[a].parent.Some? ==> k[a].parent.value < a)
    && (k[a].child.Some? ==> a < k[a].child.value < |k|)
    && (k[a].succ.Some? && !k[a].upward ==> a < k[a].succ.value < |k|)
  }

  ghost predicate AllGrown(k: seq<Shape>) {
    forall a :: 0 <= a < |k| ==> Grown(k, a)
  }

  lemma SkeletonGrows(s: State)
    requires Inv(s)
    ensures AllGrown(Skeleton(s))
  {
    forall a | 0 <= a < |s.nodes| ensures Grown(Skeleton(s), a) { assert Linked(s, a); }
  }

  lemma {:induction false} RenamedBack(k: seq<Shape>, l: seq<Shape>, f: seq<nat>, c: nat, sat: set<Perm>)
    requires Renames(k, l, f) && AllGrown(k) && AllGrown(l) && c < |k|
    ensures GivenBack(l, f[c], sat) == GivenBack(k, c, sat)
    decreases |k| - c, 0
  {
    assert Grown(k, c) && Grown(l, f[c]) && SameShape(k[c], l[f[c]], f);
    if k[c].child.Some? { RenamedChain(k, l, f, k[c].child.value, sat); }
  }

  lemma {:induction false} RenamedChain(k: seq<Shape>, l: seq<Shape>, f: seq<nat>, c: nat, sat: set<Perm>)
    requires Renames(k, l, f) && AllGrown(k) && AllGrown(l) && c < |k|
    ensures ChainResult(l, f[c], sat) == ChainResult(k, c, sat)
    decreases |k| - c, 1
  {
    assert Grown(k, c) && Grown(l, f[c]) && SameShape(k[c], l[f[c]], f);
    RenamedBack(k, l, f, c, sat);
    var on := PassedOn(k[c], sat, GivenBack(k, c, sat));
    assert PassedOn(l[f[c]], sat, GivenBack(l, f[c], sat)) == on;
    if k[c].succ.Some? && !k[c].upward { RenamedChain(k, l, f, k[c].succ.value, on); }
  }

  lemma {:induction false} RenamedHolds(k: seq<Shape>, l: seq<Shape>, f: seq<nat>, b: nat)
    requires Renames(k, l, f) && AllGrown(k) && AllGrown(l) && b < |k|
    ensures Holds(l, f[b]) == Holds(k, b)
  {
    assert Grown(k, b) && Grown(l, f[b]) && SameShape(k[b], l[f[b]], f);
    if k[b].pred.Some? {
      var a := k[b].pred.value;
      assert SameShape(k[a], l[f[a]], f);
      RenamedHolds(k, l, f, a);
      RenamedBack(k, l, f, a, Holds(k, a));
    } else if k[b].parent.Some? {
      RenamedHolds(k, l, f, k[b].parent.value);
    }
  }

  lemma RenamedMeant(k: seq<Shape>, l: seq<Shape>, f: seq<nat>, a: nat, flag: Flag)
    requires Renames(k, l, f) && AllGrown(k) && AllGrown(l) && a < |k| && PermissionFlag(flag)
    ensures Meant(l, f[a], flag) <==> Meant(k, a, flag)
  {
    assert Grown(k, a) && SameShape(k[a], l[f[a]], f);
    RenamedHolds(k, l, f, a);
    var sat := Holds(k, a);
    RenamedBack(k, l, f, a, sat);
    assert PassedOn(l[f[a]], sat, GivenBack(k, a, sat)) == PassedOn(k[a], sat, GivenBack(k, a, sat));
  }

  /** The result depends neither on the interleaving nor on the order in which independent accesses were registered:
      runs that end without messages and did the same to the accesses, whatever their names, agree on every permission
      flag. */
  lemma OrderIndependence(s: State, t: State, f: seq<nat>, a: nat, flag: Flag)
    requires Reachable(s) && Quiescent(s) && Reachable(t) && Quiescent(t)
    requires Renames(Skeleton(s), Skeleton(t), f) && a < |s.nodes| && PermissionFlag(flag)
    ensures f[a] < |t.nodes| && (flag in s.nodes[a].flags <==> flag in t.nodes[f[a]].flags)
  {
    ReachableInv(s);
    ReachableInv(t);
    SkeletonGrows(s);
    SkeletonGrows(t);
    RenamedMeant(Skeleton(s), Skeleton(t), f, a, flag);
    QuiescentMeaning(s, a, flag);
    QuiescentMeaning(t, f[a], flag);
  }

  // ---------------------------------------------------------------------------------------------
  // Nothing leaks

  /** The program is over: every access unregistered, every parent finished. */
  predicate AllOver(s: State) {
    && (forall a :: 0 <= a < |s.nodes| ==> Unregistered in s.nodes[a].flags)
    && (forall a :: 0 <= a < |s.nodes| ==> s.nodes[a].chain in s.finished)
  }

  /** An access that holds all permissions has been unregistered. */
  predicate Served(s: State) {
    forall a :: 0 <= a < |s.nodes| && HasAll(s.nodes[a]) ==> Unregistered in s.nodes[a].flags
  }

  predicate HasAll(n: Node) {
    forall p :: Sat(p) in n.flags
  }

  predicate GotAllBack(n: Node) {
    forall p :: ChildDone(p) in n.flags
  }

  /** Once everything that could be unregistered is, an access that holds all permissions lets them all through. */
  lemma {:induction false} AllFlow(s: State, c: nat)
    requires Inv(s) && Quiescent(s) && Served(s) && c < |s.nodes| && HasAll(s.nodes[c])
    ensures GotAllBack(s.nodes[c])
    decreases |s.nodes| - c, 0
  {
    assert Linked(s, c);
    if s.nodes[c].child.Some? {
      var d := s.nodes[c].child.value;
      forall p ensures Sat(p) in s.nodes[d].flags {
        FirstChildHolds(s, d);
        assert p in SatSet(s.nodes[c]);
      }
      ChainFlows(s, c, d);
    } else {
      forall p ensures ChildDone(p) in s.nodes[c].flags {
        assert ReturnOk(s, c, p);
      }
    }
  }

  lemma AllPass(s: State, a: nat, p: Perm)
    requires a < |s.nodes| && HasAll(s.nodes[a]) && GotAllBack(s.nodes[a])
    requires Unregistered in s.nodes[a].flags && HasNext in s.nodes[a].flags
    ensures Passed(s, a, p)
  {
  }

  lemma {:induction false} ChainFlows(s: State, a: nat, c: nat)
    requires Inv(s) && Quiescent(s) && Served(s) && a < c < |s.nodes| && s.nodes[c].chain == Under(a)
    requires HasAll(s.nodes[a]) && HasAll(s.nodes[c])
    ensures GotAllBack(s.nodes[a])
    decreases |s.nodes| - c, 1
  {
    AllFlow(s, c);
    assert Linked(s, c) && Linked(s, a);
    if s.bottom[Under(a)] == c {
      forall p ensures ChildDone(p) in s.nodes[a].flags {
        assert ReturnOk(s, a, p);
        AllPass(s, c, p);
        QuiescentDelivery(s, c, p);
      }
    } else {
      var d := s.nodes[c].succ.value;
      assert Linked(s, d);
      forall p ensures Sat(p) in s.nodes[d].flags {
        assert ArrivalOk(s, d, p);
        AllPass(s, c, p);
        QuiescentDelivery(s, c, p);
      }
      ChainFlows(s, a, d);
    }
  }

  lemma {:induction false} AllArrive(s: State, b: nat)
    requires Inv(s) && Quiescent(s) && Served(s) && b < |s.nodes|
    ensures HasAll(s.nodes[b])
  {
    assert Linked(s, b);
    if s.nodes[b].pred.Some? {
      var a := s.nodes[b].pred.value;
      AllArrive(s, a);
      AllFlow(s, a);
      assert Linked(s, a);
      forall p ensures Sat(p) in s.nodes[b].flags {
        assert ArrivalOk(s, b, p);
        AllPass(s, a, p);
        QuiescentDelivery(s, a, p);
      }
    } else if s.nodes[b].chain.Under? {
      AllArrive(s, s.nodes[b].chain.parent);
      FirstChildHolds(s, b);
      forall p ensures Sat(p) in s.nodes[b].flags {
        assert p in SatSet(s.nodes[s.nodes[b].chain.parent]);
      }
    } else {
      forall p ensures Sat(p) in s.nodes[b].flags { assert ArrivalOk(s, b, p); }
    }
  }

  lemma AllAcknowledged(s: State, a: nat, p: Perm)
    requires Inv(s) && Quiescent(s) && a < |s.nodes| && HasAll(s.nodes[a]) && GotAllBack(s.nodes[a])
    requires Unregistered in s.nodes[a].flags
    ensures HasChild in s.nodes[a].flags ==> ChildSat(p) in s.nodes[a].flags
    ensures HasNext in s.nodes[a].flags ==> NextSat(p) in s.nodes[a].flags
  {
    QuiescentDelivery(s, a, p);
    if HasNext in s.nodes[a].flags {
      AllPass(s, a, p);
    }
  }

  /** Nothing leaks: when all is over and no message is left, every access has been disposed, once. */
  lemma EverythingIsDisposed(s: State, a: nat)
    requires Reachable(s) && Quiescent(s) && AllOver(s) && a < |s.nodes|
    ensures Disposed(s, a) && s.nodes[a].reports == 1
  {
    ReachableInv(s);
    AllArrive(s, a);
    AllFlow(s, a);
    forall p
      ensures HasChild in s.nodes[a].flags ==> ChildSat(p) in s.nodes[a].flags
      ensures HasNext in s.nodes[a].flags ==> NextSat(p) in s.nodes[a].flags
    {
      AllAcknowledged(s, a, p);
    }
    assert Linked(s, a);
    assert TokenOk(s, a, ReductionCombined);
    assert Sat(Write) in s.nodes[a].flags;
    DisposalReportedOnce(s, a);
  }
}
