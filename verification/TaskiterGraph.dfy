/** Recording a loop body as a task graph: for each address only the last two groups and the first two are kept, and
    that is enough to draw every body edge while recording and every cross edge when the loop is closed. */
module TaskiterGraph {
  import opened AccessFlags
  import opened TaskiterUnroll
  import opened TaskiterLoop
  import opened TaskiterExecution

  /** What is kept for one address. */
  datatype AccessChain = AccessChain(
    last: seq<nat>, prev: seq<nat>, first: seq<nat>, second: seq<nat>,
    lastKind: Kind, firstKind: Kind)

  /** The access of a task to an address, as it was registered. */
  datatype Access = Access(task: nat, address: nat, ty: AccessType)

  const EMPTY_CHAIN := AccessChain([], [], [], [], WriteKind, WriteKind)

  function KindOf(ty: AccessType): Kind {
    match ty
    case ReadAccess => ReadKind
    case ConcurrentAccess => ConcurrentKind
    case _ => WriteKind
  }

  function LastGroup(c: Chain): nat
    requires c.kinds != []
  {
    Group(c.kinds, |c.kinds| - 1)
  }

  function Append(c: Chain, task: nat, k: Kind): Chain {
    Chain(c.tasks + [task], c.kinds + [k])
  }

  /** A task more: it joins the last group or starts a group. */
  function Joined(gs: seq<seq<nat>>, task: nat, starts: bool): seq<seq<nat>>
    requires gs != []
  {
    if starts then gs + [[task]] else gs[..|gs| - 1] + [gs[|gs| - 1] + [task]]
  }

  predicate Starts(t: seq<Kind>, k: Kind)
    requires t != []
  {
    k == WriteKind || k != t[|t| - 1]
  }

  /** The tasks, group by group. */
  function Groups(c: Chain): (gs: seq<seq<nat>>)
    requires c.kinds != [] && |c.tasks| == |c.kinds|
    ensures gs != []
    decreases |c.kinds|
  {
    var n := |c.kinds| - 1;
    if n == 0 then [[c.tasks[0]]]
    else Joined(Groups(Chain(c.tasks[..n], c.kinds[..n])), c.tasks[n], Starts(c.kinds[..n], c.kinds[n]))
  }

  /** The record holds the last two groups, and the first two as soon as they are complete. */
  predicate Holds(r: AccessChain, gs: seq<seq<nat>>, t: seq<Kind>)
    requires gs != [] && t != []
  {
    var g := |gs| - 1;
    && r.last == gs[g] && r.lastKind == t[|t| - 1]
    && r.prev == (if g == 0 then [] else gs[g - 1])
    && r.first == (if g == 0 then [] else gs[0]) && (g > 0 ==> r.firstKind == t[0])
    && r.second == (if g <= 1 then [] else gs[1])
  }

  predicate Records(r: AccessChain, c: Chain)
    requires c.kinds != [] && |c.tasks| == |c.kinds|
  {
    Holds(r, Groups(c), c.kinds)
  }

  // ---------------------------------------------------------------------------------------------
  // Groups of a growing chain

  lemma {:induction false} GroupOfPrefix(t: seq<Kind>, k: Kind, x: nat)
    requires t != [] && x < |t|
    ensures Group(t + [k], x) == Group(t, x) && At(t + [k], x) == At(t, x)
  {
    if x > 0 { GroupOfPrefix(t, k, x - 1); }
  }

  lemma GroupOfNew(t: seq<Kind>, k: Kind)
    requires t != []
    ensures Group(t + [k], |t|) == Group(t, |t| - 1) + (if Starts(t, k) then 1 else 0)
  {
    GroupOfPrefix(t, k, |t| - 1);
  }

  /** The task is in group `g`. */
  predicate InGroup(c: Chain, g: nat, x: nat)
    requires c.kinds != [] && |c.tasks| == |c.kinds|
  {
    exists i: nat {:trigger Group(c.kinds, i)} :: i < |c.tasks| && c.tasks[i] == x && Group(c.kinds, i) == g
  }

  /** These are the groups: none is empty and each holds its tasks. */
  ghost predicate GroupsOf(c: Chain, gs: seq<seq<nat>>)
    requires c.kinds != [] && |c.tasks| == |c.kinds|
  {
    && |gs| == LastGroup(c) + 1 && (forall g :: 0 <= g < |gs| ==> gs[g] != [])
    && (forall g: nat, x {:trigger InGroup(c, g, x)} {:trigger x in gs[g]} :: g < |gs| ==>
          (x in gs[g] <==> InGroup(c, g, x)))
  }

  lemma InGroupGrows(c: Chain, task: nat, k: Kind, g: nat, x: nat)
    requires c.kinds != [] && |c.tasks| == |c.kinds|
    ensures InGroup(Append(c, task, k), g, x) <==> InGroup(c, g, x) || (x == task && g == LastGroup(Append(c, task, k)))
  {
    var d, n := Append(c, task, k), |c.kinds|;
    if i: nat :| i < |d.tasks| && d.tasks[i] == x && Group(d.kinds, i) == g {
      if i < n { GroupOfPrefix(c.kinds, k, i); }
    }
    if i: nat :| i < |c.tasks| && c.tasks[i] == x && Group(c.kinds, i) == g {
      GroupOfPrefix(c.kinds, k, i);
      assert Group(d.kinds, i) == g;
    }
    assert d.tasks[n] == task && Group(d.kinds, n) == LastGroup(d);
  }

  lemma NotBeyondLast(c: Chain, g: nat, x: nat)
    requires c.kinds != [] && |c.tasks| == |c.kinds| && InGroup(c, g, x)
    ensures g <= LastGroup(c)
  {
    var i: nat :| i < |c.tasks| && c.tasks[i] == x && Group(c.kinds, i) == g;
    GroupMonotone(c.kinds, i, |c.kinds| - 1);
  }

  lemma GroupsOfJoined(c: Chain, gs: seq<seq<nat>>, task: nat, k: Kind)
    requires c.kinds != [] && |c.tasks| == |c.kinds| && GroupsOf(c, gs)
    ensures GroupsOf(Append(c, task, k), Joined(gs, task, Starts(c.kinds, k)))
  {
    var d, hs := Append(c, task, k), Joined(gs, task, Starts(c.kinds, k));
    GroupOfNew(c.kinds, k);
    forall g: nat, x | g < |hs| ensures x in hs[g] <==> InGroup(d, g, x) {
      InGroupGrows(c, task, k, g, x);
      if InGroup(c, g, x) { NotBeyondLast(c, g, x); }
    }
  }

  lemma GroupsAppend(c: Chain, task: nat, k: Kind)
    requires c.kinds != [] && |c.tasks| == |c.kinds|
    ensures Groups(Append(c, task, k)) == Joined(Groups(c), task, Starts(c.kinds, k))
  {
    var d, n := Append(c, task, k), |c.kinds|;
    assert d.kinds[..n] == c.kinds && d.tasks[..n] == c.tasks;
  }

  lemma {:induction false} GroupsAreRight(c: Chain)
    requires c.kinds != [] && |c.tasks| == |c.kinds|
    ensures GroupsOf(c, Groups(c))
    decreases |c.kinds|
  {
    var n := |c.kinds| - 1;
    if n == 0 {
      assert Group(c.kinds, 0) == 0;
    } else {
      var b := Chain(c.tasks[..n], c.kinds[..n]);
      GroupsAreRight(b);
      GroupsOfJoined(b, Groups(b), c.tasks[n], c.kinds[n]);
      assert Append(b, c.tasks[n], c.kinds[n]) == c;
    }
  }

  // ---------------------------------------------------------------------------------------------
  // Body edges

  /** Edges between old tasks stay. */
  lemma OldEdgeStays(c: Chain, task: nat, k: Kind, e: Edge, i: nat, j: nat)
    requires c.kinds != [] && |c.tasks| == |c.kinds| && !e.cross && i < |c.kinds| && j < |c.kinds|
    ensures ChainEdge(Append(c, task, k), e, i, j) <==> ChainEdge(c, e, i, j)
  {
    GroupOfPrefix(c.kinds, k, i);
    GroupOfPrefix(c.kinds, k, j);
  }

  /** The task is in the last group but one. */
  predicate InPrev(c: Chain, x: nat)
    requires c.kinds != [] && |c.tasks| == |c.kinds|
  {
    LastGroup(c) > 0 && InGroup(c, LastGroup(c) - 1, x)
  }

  /** A body edge of the last access comes from the group before its own, and goes to it. */
  lemma EdgeAtEnd(c: Chain, e: Edge, i: nat, j: nat)
    requires c.kinds != [] && |c.tasks| == |c.kinds| && !e.cross && ChainEdge(c, e, i, j)
    requires i == |c.kinds| - 1 || j == |c.kinds| - 1
    ensures j == |c.kinds| - 1 && e.to == c.tasks[|c.kinds| - 1] && InPrev(c, e.from)
  {
    GroupMonotone(c.kinds, j, |c.kinds| - 1);
    assert j == |c.kinds| - 1;
    assert Group(c.kinds, i) == LastGroup(c) - 1;
  }

  lemma EndHasEdge(c: Chain, e: Edge) returns (i: nat)
    requires c.kinds != [] && |c.tasks| == |c.kinds| && !e.cross && e.to == c.tasks[|c.kinds| - 1] && InPrev(c, e.from)
    ensures ChainEdge(c, e, i, |c.kinds| - 1)
  {
    i :| i < |c.tasks| && c.tasks[i] == e.from && Group(c.kinds, i) == LastGroup(c) - 1;
  }

  lemma PrevIsPrevGroup(r: AccessChain, c: Chain, x: nat)
    requires c.kinds != [] && |c.tasks| == |c.kinds| && Records(r, c)
    ensures x in r.prev <==> InPrev(c, x)
  {
    GroupsAreRight(c);
  }

  // ---------------------------------------------------------------------------------------------
  // Closing

  /** The two accesses are in groups that face each other across the end of the body: the last and the first, unless
      they are one run of reads (or concurrents), in which case their outer neighbours. */
  predicate Facing(t: seq<Kind>, i: nat, j: nat)
    requires t != []
  {
    var g := Group(t, |t| - 1);
    if t[0] != t[|t| - 1] || t[0] == WriteKind then Group(t, i) == g && Group(t, j) == 0
    else g >= 2 && ((Group(t, i) == g && Group(t, j) == 1) || (Group(t, i) == g - 1 && Group(t, j) == 0))
  }

  lemma AtEnds(t: seq<Kind>)
    requires t != []
    ensures At(t, |t|) == t[0] && At(t, |t| - 1) == t[|t| - 1]
  {
    assert At(t, |t|) == At(t, 0);
  }

  lemma CrossGroups(t: seq<Kind>, i: nat, j: nat)
    requires t != [] && i < |t| && j < |t|
    ensures CrossEdge(t, i, j) <==> Facing(t, i, j)
  {
    var n := |t|;
    AtEnds(t);
    assert Group(t, 0) == 0;
    GroupsRepeat(t, 0, j);
    GroupMonotone(t, i, n - 1);
    assert Group(t, n) == Group(t, n - 1) + (if Boundary(t, n) then 1 else 0);
    assert Group(t, n + j) == Group(t, n) + Group(t, j);
    if Group(t, n - 1) == 1 { NeighboursConflict(t, 0, n - 1); }
    if Group(t, n - 1) == 0 { GroupMonotone(t, j, n - 1); }
  }

  predicate Between(e: Edge, from: seq<nat>, to: seq<nat>) {
    e.cross && e.from in from && e.to in to
  }

  /** The cross edges that closing adds for one address, from the record alone. */
  predicate Closing(r: AccessChain, e: Edge) {
    var first := if r.first == [] then r.last else r.first;
    var firstKind := if r.first == [] then r.lastKind else r.firstKind;
    var second := if r.first != [] && r.second == [] then r.last else r.second;
    if firstKind != r.lastKind || firstKind == WriteKind then Between(e, r.last, first)
    else second != [] && (Between(e, r.last, second) || Between(e, r.prev, first))
  }

  /** Which ends of the body are alike. */
  lemma EndKinds(c: Chain)
    requires c.kinds != [] && |c.tasks| == |c.kinds|
    ensures LastGroup(c) == 0 ==> c.kinds[|c.kinds| - 1] == c.kinds[0]
    ensures LastGroup(c) == 1 ==> c.kinds[|c.kinds| - 1] != c.kinds[0] || c.kinds[0] == WriteKind
  {
    var t := c.kinds;
    assert Group(t, 0) == 0;
    if LastGroup(c) == 1 { NeighboursConflict(t, 0, |t| - 1); }
    if LastGroup(c) == 0 { SameGroup(t, 0, |t| - 1); }
  }

  /** Closing in terms of the groups: the last and the first are connected, or their outer neighbours. */
  predicate Across(gs: seq<seq<nat>>, t: seq<Kind>, e: Edge)
    requires gs != [] && t != []
  {
    var g := |gs| - 1;
    if t[0] != t[|t| - 1] || t[0] == WriteKind then Between(e, gs[g], gs[0])
    else g >= 2 && (Between(e, gs[g], gs[1]) || Between(e, gs[g - 1], gs[0]))
  }

  lemma ClosingIsAcross(r: AccessChain, gs: seq<seq<nat>>, c: Chain, e: Edge)
    requires c.kinds != [] && |c.tasks| == |c.kinds| && GroupsOf(c, gs) && Holds(r, gs, c.kinds)
    ensures Closing(r, e) <==> Across(gs, c.kinds, e)
  {
    EndKinds(c);
  }

  lemma EdgeAcross(c: Chain, gs: seq<seq<nat>>, e: Edge, i: nat, j: nat)
    requires c.kinds != [] && |c.tasks| == |c.kinds| && GroupsOf(c, gs) && e.cross && ChainEdge(c, e, i, j)
    ensures Across(gs, c.kinds, e)
  {
    CrossGroups(c.kinds, i, j);
    assert InGroup(c, Group(c.kinds, i), e.from) && InGroup(c, Group(c.kinds, j), e.to);
  }

  lemma PairInGroups(c: Chain, e: Edge, g: nat, h: nat) returns (i: nat, j: nat)
    requires c.kinds != [] && |c.tasks| == |c.kinds| && InGroup(c, g, e.from) && InGroup(c, h, e.to)
    ensures i < |c.tasks| && j < |c.tasks| && e.from == c.tasks[i] && e.to == c.tasks[j]
    ensures Group(c.kinds, i) == g && Group(c.kinds, j) == h
  {
    i :| i < |c.tasks| && c.tasks[i] == e.from && Group(c.kinds, i) == g;
    j :| j < |c.tasks| && c.tasks[j] == e.to && Group(c.kinds, j) == h;
  }

  lemma AcrossEdge(c: Chain, gs: seq<seq<nat>>, e: Edge) returns (i: nat, j: nat)
    requires c.kinds != [] && |c.tasks| == |c.kinds| && GroupsOf(c, gs) && e.cross && Across(gs, c.kinds, e)
    ensures ChainEdge(c, e, i, j)
  {
    var t, g := c.kinds, |gs| - 1;
    if t[0] != t[|t| - 1] || t[0] == WriteKind {
      i, j := PairInGroups(c, e, g, 0);
    } else if Between(e, gs[g], gs[1]) {
      i, j := PairInGroups(c, e, g, 1);
    } else {
      i, j := PairInGroups(c, e, g - 1, 0);
    }
    CrossGroups(t, i, j);
  }

  /** The record is enough to close the loop. */
  lemma ClosingIsCross(r: AccessChain, c: Chain, e: Edge)
    requires c.kinds != [] && |c.tasks| == |c.kinds| && Records(r, c) && e.cross
    ensures Closing(r, e) <==> exists i: nat, j: nat :: ChainEdge(c, e, i, j)
  {
    var gs := Groups(c);
    GroupsAreRight(c);
    ClosingIsAcross(r, gs, c, e);
    if i: nat, j: nat :| ChainEdge(c, e, i, j) {
      EdgeAcross(c, gs, e, i, j);
    }
    if Across(gs, c.kinds, e) {
      var i, j := AcrossEdge(c, gs, e);
    }
  }

  // ---------------------------------------------------------------------------------------------
  // Degrees

  lemma {:induction false} InDegreeAppend(edges: seq<Edge>, more: seq<Edge>, n: nat, t: nat, all: bool)
    requires n <= |edges|
    ensures InDegree(edges + more, n, t, all) == InDegree(edges, n, t, all)
  {
    if n > 0 { InDegreeAppend(edges, more, n - 1, t, all); }
  }

  lemma InDegreeSnoc(edges: seq<Edge>, e: Edge, t: nat, all: bool)
    ensures InDegree(edges + [e], |edges| + 1, t, all)
            == InDegree(edges, |edges|, t, all) + (if e.to == t && (all || !e.cross) then 1 else 0)
  {
    InDegreeAppend(edges, [e], |edges|, t, all);
  }

  // ---------------------------------------------------------------------------------------------
  // Keeping the record

  /** What registering an access does to the record of its address: a read after reads, or a concurrent after
      concurrents, joins the last group; any other access starts a group, and the one that was last is now the previous
      one, and the first or the second if it is the first or the second to be complete. */
  predicate Updated(r: AccessChain, r': AccessChain, task: nat, k: Kind) {
    if k == r.lastKind && k != WriteKind then
      r' == r.(last := r.last + [task])
    else
      && r'.last == [task] && r'.lastKind == k && r'.prev == r.last
      && r'.first == (if r.first == [] then r.last else r.first)
      && r'.firstKind == (if r.first == [] && r.last != [] then r.lastKind else r.firstKind)
      && r'.second == (if r.first != [] && r.second == [] then r.last else r.second)
  }

  lemma RecordJoins(r: AccessChain, r': AccessChain, gs: seq<seq<nat>>, t: seq<Kind>, task: nat, k: Kind)
    requires gs != [] && t != [] && Holds(r, gs, t) && (forall g :: 0 <= g < |gs| ==> gs[g] != [])
    requires Updated(r, r', task, k) && (|gs| == 1 ==> t[|t| - 1] == t[0])
    ensures Holds(r', Joined(gs, task, Starts(t, k)), t + [k])
  {
  }

  /** The chain with one more access. */
  function Extended(chains: map<nat, Chain>, a: nat, task: nat, k: Kind): Chain {
    if a in chains then Append(chains[a], task, k) else Chain([task], [k])
  }

  lemma NewEdgeOrOld(loop: Loop, grown: Loop, a: nat, task: nat, k: Kind, e: Edge)
    requires LoopOk(loop) && LoopOk(grown) && !e.cross
    requires grown == loop.(chains := loop.chains[a := Extended(loop.chains, a, task, k)]) && HasEdge(grown, e)
    ensures HasEdge(loop, e) || (e.to == task && InPrev(grown.chains[a], e.from))
  {
    var b, i: nat, j: nat :| b in grown.chains && ChainEdge(grown.chains[b], e, i, j);
    var d := grown.chains[a];
    if b != a {
      assert ChainEdge(loop.chains[b], e, i, j);
    } else if i == |d.kinds| - 1 || j == |d.kinds| - 1 {
      EdgeAtEnd(d, e, i, j);
    } else {
      OldEdgeStays(loop.chains[a], task, k, e, i, j);
      assert ChainEdge(loop.chains[a], e, i, j);
    }
  }

  lemma OldEdgeOrNew(loop: Loop, grown: Loop, a: nat, task: nat, k: Kind, e: Edge)
    requires LoopOk(loop) && LoopOk(grown) && !e.cross
    requires grown == loop.(chains := loop.chains[a := Extended(loop.chains, a, task, k)])
    requires HasEdge(loop, e) || (e.to == task && InPrev(grown.chains[a], e.from))
    ensures HasEdge(grown, e)
  {
    if HasEdge(loop, e) {
      var b, i: nat, j: nat :| b in loop.chains && ChainEdge(loop.chains[b], e, i, j);
      if b == a {
        OldEdgeStays(loop.chains[a], task, k, e, i, j);
      }
      assert ChainEdge(grown.chains[b], e, i, j);
    } else {
      var i := EndHasEdge(grown.chains[a], e);
    }
  }

  /** The body edges of a loop with one more access. */
  lemma BodyEdgesGrow(loop: Loop, grown: Loop, a: nat, task: nat, k: Kind, r: AccessChain, e: Edge)
    requires LoopOk(loop) && LoopOk(grown) && !e.cross
    requires grown == loop.(chains := loop.chains[a := Extended(loop.chains, a, task, k)])
    requires ChainOk(grown.chains[a], grown.size) && Records(r, grown.chains[a])
    ensures HasEdge(grown, e) <==> HasEdge(loop, e) || (e.to == task && e.from in r.prev)
  {
    PrevIsPrevGroup(r, grown.chains[a], e.from);
    if HasEdge(grown, e) {
      NewEdgeOrOld(loop, grown, a, task, k, e);
    } else if HasEdge(loop, e) || (e.to == task && e.from in r.prev) {
      OldEdgeOrNew(loop, grown, a, task, k, e);
    }
  }

  ghost predicate RecordOf(size: nat, chains: map<nat, Chain>, bottom: map<nat, AccessChain>) {
    && LoopOk(Loop(size, chains)) && bottom.Keys == chains.Keys
    && (forall a {:trigger Records(bottom[a], chains[a])} :: a in chains ==> Records(bottom[a], chains[a]))
  }

  /** The edges are the body edges of the accesses so far. */
  ghost predicate BodyEdgesOf(size: nat, chains: map<nat, Chain>, edges: seq<Edge>)
    requires LoopOk(Loop(size, chains))
  {
    forall e :: e in edges <==> !e.cross && HasEdge(Loop(size, chains), e)
  }

  ghost predicate Recording(size: nat, chains: map<nat, Chain>, bottom: map<nat, AccessChain>, edges: seq<Edge>) {
    RecordOf(size, chains, bottom) && BodyEdgesOf(size, chains, edges)
  }

  function RecordFor(bottom: map<nat, AccessChain>, a: nat): AccessChain {
    if a in bottom then bottom[a] else EMPTY_CHAIN
  }

  lemma RecordUpdated(chains: map<nat, Chain>, r: AccessChain, r': AccessChain, a: nat, task: nat, k: Kind)
    requires if a in chains then chains[a].kinds != [] && |chains[a].tasks| == |chains[a].kinds|
             && Records(r, chains[a])
             else r == EMPTY_CHAIN
    requires Updated(r, r', task, k)
    ensures Records(r', Extended(chains, a, task, k))
  {
    if a in chains {
      var c := chains[a];
      GroupsAreRight(c);
      GroupsAppend(c, task, k);
      EndKinds(c);
      RecordJoins(r, r', Groups(c), c.kinds, task, k);
    }
  }

  /** One more access is recorded by updating the record of its address. */
  lemma AccessRecorded(size: nat, chains: map<nat, Chain>, bottom: map<nat, AccessChain>, r: AccessChain, a: nat,
      task: nat, k: Kind)
    requires RecordOf(size, chains, bottom) && task < size && Updated(RecordFor(bottom, a), r, task, k)
    requires Youngest(chains, a, task)
    ensures RecordOf(size, chains[a := Extended(chains, a, task, k)], bottom[a := r])
  {
    if a in chains { ExtendedOk(chains[a], size, task, k); }
    RecordUpdated(chains, RecordFor(bottom, a), r, a, task, k);
    RecordPut(size, chains, bottom, a, Extended(chains, a, task, k), r);
  }

  /** The access is at position `i` of the chain. */
  predicate IsAt(c: Chain, i: nat, x: Access) {
    i < |c.tasks| && i < |c.kinds| && c.tasks[i] == x.task && c.kinds[i] == KindOf(x.ty)
  }

  /** The chains hold exactly the accesses that were registered, each at its address. */
  ghost predicate Logged(log: seq<Access>, chains: map<nat, Chain>) {
    && (forall x :: x in log ==> x.address in chains && exists i: nat :: IsAt(chains[x.address], i, x))
    && (forall a, i: nat {:trigger Position(chains, a, i)} :: Position(chains, a, i) ==>
          exists x :: x in log && x.address == a && IsAt(chains[a], i, x))
  }

  predicate Position(chains: map<nat, Chain>, a: nat, i: nat) {
    a in chains && i < |chains[a].tasks|
  }

  lemma LogGrows(log: seq<Access>, chains: map<nat, Chain>, x: Access)
    requires Logged(log, chains) && forall a :: a in chains ==> |chains[a].tasks| == |chains[a].kinds|
    ensures Logged(log + [x], chains[x.address := Extended(chains, x.address, x.task, KindOf(x.ty))])
  {
    var log', c := log + [x], Extended(chains, x.address, x.task, KindOf(x.ty));
    var chains' := chains[x.address := c];
    var n := |c.tasks| - 1;
    assert log'[|log|] == x && IsAt(c, n, x);
    forall y | y in log' ensures y.address in chains' && exists i: nat :: IsAt(chains'[y.address], i, y) {
      if y in log {
        var i: nat :| IsAt(chains[y.address], i, y);
        assert IsAt(chains'[y.address], i, y);
      }
    }
    forall a, i: nat | Position(chains', a, i)
      ensures exists y :: y in log' && y.address == a && IsAt(chains'[a], i, y)
    {
      if a == x.address && i == n {
        assert x in log';
      } else {
        assert Position(chains, a, i);
        var y :| y in log && y.address == a && IsAt(chains[a], i, y);
        assert y in log' && IsAt(chains'[a], i, y);
      }
    }
  }

  lemma ExtendedOk(c: Chain, size: nat, task: nat, k: Kind)
    requires ChainOk(c, size) && task < size && forall i :: 0 <= i < |c.tasks| ==> c.tasks[i] < task
    ensures ChainOk(Append(c, task, k), size)
  {
  }

  lemma RecordPut(size: nat, chains: map<nat, Chain>, bottom: map<nat, AccessChain>, a: nat, c: Chain, r: AccessChain)
    requires RecordOf(size, chains, bottom) && ChainOk(c, size) && Records(r, c)
    ensures RecordOf(size, chains[a := c], bottom[a := r])
  {
  }

  /** Drawing edges from the previous group to the new task draws exactly the new body edges. */
  lemma EdgesRecorded(size: nat, chains: map<nat, Chain>, edges: seq<Edge>, edges': seq<Edge>, a: nat, task: nat,
      k: Kind,
      r: AccessChain)
    requires LoopOk(Loop(size, chains)) && LoopOk(Loop(size, chains[a := Extended(chains, a, task, k)]))
    requires BodyEdgesOf(size, chains, edges) && Records(r, Extended(chains, a, task, k))
    requires EdgesAdded(edges, edges', r.prev, task)
    ensures BodyEdgesOf(size, chains[a := Extended(chains, a, task, k)], edges')
  {
    forall e: Edge | !e.cross
      ensures HasEdge(Loop(size, chains[a := Extended(chains, a, task, k)]), e)
              <==> HasEdge(Loop(size, chains), e) || (e.to == task && e.from in r.prev)
    {
      BodyEdgesGrow(Loop(size, chains), Loop(size, chains[a := Extended(chains, a, task, k)]), a, task, k, r, e);
    }
  }

  /** The edges from the tasks `from` to the task are new, the others are kept. */
  ghost predicate EdgesAdded(edges: seq<Edge>, edges': seq<Edge>, from: seq<nat>, task: nat) {
    forall e :: e in edges' <==> e in edges || (!e.cross && e.to == task && e.from in from)
  }

  /** The task is younger than all that access the address. */
  ghost predicate Youngest(chains: map<nat, Chain>, a: nat, task: nat) {
    a in chains ==> forall i :: 0 <= i < |chains[a].tasks| ==> chains[a].tasks[i] < task
  }

  lemma RecordingGrows(size: nat, chains: map<nat, Chain>, bottom: map<nat, AccessChain>, edges: seq<Edge>,
      edges': seq<Edge>, a: nat, task: nat, k: Kind, r: AccessChain)
    requires Recording(size, chains, bottom, edges) && task < size && Updated(RecordFor(bottom, a), r, task, k)
    requires Youngest(chains, a, task)
    requires EdgesAdded(edges, edges', r.prev, task)
    ensures Recording(size, chains[a := Extended(chains, a, task, k)], bottom[a := r], edges')
  {
    assert RecordOf(size, chains[a := Extended(chains, a, task, k)], bottom[a := r]) by {
      AccessRecorded(size, chains, bottom, r, a, task, k);
    }
    assert Records(r, Extended(chains, a, task, k)) by {
      RecordUpdated(chains, RecordFor(bottom, a), r, a, task, k);
    }
    EdgesRecorded(size, chains, edges, edges', a, task, k, r);
  }

  // ---------------------------------------------------------------------------------------------
  // The graph

  /** Every edge is counted once at its target. */
  ghost predicate Counted(size: nat, edges: seq<Edge>, original: seq<int>) {
    |original| == size && forall t :: 0 <= t < size ==> original[t] == InDegree(edges, |edges|, t, true)
  }

  /** All tasks of the record have counters. */
  ghost predicate Inside(r: AccessChain, size: nat) {
    Below(r.last, size) && Below(r.prev, size) && Below(r.first, size) && Below(r.second, size)
  }

  predicate Below(tasks: seq<nat>, size: nat) {
    forall i :: 0 <= i < |tasks| ==> tasks[i] < size
  }

  lemma GroupInside(c: Chain, size: nat, gs: seq<seq<nat>>, g: nat)
    requires ChainOk(c, size) && GroupsOf(c, gs) && g < |gs|
    ensures Below(gs[g], size)
  {
    forall i | 0 <= i < |gs[g]| ensures gs[g][i] < size {
      assert InGroup(c, g, gs[g][i]);
    }
  }

  /** Only cross edges are new. */
  ghost predicate CrossAdded(edges: seq<Edge>, edges': seq<Edge>) {
    edges <= edges' && forall k :: |edges| <= k < |edges'| ==> edges'[k].cross
  }

  /** The edges that closing adds for the addresses that are not in `todo`. */
  ghost predicate Closings(bottom: map<nat, AccessChain>, todo: set<nat>, e: Edge) {
    exists a :: a in bottom && a !in todo && Closing(bottom[a], e)
  }

  ghost predicate ClosingsAdded(bottom: map<nat, AccessChain>, todo: set<nat>, edges: seq<Edge>, edges': seq<Edge>) {
    CrossAdded(edges, edges') && forall e :: e in edges' <==> e in edges || Closings(bottom, todo, e)
  }

  ghost predicate ClosingAdded(r: AccessChain, edges: seq<Edge>, edges': seq<Edge>) {
    CrossAdded(edges, edges') && forall e :: e in edges' <==> e in edges || Closing(r, e)
  }

  lemma OneMoreClosed(bottom: map<nat, AccessChain>, todo: set<nat>, a: nat, edges: seq<Edge>, before: seq<Edge>,
      after: seq<Edge>)
    requires a in todo && a in bottom && ClosingsAdded(bottom, todo, edges, before)
    requires ClosingAdded(bottom[a], before, after)
    ensures ClosingsAdded(bottom, todo - {a}, edges, after)
  {
  }

  lemma ReadyToClose(r: AccessChain, c: Chain, size: nat)
    requires ChainOk(c, size) && Records(r, c)
    ensures Inside(r, size) && r.last != [] && (r.first == [] ==> r.prev == [])
  {
    var gs := Groups(c);
    GroupsAreRight(c);
    forall g: nat | g < |gs| ensures Below(gs[g], size) {
      GroupInside(c, size, gs, g);
    }
  }

  /** Closing all addresses gives the whole closed graph. */
  lemma ClosedGraph(size: nat, chains: map<nat, Chain>, bottom: map<nat, AccessChain>, edges: seq<Edge>,
      edges': seq<Edge>)
    requires Recording(size, chains, bottom, edges)
    requires ClosingsAdded(bottom, {}, edges, edges')
    ensures forall e :: e in edges' <==> HasEdge(Loop(size, chains), e)
  {
    forall e: Edge | e.cross
      ensures Closings(bottom, {}, e) <==> HasEdge(Loop(size, chains), e)
    {
      if Closings(bottom, {}, e) {
        var a :| a in bottom && Closing(bottom[a], e);
        ClosingIsCross(bottom[a], chains[a], e);
        var i: nat, j: nat :| ChainEdge(chains[a], e, i, j);
        assert ChainEdge(Loop(size, chains).chains[a], e, i, j);
      }
      if HasEdge(Loop(size, chains), e) {
        var a, i: nat, j: nat :| a in Loop(size, chains).chains && ChainEdge(chains[a], e, i, j);
        ClosingIsCross(bottom[a], chains[a], e);
      }
    }
  }

  lemma CountedSnoc(size: nat, edges: seq<Edge>, original: seq<int>, e: Edge)
    requires Counted(size, edges, original) && e.to < size
    ensures Counted(size, edges + [e], original[e.to := original[e.to] + 1])
  {
    forall t | 0 <= t < size
      ensures original[e.to := original[e.to] + 1][t] == InDegree(edges + [e], |edges + [e]|, t, true)
    {
      InDegreeSnoc(edges, e, t, true);
    }
  }

  lemma {:induction false} BodyDegreeKept(edges: seq<Edge>, edges': seq<Edge>, n: nat, t: nat)
    requires CrossAdded(edges, edges') && n <= |edges'|
    ensures InDegree(edges', n, t, false) == InDegree(edges, if n <= |edges| then n else |edges|, t, false)
  {
    if n > 0 { BodyDegreeKept(edges, edges', n - 1, t); }
  }

  function Degrees(edges: seq<Edge>, size: nat): seq<int> {
    seq(size, (t: nat) => 1 + InDegree(edges, |edges|, t, false))
  }

  /** The guards and the body edges are what the execution starts with. */
  lemma StartDegrees(loop: Loop, edges: seq<Edge>, edges': seq<Edge>, rounds: nat)
    requires CrossAdded(edges, edges')
    ensures Start(Graph(loop, edges', rounds)).pred == Degrees(edges, loop.size)
  {
    forall t: nat | t < loop.size
      ensures InDegree(edges', |edges'|, t, false) == InDegree(edges, |edges|, t, false)
    {
      BodyDegreeKept(edges, edges', |edges'|, t);
    }
  }

  predicate Ends(edges: seq<Edge>, size: nat) {
    forall k :: 0 <= k < |edges| ==> edges[k].to < size
  }

  lemma BodyInside(size: nat, chains: map<nat, Chain>, edges: seq<Edge>)
    requires LoopOk(Loop(size, chains)) && BodyEdgesOf(size, chains, edges)
    ensures Ends(edges, size)
  {
    forall k | 0 <= k < |edges| ensures edges[k].to < size {
      assert HasEdge(Loop(size, chains), edges[k]);
      var a, i: nat, j: nat :| a in Loop(size, chains).chains && ChainEdge(chains[a], edges[k], i, j);
    }
  }

  class TaskiterGraph {
    var size: nat
    var bottomMap: map<nat, AccessChain>
    var edges: seq<Edge>
    var pred: seq<int>      // the predecessor counters of the tasks
    var original: seq<int>  // what a task waits for in each iteration after the first
    ghost var chains: map<nat, Chain>  // all accesses so far, by address
    ghost var log: seq<Access>         // the same in the order of registration

    /** All accesses of the loop body. */
    ghost function Body(): Loop
      reads this
    {
      Loop(size, chains)
    }

    /** While recording. */
    ghost predicate Valid()
      reads this
    {
      Recording(size, chains, bottomMap, edges) && Logged(log, chains)
    }

    constructor ()
      ensures Valid() && size == 0 && chains == map[] && log == [] && edges == [] && pred == [] && original == []
    {
      size, bottomMap, edges, pred, original, chains, log := 0, map[], [], [], [], map[], [];
    }

    /** Adds a task; its counters are zero when the recorded iteration has finished. */
    method AddTask() returns (task: nat)
      requires Valid()
      modifies this
      ensures Valid() && task == old(size) && size == task + 1 && chains == old(chains) && log == old(log)
      ensures edges == old(edges)
      ensures pred == old(pred) + [0] && original == old(original) + [0]
    {
      task := size;
      pred, original := pred + [0], original + [0];
      size := size + 1;
      forall e: Edge | !e.cross ensures HasEdge(Body(), e) <==> HasEdge(Loop(size - 1, chains), e) {
        if a, i: nat, j: nat :| a in chains && ChainEdge(chains[a], e, i, j) {
          assert a in Body().chains && a in Loop(size - 1, chains).chains;
        }
      }
    }

    /** The last group becomes the previous one. */
    method SwapChains(chain: AccessChain) returns (r: AccessChain)
      ensures r.prev == chain.last && r.last == [] && r.lastKind == chain.lastKind
      ensures r.first == (if chain.first == [] then chain.last else chain.first)
      ensures r.firstKind == (if chain.first == [] && chain.last != [] then chain.lastKind else chain.firstKind)
      ensures r.second == (if chain.first != [] && chain.second == [] then chain.last else chain.second)
    {
      r := chain.(prev := chain.last, last := chain.prev);
      r := r.(last := []);
      if r.prev != [] {
        if r.first == [] {
          r := r.(first := r.prev, firstKind := r.lastKind);
        } else if r.second == [] {
          r := r.(second := r.prev);
        }
      }
    }

    /** Draws an edge from every task of the chain to the node. */
    method CreateEdges(node: nat, chain: seq<nat>)
      modifies this`edges
      ensures EdgesAdded(old(edges), edges, chain, node)
    {
      for k := 0 to |chain|
        invariant forall e :: e in edges <==> e in old(edges) || (!e.cross && e.to == node && e.from in chain[..k])
      {
        assert chain[..k + 1] == chain[..k] + [chain[k]];
        edges := edges + [Edge(chain[k], node, false)];
      }
      assert chain[..|chain|] == chain;
    }

    /** Adds the task to the groups of one address and draws its edges. */
    method AddToChain(chain: AccessChain, task: nat, ty: AccessType) returns (r: AccessChain)
      requires ty != ReductionAccess
      modifies this`edges
      ensures Updated(chain, r, task, KindOf(ty))
      ensures EdgesAdded(old(edges), edges, r.prev, task)
    {
      r := chain;
      if ty == ReadAccess || ty == ConcurrentAccess {
        if KindOf(ty) != r.lastKind {
          r := SwapChains(r);
          r := r.(lastKind := KindOf(ty));
        }
        r := r.(last := r.last + [task]);
        CreateEdges(task, r.prev);
      } else {
        r := SwapChains(r);
        r := r.(lastKind := WriteKind);
        if r.prev != [] {
          CreateEdges(task, r.prev);
        }
        r := r.(last := r.last + [task]);
      }
    }

    /** Registers the access of a task; tasks come in the order of their creation. */
    method AddTaskAccess(task: nat, a: nat, ty: AccessType)
      requires Valid() && task < size && ty != ReductionAccess
      requires Youngest(chains, a, task)
      modifies this`bottomMap, this`edges, this`chains, this`log
      ensures Valid() && chains == old(chains)[a := Extended(old(chains), a, task, KindOf(ty))]
      ensures log == old(log) + [Access(task, a, ty)]
    {
      ghost var before := edges;
      var chain := AddToChain(RecordFor(bottomMap, a), task, ty);
      ghost var grown := chains[a := Extended(chains, a, task, KindOf(ty))];
      assert Recording(size, grown, bottomMap[a := chain], edges) by {
        RecordingGrows(size, chains, bottomMap, before, edges, a, task, KindOf(ty), chain);
      }
      LogGrows(log, chains, Access(task, a, ty));
      bottomMap := bottomMap[a := chain];
      chains := grown;
      log := log + [Access(task, a, ty)];
    }

    /** Draws a cross edge from every task of one group to every task of another and counts it at its target. */
    method AddCrossEdges(from: seq<nat>, to: seq<nat>)
      requires Counted(size, edges, original) && Below(to, size)
      modifies this`edges, this`original
      ensures Counted(size, edges, original) && CrossAdded(old(edges), edges)
      ensures forall e :: e in edges <==> e in old(edges) || Between(e, from, to)
    {
      for i := 0 to |to|
        invariant Counted(size, edges, original) && CrossAdded(old(edges), edges)
        invariant forall e :: e in edges <==> e in old(edges) || Between(e, from, to[..i])
      {
        ghost var before := edges;
        for j := 0 to |from|
          invariant Counted(size, edges, original) && CrossAdded(old(edges), edges)
          invariant forall e :: e in edges <==> e in before || Between(e, from[..j], [to[i]])
        {
          assert from[..j + 1] == from[..j] + [from[j]];
          CountedSnoc(size, edges, original, Edge(from[j], to[i], true));
          edges := edges + [Edge(from[j], to[i], true)];
          original := original[to[i] := original[to[i]] + 1];
        }
        assert from[..|from|] == from && to[..i + 1] == to[..i] + [to[i]];
      }
      assert to[..|to|] == to;
    }

    /** Closes one address. */
    method CloseChain(chain: AccessChain)
      requires Counted(size, edges, original) && Inside(chain, size) && chain.last != []
      requires chain.first == [] ==> chain.prev == []
      modifies this`edges, this`original
      ensures Counted(size, edges, original) && ClosingAdded(chain, old(edges), edges)
    {
      var r := chain;
      if r.first == [] {
        r := r.(first := r.last, firstKind := r.lastKind);
      } else if r.second == [] {
        r := r.(second := r.last);
      }
      if r.firstKind != r.lastKind || r.firstKind == WriteKind {
        AddCrossEdges(r.last, r.first);
      } else if r.second != [] {
        AddCrossEdges(r.last, r.second);
        AddCrossEdges(r.prev, r.first);
      }
    }

    /** Closes the loop: the graph now has exactly the body edges and the cross edges of the loop. The record of an
        address is not needed any more. */
    method CloseDependencyLoop()
      requires Valid() && Counted(size, edges, original)
      modifies this`edges, this`original
      ensures Counted(size, edges, original) && CrossAdded(old(edges), edges)
      ensures forall e :: e in edges <==> HasEdge(Body(), e)
    {
      var todo := bottomMap.Keys;
      while todo != {}
        invariant todo <= bottomMap.Keys && Counted(size, edges, original)
        invariant ClosingsAdded(bottomMap, todo, old(edges), edges)
        decreases todo
      {
        var a :| a in todo;
        ReadyToClose(bottomMap[a], chains[a], size);
        ghost var before := edges;
        CloseChain(bottomMap[a]);
        OneMoreClosed(bottomMap, todo, a, old(edges), before, edges);
        todo := todo - {a};
      }
      ClosedGraph(size, chains, bottomMap, old(edges), edges);
    }

    /** Counts the body edges at their targets, on top of one guard per task. */
    method CountBodyEdges()
      requires pred == seq(size, t => 0) && original == seq(size, t => 0)
      requires Ends(edges, size)
      modifies this`pred, this`original
      ensures Counted(size, edges, original)
      ensures pred == Degrees(edges, size)
    {
      for t := 0 to size
        invariant |pred| == size && original == old(original)
        invariant forall u :: 0 <= u < size ==> pred[u] == if u < t then 1 else 0
      {
        pred := pred[t := pred[t] + 1];
      }
      for k := 0 to |edges|
        invariant |pred| == |original| == size
        invariant forall u :: 0 <= u < size ==> original[u] == InDegree(edges, k, u, true)
        invariant forall u :: 0 <= u < size ==> pred[u] == 1 + InDegree(edges, k, u, false)
      {
        var t := edges[k].to;
        if !edges[k].cross {
          pred := pred[t := pred[t] + 1];
        }
        original := original[t := original[t] + 1];
      }
    }

    /** Counts the edges into each task and closes the loop. The result is the start of the execution: a guard and one
        predecessor per body edge now, and one per edge for each later iteration. */
    method SetTaskDegree(ghost rounds: nat)
      requires Valid() && rounds >= 1
      requires pred == seq(size, t => 0) && original == seq(size, t => 0)
      modifies this`edges, this`original, this`pred
      ensures forall e :: e in edges <==> HasEdge(Body(), e)
      ensures GraphOk(Graph(Body(), edges, rounds)) && pred == Start(Graph(Body(), edges, rounds)).pred
      ensures Counted(size, edges, original)
    {
      BodyInside(size, chains, edges);
      CountBodyEdges();
      ghost var body := edges;
      CloseDependencyLoop();
      ExactGraph(Graph(Body(), edges, rounds));
      StartDegrees(Body(), body, edges, rounds);
    }
  }
}
