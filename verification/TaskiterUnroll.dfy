/** The accesses of a loop body to one address, and the same body repeated for ever.
    Runs of reads and runs of concurrents form groups; any other access is a group of its own. Consecutive groups are
    what the task graph connects, and that is enough to order every conflicting pair. */
module TaskiterUnroll {

  /** Commutative and readwrite accesses count as writes here. */
  datatype Kind = ReadKind | ConcurrentKind | WriteKind

  /** The access at position `x` of the body repeated for ever. */
  function At(t: seq<Kind>, x: nat): Kind
    requires t != []
    decreases x
  {
    if x < |t| then t[x] else At(t, x - |t|)
  }

  /** A new group starts at `z`. */
  predicate Boundary(t: seq<Kind>, z: nat)
    requires t != []
  {
    z > 0 && (At(t, z) == WriteKind || At(t, z) != At(t, z - 1))
  }

  /** The number of the group that contains position `x`. */
  function Group(t: seq<Kind>, x: nat): nat
    requires t != []
  {
    if x == 0 then 0 else Group(t, x - 1) + if Boundary(t, x) then 1 else 0
  }

  /** The dependency that the program asks for: `y` comes later and the two may not run together. */
  predicate Conflict(t: seq<Kind>, x: nat, y: nat)
    requires t != []
  {
    x < y && !(At(t, x) == At(t, y) && At(t, x) != WriteKind)
  }

  lemma {:induction false} GroupMonotone(t: seq<Kind>, x: nat, y: nat)
    requires t != [] && x <= y
    ensures Group(t, x) <= Group(t, y)
    decreases y - x
  {
    if x < y {
      GroupMonotone(t, x, y - 1);
    }
  }

  /** Within a group all accesses are of one kind, and a write is alone. */
  lemma {:induction false} SameGroup(t: seq<Kind>, x: nat, y: nat)
    requires t != [] && x <= y && Group(t, x) == Group(t, y)
    ensures At(t, x) == At(t, y) && (At(t, x) == WriteKind ==> x == y)
    decreases y - x
  {
    if x < y {
      GroupMonotone(t, x, y - 1);
      SameGroup(t, x, y - 1);
    }
  }

  /** Conflicting accesses are in different groups. */
  lemma ConflictSeparates(t: seq<Kind>, x: nat, y: nat)
    requires t != [] && Conflict(t, x, y)
    ensures Group(t, x) < Group(t, y)
  {
    GroupMonotone(t, x, y);
    if Group(t, x) == Group(t, y) {
      SameGroup(t, x, y);
    }
  }

  /** The first position after `x` of the next group, if `y` is beyond the group of `x`. */
  lemma {:induction false} NextGroupStart(t: seq<Kind>, x: nat, y: nat) returns (z: nat)
    requires t != [] && Group(t, x) < Group(t, y)
    ensures x < z <= y && Boundary(t, z) && Group(t, z) == Group(t, x) + 1 && Group(t, z - 1) == Group(t, x)
    decreases y
  {
    if y <= x { GroupMonotone(t, y, x); }
    if Group(t, y - 1) == Group(t, x) {
      z := y;
    } else {
      GroupMonotone(t, x, y - 1);
      z := NextGroupStart(t, x, y - 1);
    }
  }

  /** Accesses of consecutive groups conflict. */
  lemma NeighboursConflict(t: seq<Kind>, x: nat, y: nat)
    requires t != [] && Group(t, y) == Group(t, x) + 1
    ensures Conflict(t, x, y)
  {
    var z := NextGroupStart(t, x, y);
    SameGroup(t, x, z - 1);
    SameGroup(t, z, y);
  }

  // ---------------------------------------------------------------------------------------------
  // Periodicity

  lemma BoundaryRepeats(t: seq<Kind>, z: nat)
    requires t != [] && z > 0
    ensures Boundary(t, z + |t|) <==> Boundary(t, z)
  {
    assert At(t, z + |t|) == At(t, z) && At(t, z + |t| - 1) == At(t, z - 1);
  }

  lemma {:induction false} GroupsRepeat(t: seq<Kind>, x: nat, y: nat)
    requires t != [] && x <= y
    ensures Group(t, y + |t|) - Group(t, x + |t|) == Group(t, y) - Group(t, x)
    decreases y - x
  {
    if x < y {
      GroupsRepeat(t, x, y - 1);
      BoundaryRepeats(t, y);
    }
  }

  /** A group that ends at all ends within one body length: otherwise the boundary after it would repeat inside it. */
  lemma GroupEndsWithin(t: seq<Kind>, x: nat, z: nat)
    requires t != [] && x < z && Boundary(t, z) && Group(t, z - 1) == Group(t, x)
    ensures z <= x + |t|
  {
    if x + |t| < z {
      BoundaryRepeats(t, z - |t|);
      GroupMonotone(t, x, z - |t| - 1);
      GroupMonotone(t, z - |t|, z - 1);
    }
  }

  /** The next group ends within one body length of `x`, or else it would repeat the kind of `x`. */
  lemma NextGroupEndsWithin(t: seq<Kind>, x: nat, z: nat, y: nat)
    requires t != [] && x < z <= y && z <= x + |t| && Boundary(t, z)
    requires Group(t, z - 1) == Group(t, x) && Group(t, y) == Group(t, z)
    ensures y <= x + |t|
  {
    if y > x + |t| {
      SameGroup(t, x, z - 1);
      GroupMonotone(t, z, x + |t|);
      GroupMonotone(t, x + |t|, y);
      SameGroup(t, z, x + |t|);
      SameGroup(t, z, y);
    }
  }

  /** Consecutive groups are never more than one body length apart. */
  lemma NeighboursAreClose(t: seq<Kind>, x: nat, y: nat)
    requires t != [] && Group(t, y) == Group(t, x) + 1
    ensures x < y <= x + |t|
  {
    var z := NextGroupStart(t, x, y);
    GroupEndsWithin(t, x, z);
    NextGroupEndsWithin(t, x, z, y);
  }

  // ---------------------------------------------------------------------------------------------
  // Iterations

  /** Access `i` of iteration `k`. */
  function Pos(t: seq<Kind>, k: nat, i: nat): nat {
    if k == 0 then i else |t| + Pos(t, k - 1, i)
  }

  function Iteration(t: seq<Kind>, x: nat): nat
    requires t != []
    decreases x
  {
    if x < |t| then 0 else 1 + Iteration(t, x - |t|)
  }

  function Index(t: seq<Kind>, x: nat): (i: nat)
    requires t != []
    ensures i < |t|
    decreases x
  {
    if x < |t| then x else Index(t, x - |t|)
  }

  lemma {:induction false} PosOfParts(t: seq<Kind>, x: nat)
    requires t != []
    ensures Pos(t, Iteration(t, x), Index(t, x)) == x
    decreases x
  {
    if x >= |t| { PosOfParts(t, x - |t|); }
  }

  lemma {:induction false} PartsOfPos(t: seq<Kind>, k: nat, i: nat)
    requires t != [] && i < |t|
    ensures Iteration(t, Pos(t, k, i)) == k && Index(t, Pos(t, k, i)) == i && At(t, Pos(t, k, i)) == t[i]
  {
    if k > 0 { PartsOfPos(t, k - 1, i); }
  }

  lemma {:induction false} PosOrder(t: seq<Kind>, k: nat, i: nat, l: nat, j: nat)
    requires i < |t| && j < |t|
    ensures k < l ==> Pos(t, k, i) < Pos(t, l, j)
    ensures k == l ==> (Pos(t, k, i) < Pos(t, l, j) <==> i < j)
    ensures l >= k + 2 ==> Pos(t, l, j) > Pos(t, k, i) + |t|
  {
    if k > 0 && l > 0 {
      PosOrder(t, k - 1, i, l - 1, j);
    } else if l > 0 {
      PosFromStart(t, l, j);
    } else if k > 0 {
      PosFromStart(t, k, i);
    }
  }

  lemma {:induction false} PosFromStart(t: seq<Kind>, k: nat, i: nat)
    requires i < |t| && k > 0
    ensures Pos(t, k, i) >= |t| + i && (k > 1 ==> Pos(t, k, i) >= 2 * |t| + i)
  {
    if k > 1 { PosFromStart(t, k - 1, i); }
  }

  /** An edge inside an iteration, by positions in the body: consecutive groups. */
  predicate BodyEdge(t: seq<Kind>, i: nat, j: nat)
    requires t != []
  {
    i < |t| && j < |t| && Group(t, j) == Group(t, i) + 1
  }

  /** An edge to the next iteration: consecutive groups across the end of the body, where the last run of reads (or
      concurrents) and the first may be one group. */
  predicate CrossEdge(t: seq<Kind>, i: nat, j: nat)
    requires t != []
  {
    i < |t| && j < |t| && Group(t, |t| + j) == Group(t, i) + 1
  }

  /** The body edges copied in each iteration, and the cross edges from each iteration to the next. */
  predicate UnrolledEdge(t: seq<Kind>, k: nat, i: nat, l: nat, j: nat)
    requires t != []
  {
    (k == l && BodyEdge(t, i, j)) || (l == k + 1 && CrossEdge(t, i, j))
  }

  lemma {:induction false} GroupsRepeatFor(t: seq<Kind>, k: nat, x: nat, y: nat)
    requires t != [] && x <= y
    ensures Group(t, Pos(t, k, y)) - Group(t, Pos(t, k, x)) == Group(t, y) - Group(t, x)
    ensures Pos(t, k, x) <= Pos(t, k, y)
  {
    if k > 0 {
      GroupsRepeatFor(t, k - 1, x, y);
      GroupsRepeat(t, Pos(t, k - 1, x), Pos(t, k - 1, y));
    }
  }

  lemma {:induction false} PosOfNext(t: seq<Kind>, k: nat, j: nat)
    ensures Pos(t, k + 1, j) == Pos(t, k, |t| + j)
  {
    if k > 0 { PosOfNext(t, k - 1, j); }
  }

  /** In the repeated body, the edges are exactly the pairs in consecutive groups. */
  lemma UnrolledEdgesAreNeighbours(t: seq<Kind>, k: nat, i: nat, l: nat, j: nat)
    requires t != [] && i < |t| && j < |t|
    ensures UnrolledEdge(t, k, i, l, j) <==> Group(t, Pos(t, l, j)) == Group(t, Pos(t, k, i)) + 1
  {
    var x, y := Pos(t, k, i), Pos(t, l, j);
    PosOrder(t, k, i, l, j);
    PosOrder(t, l, j, k, i);
    if Group(t, y) == Group(t, x) + 1 {
      NeighboursAreClose(t, x, y);
    }
    if k == l {
      if i <= j {
        GroupsRepeatFor(t, k, i, j);
      } else {
        GroupsRepeatFor(t, k, j, i);
        GroupMonotone(t, j, i);
      }
    } else if l == k + 1 {
      PosOfNext(t, k, j);
      GroupsRepeatFor(t, k, i, |t| + j);
    }
  }
}
