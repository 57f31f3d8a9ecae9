/** Tasks with commutative accesses take all their addresses at once, as bits of one mask, or wait. */
module CommutativeSemaphore {

  /** A task with the mask of its commutative addresses. */
  datatype Claim = Claim(task: nat, mask: set<nat>)

  const MASK_BITS := 1024

  /** The mask of a set of addresses under a hash function. */
  function MaskOf(hash: nat -> nat, addresses: set<nat>): (mask: set<nat>)
    ensures forall b :: b in mask <==> exists a :: a in addresses && hash(a) % MASK_BITS == b
  {
    set a | a in addresses :: hash(a) % MASK_BITS
  }

  predicate Fits(mask: set<nat>, c: Claim) { mask * c.mask == {} }

  // ---------------------------------------------------------------------------------------------
  // Scanning the waiting tasks

  datatype Scanned = Scanned(admitted: seq<Claim>, kept: seq<Claim>)

  /** A full scan of the waiting tasks in order: each one that fits is admitted and takes its mask. */
  function Scan(mask: set<nat>, waiting: seq<Claim>): Scanned
    decreases |waiting|
  {
    if waiting == [] then Scanned([], [])
    else if Fits(mask, waiting[0]) then
      var rest := Scan(mask + waiting[0].mask, waiting[1..]);
      Scanned([waiting[0]] + rest.admitted, rest.kept)
    else
      var rest := Scan(mask, waiting[1..]);
      Scanned(rest.admitted, [waiting[0]] + rest.kept)
  }

  /** A scan loses nobody and duplicates nobody. */
  lemma {:induction false} ScanConserves(mask: set<nat>, waiting: seq<Claim>)
    ensures multiset(Scan(mask, waiting).admitted) + multiset(Scan(mask, waiting).kept) == multiset(waiting)
    decreases |waiting|
  {
    if waiting != [] {
      assert waiting == [waiting[0]] + waiting[1..];
      ScanConserves(if Fits(mask, waiting[0]) then mask + waiting[0].mask else mask, waiting[1..]);
    }
  }

  /** None of the bits of task `i` is taken, by the mask or by a task that is admitted before it. */
  predicate Free(mask: set<nat>, waiting: seq<Claim>, admits: seq<bool>, i: nat)
    requires i < |waiting| == |admits|
  {
    waiting[i].mask !! mask && forall j :: 0 <= j < i && admits[j] ==> waiting[i].mask !! waiting[j].mask
  }

  /** First come, first served: in order, a task is admitted if and only if none of its bits is taken. */
  ghost predicate Greedy(mask: set<nat>, waiting: seq<Claim>, admits: seq<bool>) {
    |admits| == |waiting| && forall i :: 0 <= i < |waiting| ==> (admits[i] <==> Free(mask, waiting, admits, i))
  }

  /** Those that are admitted, or those that are not, in order. */
  function Chosen(waiting: seq<Claim>, admits: seq<bool>, which: bool): seq<Claim>
    requires |admits| == |waiting|
  {
    if waiting == [] then []
    else (if admits[0] == which then [waiting[0]] else []) + Chosen(waiting[1..], admits[1..], which)
  }

  lemma FreeInRest(mask: set<nat>, waiting: seq<Claim>, admits: seq<bool>, i: nat)
    requires 0 < i < |waiting| == |admits|
    ensures Free(mask, waiting, admits, i)
            <==> Free(if admits[0] then mask + waiting[0].mask else mask, waiting[1..], admits[1..], i - 1)
  {
    var w, a := waiting[1..], admits[1..];
    forall j | 0 <= j < i - 1 ensures w[j] == waiting[j + 1] && a[j] == admits[j + 1] {}
    if Free(if admits[0] then mask + waiting[0].mask else mask, w, a, i - 1) {
      forall j | 0 <= j < i && admits[j] ensures waiting[i].mask !! waiting[j].mask {
        if j > 0 { assert a[j - 1]; }
      }
    }
    if Free(mask, waiting, admits, i) {
      forall j | 0 <= j < i - 1 && a[j] ensures w[i - 1].mask !! w[j].mask { assert admits[j + 1]; }
    }
  }

  lemma DisjointIsEmpty(a: set<nat>, b: set<nat>)
    ensures b !! a <==> a * b == {}
  {
    if a * b == {} { forall x | x in a ensures x !in b { assert x !in a * b; } }
  }

  lemma GreedyGoesOn(mask: set<nat>, waiting: seq<Claim>, admits: seq<bool>)
    requires waiting != []
    requires Greedy(if Fits(mask, waiting[0]) then mask + waiting[0].mask else mask, waiting[1..], admits)
    ensures Greedy(mask, waiting, [Fits(mask, waiting[0])] + admits)
  {
    var all := [Fits(mask, waiting[0])] + admits;
    assert all[1..] == admits;
    forall i | 0 <= i < |waiting| ensures all[i] <==> Free(mask, waiting, all, i) {
      if i == 0 {
        DisjointIsEmpty(mask, waiting[0].mask);
      } else {
        FreeInRest(mask, waiting, all, i);
        assert all[i] == admits[i - 1];
      }
    }
  }

  /** A scan is first come, first served. */
  lemma {:induction false} ScanIsGreedy(mask: set<nat>, waiting: seq<Claim>) returns (admits: seq<bool>)
    ensures Greedy(mask, waiting, admits)
    ensures Scan(mask, waiting) == Scanned(Chosen(waiting, admits, true), Chosen(waiting, admits, false))
    decreases |waiting|
  {
    if waiting == [] {
      admits := [];
    } else {
      var fits := Fits(mask, waiting[0]);
      var rest := ScanIsGreedy(if fits then mask + waiting[0].mask else mask, waiting[1..]);
      GreedyGoesOn(mask, waiting, rest);
      admits := [fits] + rest;
      assert admits[1..] == rest;
    }
  }

  /** Nobody in the list fits. */
  ghost predicate AllConflict(mask: set<nat>, waiting: seq<Claim>) {
    forall i :: 0 <= i < |waiting| ==> !Fits(mask, waiting[i])
  }

  lemma {:induction false} NobodyElse(mask: set<nat>, waiting: seq<Claim>)
    requires AllConflict(mask, waiting)
    ensures Scan(mask, waiting) == Scanned([], waiting)
  {
    if waiting != [] {
      assert !Fits(mask, waiting[0]);
      NobodyElse(mask, waiting[1..]);
    }
  }

  lemma ConflictGrows(mask: set<nat>, more: set<nat>, waiting: seq<Claim>)
    requires AllConflict(mask, waiting) && mask <= more
    ensures AllConflict(more, waiting)
  {
    forall i | 0 <= i < |waiting| ensures !Fits(more, waiting[i]) {
      assert !Fits(mask, waiting[i]);
      var b :| b in mask * waiting[i].mask;
      assert b in more * waiting[i].mask;
    }
  }

  /** The early cut-off: when the admitted tasks have taken every bit that was released, everyone left still conflicts,
      so stopping gives the same result as scanning on. */
  lemma CutOffIsFullScan(before: set<nat>, released: set<nat>, mask: set<nat>, rest: seq<Claim>)
    requires AllConflict(before, rest) && before - released <= mask && released <= mask
    ensures Scan(mask, rest) == Scanned([], rest)
  {
    ConflictGrows(before, mask, rest);
    NobodyElse(mask, rest);
  }

  // ---------------------------------------------------------------------------------------------
  // The holders

  ghost predicate Held(holders: set<Claim>, b: nat) {
    exists h :: h in holders && b in h.mask
  }

  /** The mask is the disjoint union of the masks of the holders. */
  ghost predicate MaskOk(mask: set<nat>, holders: set<Claim>) {
    && (forall b :: b in mask <==> Held(holders, b))
    && (forall g, h :: g in holders && h in holders && g != h ==> g.mask !! h.mask)
  }

  ghost predicate SemaphoreOk(mask: set<nat>, holders: set<Claim>, waiting: seq<Claim>) {
    MaskOk(mask, holders) && AllConflict(mask, waiting)
  }

  lemma MaskGrows(mask: set<nat>, holders: set<Claim>, c: Claim)
    requires MaskOk(mask, holders) && Fits(mask, c)
    ensures MaskOk(mask + c.mask, holders + {c})
    ensures forall h :: h in holders ==> h.mask !! c.mask
  {
    forall h, b | h in holders && b in h.mask ensures b !in c.mask {
      assert Held(holders, b) && b in mask && b !in mask * c.mask;
    }
    forall b ensures b in mask + c.mask <==> Held(holders + {c}, b) {
      if b in mask {
        var h :| h in holders && b in h.mask;
        assert h in holders + {c};
      }
      if b in c.mask { assert c in holders + {c}; }
    }
  }

  lemma MaskShrinks(mask: set<nat>, holders: set<Claim>, c: Claim)
    requires MaskOk(mask, holders) && c in holders
    ensures MaskOk(mask - c.mask, holders - {c})
  {
    forall b ensures b in mask - c.mask <==> Held(holders - {c}, b) {
      if b in mask - c.mask {
        var h :| h in holders && b in h.mask;
        assert h in holders - {c};
      }
      if Held(holders - {c}, b) {
        var h :| h in holders - {c} && b in h.mask;
        assert Held(holders, b);
      }
    }
  }

  /** Two tasks that share a commutative address, under whatever hash, never hold together. */
  lemma SharedAddressExcludes(hash: nat -> nat, mask: set<nat>, holders: set<Claim>, waiting: seq<Claim>,
      g: Claim, h: Claim, as1: set<nat>, as2: set<nat>)
    requires SemaphoreOk(mask, holders, waiting) && g.task != h.task
    requires g.mask == MaskOf(hash, as1) && h.mask == MaskOf(hash, as2) && as1 * as2 != {}
    ensures !(g in holders && h in holders)
  {
    var a :| a in as1 * as2;
    assert hash(a) % MASK_BITS in g.mask && hash(a) % MASK_BITS in h.mask;
  }

  ghost predicate Blocked(holders: set<Claim>, w: Claim) {
    exists h :: h in holders && h.mask * w.mask != {}
  }

  /** Every waiter waits for somebody who holds one of its bits; so without holders there are no waiters. */
  lemma WaitersHaveHolders(mask: set<nat>, holders: set<Claim>, waiting: seq<Claim>)
    requires SemaphoreOk(mask, holders, waiting)
    ensures forall w :: w in waiting ==> Blocked(holders, w)
    ensures holders == {} ==> waiting == []
  {
    forall w | w in waiting ensures Blocked(holders, w) {
      assert !Fits(mask, w);
      var b :| b in mask * w.mask;
      assert Held(holders, b);
      var h :| h in holders && b in h.mask;
      assert b in h.mask * w.mask;
    }
    if waiting != [] { assert waiting[0] in waiting; }
  }

  // ---------------------------------------------------------------------------------------------
  // The release scan

  function Claims(cs: seq<Claim>): set<Claim> { set c | c in cs }

  /** Part of the way through the scan that follows the release of `c`: `kept` has been skipped and `rest` not been
      looked at. */
  ghost predicate Scanning(before: set<nat>, c: Claim, waiting: seq<Claim>, mask: set<nat>, admitted: seq<Claim>,
      kept: seq<Claim>, rest: seq<Claim>)
  {
    && Scan(before - c.mask, waiting).admitted == admitted + Scan(mask, rest).admitted
    && Scan(before - c.mask, waiting).kept == kept + Scan(mask, rest).kept
    && AllConflict(mask, kept) && AllConflict(before, rest) && before - c.mask <= mask
  }

  lemma ScanAdmits(before: set<nat>, c: Claim, waiting: seq<Claim>, mask: set<nat>, admitted: seq<Claim>,
      kept: seq<Claim>, rest: seq<Claim>)
    requires Scanning(before, c, waiting, mask, admitted, kept, rest) && rest != [] && Fits(mask, rest[0])
    ensures Scanning(before, c, waiting, mask + rest[0].mask, admitted + [rest[0]], kept, rest[1..])
  {
    ConflictGrows(mask, mask + rest[0].mask, kept);
    ConflictDrops(before, rest);
  }

  lemma ScanSkips(before: set<nat>, c: Claim, waiting: seq<Claim>, mask: set<nat>, admitted: seq<Claim>,
      kept: seq<Claim>, rest: seq<Claim>)
    requires Scanning(before, c, waiting, mask, admitted, kept, rest) && rest != [] && !Fits(mask, rest[0])
    ensures Scanning(before, c, waiting, mask, admitted, kept + [rest[0]], rest[1..])
  {
    ConflictDrops(before, rest);
  }

  lemma ConflictDrops(mask: set<nat>, waiting: seq<Claim>)
    requires AllConflict(mask, waiting) && waiting != []
    ensures AllConflict(mask, waiting[1..])
  {
    forall i | 0 <= i < |waiting| - 1 ensures !Fits(mask, waiting[1..][i]) { assert !Fits(mask, waiting[i + 1]); }
  }

  /** The scan may stop at the end, or when everything released has been taken. */
  lemma ScanEnds(before: set<nat>, c: Claim, waiting: seq<Claim>, mask: set<nat>, admitted: seq<Claim>,
      kept: seq<Claim>, rest: seq<Claim>)
    requires Scanning(before, c, waiting, mask, admitted, kept, rest) && (rest == [] || c.mask <= mask)
    ensures Scan(before - c.mask, waiting) == Scanned(admitted, kept + rest) && AllConflict(mask, kept + rest)
  {
    if rest != [] {
      CutOffIsFullScan(before, c.mask, mask, rest);
      ConflictGrows(before, mask, rest);
    }
  }

  lemma ClaimsSnoc(cs: seq<Claim>, c: Claim)
    ensures Claims(cs + [c]) == Claims(cs) + {c}
  {
  }

  /** What the scan keeps true of the mask, of the holders and of the bits taken again. */
  ghost predicate Admitting(before: set<Claim>, c: Claim, mask: set<nat>, holders: set<Claim>, admitted: seq<Claim>,
      released: set<nat>)
  {
    && MaskOk(mask, holders) && holders == before - {c} + Claims(admitted)
    && released <= mask && released <= c.mask
  }

  lemma AdmittingGrows(before: set<Claim>, c: Claim, mask: set<nat>, holders: set<Claim>, admitted: seq<Claim>,
      released: set<nat>, w: Claim)
    requires Admitting(before, c, mask, holders, admitted, released) && Fits(mask, w)
    ensures Admitting(before, c, mask + w.mask, holders + {w}, admitted + [w], released + (c.mask * w.mask))
  {
    MaskGrows(mask, holders, w);
    ClaimsSnoc(admitted, w);
  }

  lemma Erased(ws: seq<Claim>, i: nat)
    requires i < |ws|
    ensures (ws[..i] + ws[i + 1..])[..i] == ws[..i] && (ws[..i] + ws[i + 1..])[i..] == ws[i..][1..]
    ensures ws[..i + 1] == ws[..i] + [ws[i]] && ws[i + 1..] == ws[i..][1..] && ws[i..][0] == ws[i]
  {
  }

  /** The fields of the semaphore. */
  datatype Fields = Fields(mask: set<nat>, waiting: seq<Claim>, holders: set<Claim>)

  /** Part of the way through the release of `c`, with the first `i` waiters skipped. */
  ghost predicate Partway(was: Fields, c: Claim, now: Fields, admitted: seq<Claim>, released: set<nat>, i: nat) {
    && i <= |now.waiting| && Admitting(was.holders, c, now.mask, now.holders, admitted, released)
    && Scanning(was.mask, c, was.waiting, now.mask, admitted, now.waiting[..i], now.waiting[i..])
  }

  function Admit(now: Fields, i: nat): Fields
    requires i < |now.waiting|
  {
    var w := now.waiting[i];
    Fields(now.mask + w.mask, now.waiting[..i] + now.waiting[i + 1..], now.holders + {w})
  }

  lemma ReleaseStarts(was: Fields, c: Claim)
    requires SemaphoreOk(was.mask, was.holders, was.waiting) && c in was.holders
    ensures Partway(was, c, Fields(was.mask - c.mask, was.waiting, was.holders - {c}), [], {}, 0)
  {
    MaskShrinks(was.mask, was.holders, c);
    assert was.waiting[0..] == was.waiting;
    assert [] + Scan(was.mask - c.mask, was.waiting).admitted == Scan(was.mask - c.mask, was.waiting).admitted;
  }

  lemma TurnAdmits(was: Fields, c: Claim, now: Fields, admitted: seq<Claim>, released: set<nat>, i: nat)
    requires Partway(was, c, now, admitted, released, i) && i < |now.waiting| && Fits(now.mask, now.waiting[i])
    ensures var w := now.waiting[i];
            Partway(was, c, Admit(now, i), admitted + [w], released + (c.mask * w.mask), i)
  {
    Erased(now.waiting, i);
    ScanAdmits(was.mask, c, was.waiting, now.mask, admitted, now.waiting[..i], now.waiting[i..]);
    AdmittingGrows(was.holders, c, now.mask, now.holders, admitted, released, now.waiting[i]);
  }

  lemma TurnSkips(was: Fields, c: Claim, now: Fields, admitted: seq<Claim>, released: set<nat>, i: nat)
    requires Partway(was, c, now, admitted, released, i) && i < |now.waiting| && !Fits(now.mask, now.waiting[i])
    ensures Partway(was, c, now, admitted, released, i + 1)
  {
    Erased(now.waiting, i);
    ScanSkips(was.mask, c, was.waiting, now.mask, admitted, now.waiting[..i], now.waiting[i..]);
  }

  lemma ReleaseEnds(was: Fields, c: Claim, now: Fields, admitted: seq<Claim>, released: set<nat>, i: nat)
    requires Partway(was, c, now, admitted, released, i) && (i == |now.waiting| || released == c.mask)
    ensures SemaphoreOk(now.mask, now.holders, now.waiting) && now.holders == was.holders - {c} + Claims(admitted)
    ensures Scanned(admitted, now.waiting) == Scan(was.mask - c.mask, was.waiting)
  {
    ScanEnds(was.mask, c, was.waiting, now.mask, admitted, now.waiting[..i], now.waiting[i..]);
    assert now.waiting[..i] + now.waiting[i..] == now.waiting;
  }

  class CommutativeSemaphore {
    var mask: set<nat>
    var waiting: seq<Claim>
    ghost var holders: set<Claim>

    ghost predicate Valid()
      reads this
    {
      SemaphoreOk(mask, holders, waiting)
    }

    constructor ()
      ensures Valid() && mask == {} && waiting == [] && holders == {}
    {
      mask, waiting, holders := {}, [], {};
    }

    /** Takes the semaphore if nobody holds any part of the mask, and waits otherwise. */
    method RegisterTask(c: Claim) returns (ok: bool)
      requires Valid() && c.mask != {}
      modifies this
      ensures Valid() && (ok <==> forall h :: h in old(holders) ==> h.mask !! c.mask)
      ensures holders == (if ok then old(holders) + {c} else old(holders))
      ensures waiting == (if ok then old(waiting) else old(waiting) + [c])
    {
      if mask * c.mask == {} {
        MaskGrows(mask, holders, c);
        ConflictGrows(mask, mask + c.mask, waiting);
        mask := mask + c.mask;
        holders := holders + {c};
        return true;
      }
      ghost var b :| b in mask * c.mask;
      ghost var h :| h in holders && b in h.mask;
      waiting := waiting + [c];
      return false;
    }

    /** Gives up the mask of a holder and admits waiting tasks in order; the result is that of a full scan, although the
        scan stops as soon as all released bits are taken again. */
    method ReleaseTask(c: Claim) returns (admitted: seq<Claim>)
      requires Valid() && c in holders
      modifies this
      ensures Valid()
      ensures Scanned(admitted, waiting) == Scan(old(mask) - c.mask, old(waiting))
      ensures holders == old(holders) - {c} + Claims(admitted)
    {
      hide Partway, Scan, SemaphoreOk;
      ghost var was := Fields(mask, waiting, holders);
      ReleaseStarts(was, c);
      mask := mask - c.mask;
      holders := holders - {c};
      admitted := [];
      var released: set<nat> := {};
      var i := 0;
      while i < |waiting|
        invariant i <= |waiting|
        invariant Partway(was, c, Fields(mask, waiting, holders), admitted, released, i)
        decreases |waiting| - i
      {
        var candidate := waiting[i];
        if mask * candidate.mask == {} {
          TurnAdmits(was, c, Fields(mask, waiting, holders), admitted, released, i);
          mask := mask + candidate.mask;
          holders := holders + {candidate};
          admitted := admitted + [candidate];
          waiting := waiting[..i] + waiting[i + 1..];
          released := released + (c.mask * candidate.mask);
          if released == c.mask {
            break;
          }
        } else {
          TurnSkips(was, c, Fields(mask, waiting, holders), admitted, released, i);
          i := i + 1;
        }
      }
      ReleaseEnds(was, c, Fields(mask, waiting, holders), admitted, released, i);
    }
  }
}
