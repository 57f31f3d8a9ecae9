/** The alphabet of the data-access automata: permissions, flags, access types and messages,
    with the packing of a flag set into the 32-bit word that `fetch_add` updates. */
module AccessFlags {

  datatype Option<+T> = None | Some(value: T)

  datatype Perm = Read | Write | Concurrent | Commutative

  datatype Flag =
    | Sat(perm: Perm)        // permission held by the access
    | ChildDone(perm: Perm)  // permission given back by the chain of child accesses
    | NextSat(perm: Perm)    // permission delivered to the successor (or back to the parent)
    | ChildSat(perm: Perm)   // permission delivered to the first child
    | Unregistered
    | HasNext
    | HasChild
    | ParentDone
    | NextIsParent
    | ReductionCombined
    | IsWeak

  type Flags = set<Flag>

  datatype AccessType =
    | ReadAccess | WriteAccess | ReadWriteAccess | ConcurrentAccess | CommutativeAccess | ReductionAccess

  const ALL_PERMS: set<Perm> := {Read, Write, Concurrent, Commutative}

  function SatFlags(ps: set<Perm>): (fs: Flags)
    ensures forall f :: f in fs <==> f.Sat? && f.perm in ps
  {
    set p | p in ps :: Sat(p)
  }

  function ChildDoneFlags(ps: set<Perm>): (fs: Flags)
    ensures forall f :: f in fs <==> f.ChildDone? && f.perm in ps
  {
    set p | p in ps :: ChildDone(p)
  }

  function NextSatFlags(ps: set<Perm>): (fs: Flags)
    ensures forall f :: f in fs <==> f.NextSat? && f.perm in ps
  {
    set p | p in ps :: NextSat(p)
  }

  function ChildSatFlags(ps: set<Perm>): (fs: Flags)
    ensures forall f :: f in fs <==> f.ChildSat? && f.perm in ps
  {
    set p | p in ps :: ChildSat(p)
  }

  /** `flagsForNext` is added to the flags of `to`, then `flagsAfter` to the flags of `from`. */
  datatype Message = Message(
    flagsForNext: Flags, flagsAfter: Flags,
    from: nat, to: Option<nat>,
    schedule: bool, combine: bool)

  // ---------------------------------------------------------------------------------------------
  // Packing into the access word

  const WIDTH: nat := 23

  /** The flag stored at bit `i` of the access word. */
  function FlagAt(i: nat): Flag
    requires i < WIDTH
  {
    if i == 0 then Sat(Read)
    else if i == 1 then Sat(Write)
    else if i == 2 then Sat(Concurrent)
    else if i == 3 then Sat(Commutative)
    else if i == 4 then Unregistered
    else if i == 5 then ChildDone(Write)
    else if i == 6 then ChildDone(Read)
    else if i == 7 then ChildDone(Concurrent)
    else if i == 8 then ChildDone(Commutative)
    else if i == 9 then HasNext
    else if i == 10 then HasChild
    else if i == 11 then NextSat(Write)
    else if i == 12 then NextSat(Read)
    else if i == 13 then NextSat(Concurrent)
    else if i == 14 then NextSat(Commutative)
    else if i == 15 then ChildSat(Write)
    else if i == 16 then ChildSat(Read)
    else if i == 17 then ChildSat(Concurrent)
    else if i == 18 then ChildSat(Commutative)
    else if i == 19 then ParentDone
    else if i == 20 then NextIsParent
    else if i == 21 then ReductionCombined
    else IsWeak
  }

  function BitOf(f: Flag): (i: nat)
    ensures i < WIDTH && FlagAt(i) == f
    ensures forall j: nat | j < WIDTH && FlagAt(j) == f :: j == i
  {
    match f
    case Sat(p) => (match p case Read => 0 case Write => 1 case Concurrent => 2 case Commutative => 3)
    case Unregistered => 4
    case ChildDone(p) => (match p case Write => 5 case Read => 6 case Concurrent => 7 case Commutative => 8)
    case HasNext => 9
    case HasChild => 10
    case NextSat(p) => (match p case Write => 11 case Read => 12 case Concurrent => 13 case Commutative => 14)
    case ChildSat(p) => (match p case Write => 15 case Read => 16 case Concurrent => 17 case Commutative => 18)
    case ParentDone => 19
    case NextIsParent => 20
    case ReductionCombined => 21
    case IsWeak => 22
  }

  function Pow2(n: nat): (r: nat)
    ensures r >= 1
  {
    if n == 0 then 1 else 2 * Pow2(n - 1)
  }

  /** The low `n` bits of the word that holds the flags `fs`. */
  function Word(fs: Flags, n: nat := WIDTH): (w: nat)
    requires n <= WIDTH
    ensures w < Pow2(n)
  {
    if n == 0 then 0 else Word(fs, n - 1) + (if FlagAt(n - 1) in fs then Pow2(n - 1) else 0)
  }

  /** The word determines the flags: two words agree on their low `n` bits only if the flags do. */
  lemma {:induction false} WordInjective(fs: Flags, gs: Flags, n: nat, i: nat)
    requires i < n <= WIDTH && Word(fs, n) == Word(gs, n)
    ensures FlagAt(i) in fs <==> FlagAt(i) in gs
  {
    if i < n - 1 {
      WordInjective(fs, gs, n - 1, i);
    }
  }

  lemma {:induction false} WordOfOne(f: Flag, n: nat)
    requires n <= WIDTH
    ensures Word({f}, n) == if BitOf(f) < n then Pow2(BitOf(f)) else 0
  {
    hide FlagAt, BitOf;
    if n > 0 {
      WordOfOne(f, n - 1);
      assert FlagAt(n - 1) in {f} <==> n - 1 == BitOf(f);
    }
  }

  /** Each flag alone is the word that the runtime defines for it. */
  lemma FlagWords()
    ensures Word({Sat(Read)}) == 0x1 && Word({Sat(Write)}) == 0x2
    ensures Word({Sat(Concurrent)}) == 0x4 && Word({Sat(Commutative)}) == 0x8
    ensures Word({Unregistered}) == 0x10 && Word({ChildDone(Write)}) == 0x20
    ensures Word({ChildDone(Read)}) == 0x40 && Word({ChildDone(Concurrent)}) == 0x80
    ensures Word({ChildDone(Commutative)}) == 0x100 && Word({HasNext}) == 0x200
    ensures Word({HasChild}) == 0x400 && Word({NextSat(Write)}) == 0x800
    ensures Word({NextSat(Read)}) == 0x1000 && Word({NextSat(Concurrent)}) == 0x2000
    ensures Word({NextSat(Commutative)}) == 0x4000 && Word({ChildSat(Write)}) == 0x8000
    ensures Word({ChildSat(Read)}) == 0x10000 && Word({ChildSat(Concurrent)}) == 0x20000
    ensures Word({ChildSat(Commutative)}) == 0x40000 && Word({ParentDone}) == 0x80000
    ensures Word({NextIsParent}) == 0x100000 && Word({ReductionCombined}) == 0x200000
    ensures Word({IsWeak}) == 0x400000
  {
    hide Word, FlagAt, Pow2;
    PowersOfTwo();
    forall f: Flag ensures Word({f}) == Pow2(BitOf(f)) { WordOfOne(f, WIDTH); }
  }

  lemma PowersOfTwo()
    ensures Pow2(0) == 0x1 && Pow2(1) == 0x2 && Pow2(2) == 0x4 && Pow2(3) == 0x8
    ensures Pow2(4) == 0x10 && Pow2(5) == 0x20 && Pow2(6) == 0x40 && Pow2(7) == 0x80
    ensures Pow2(8) == 0x100 && Pow2(9) == 0x200 && Pow2(10) == 0x400 && Pow2(11) == 0x800
    ensures Pow2(12) == 0x1000 && Pow2(13) == 0x2000 && Pow2(14) == 0x4000 && Pow2(15) == 0x8000
    ensures Pow2(16) == 0x10000 && Pow2(17) == 0x20000 && Pow2(18) == 0x40000 && Pow2(19) == 0x80000
    ensures Pow2(20) == 0x100000 && Pow2(21) == 0x200000 && Pow2(22) == 0x400000
  {
    assert Pow2(0) == 0x1;
    assert Pow2(1) == 0x2;
    assert Pow2(2) == 0x4;
    assert Pow2(3) == 0x8;
    assert Pow2(4) == 0x10;
    assert Pow2(5) == 0x20;
    assert Pow2(6) == 0x40;
    assert Pow2(7) == 0x80;
    assert Pow2(8) == 0x100;
    assert Pow2(9) == 0x200;
    assert Pow2(10) == 0x400;
    assert Pow2(11) == 0x800;
    assert Pow2(12) == 0x1000;
    assert Pow2(13) == 0x2000;
    assert Pow2(14) == 0x4000;
    assert Pow2(15) == 0x8000;
    assert Pow2(16) == 0x10000;
    assert Pow2(17) == 0x20000;
    assert Pow2(18) == 0x40000;
    assert Pow2(19) == 0x80000;
    assert Pow2(20) == 0x100000;
    assert Pow2(21) == 0x200000;
    assert Pow2(22) == 0x400000;
  }

  /** Adding disjoint flags with one arithmetic addition sets exactly those bits: no bit carries. */
  lemma {:induction false} AddDisjoint(held: Flags, added: Flags, n: nat)
    requires n <= WIDTH && held !! added
    ensures Word(held, n) + Word(added, n) == Word(held + added, n)
  {
    if n > 0 {
      AddDisjoint(held, added, n - 1);
    }
  }

  /** The addition spills into other bits exactly when some flag was already set. */
  lemma {:induction false} AddOverlapping(held: Flags, added: Flags, n: nat)
    requires n <= WIDTH
    ensures Word(held, n) + Word(added, n) >= Word(held + added, n)
    ensures (exists i: nat :: i < n && FlagAt(i) in held * added) ==>
              Word(held, n) + Word(added, n) > Word(held + added, n)
  {
    hide FlagAt;
    if n > 0 {
      AddOverlapping(held, added, n - 1);
      if i: nat :| i < n && FlagAt(i) in held * added {
        assert i < n - 1 || i == n - 1;
      }
    }
  }

  /** `fetch_add` behaves as set union if and only if no added flag was already set. */
  lemma FetchAddIsUnion(held: Flags, added: Flags)
    ensures Word(held) + Word(added) == Word(held + added) <==> held !! added
  {
    if held !! added {
      AddDisjoint(held, added, WIDTH);
    } else {
      var f :| f in held && f in added;
      assert FlagAt(BitOf(f)) in held * added;
      AddOverlapping(held, added, WIDTH);
    }
  }
}
