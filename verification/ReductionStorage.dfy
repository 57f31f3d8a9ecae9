/** Private storage for the tasks of a reduction: one slot per CPU at most, handed out as tasks ask for it and combined
    at the end. The result is the fold of all contributions, whichever CPUs and slots they went through. */
module ReductionStorage {
  import opened AtomicBitset

  // ---------------------------------------------------------------------------------------------
  // Folding

  /** The operator of a reduction: commutative and associative, with an identity. */
  ghost predicate Operator<T(!new)>(op: (T, T) -> T, id: T) {
    && (forall x: T, y: T :: Commutes(op, x, y))
    && (forall x: T, y: T, z: T :: Associates(op, x, y, z))
    && (forall x: T :: Neutral(op, id, x))
  }

  ghost predicate Commutes<T(!new)>(op: (T, T) -> T, x: T, y: T) { op(x, y) == op(y, x) }

  ghost predicate Associates<T(!new)>(op: (T, T) -> T, x: T, y: T, z: T) { op(op(x, y), z) == op(x, op(y, z)) }

  ghost predicate Neutral<T(!new)>(op: (T, T) -> T, id: T, x: T) { op(x, id) == x }

  /** Two values can be exchanged. */
  lemma Exchange<T(!new)>(op: (T, T) -> T, id: T, f: T, x: T, y: T)
    requires Operator(op, id)
    ensures op(op(f, x), y) == op(op(f, y), x)
  {
    assert Associates(op, f, x, y) && Associates(op, f, y, x) && Commutes(op, x, y);
  }

  function Fold<T>(op: (T, T) -> T, id: T, values: seq<T>): T {
    if values == [] then id else op(Fold(op, id, values[..|values| - 1]), values[|values| - 1])
  }

  /** A fold applies the operator to all values: to one it does nothing, and the parts of a list can be folded apart. */
  lemma {:induction false} FoldOfParts<T(!new)>(op: (T, T) -> T, id: T, x: T, a: seq<T>, b: seq<T>)
    requires Operator(op, id)
    ensures Fold(op, id, [x]) == x && Fold(op, id, a + b) == op(Fold(op, id, a), Fold(op, id, b))
    decreases |b|
  {
    assert Neutral(op, id, x) && Commutes(op, id, x) && [x][..0] == [];
    if b == [] {
      assert a + b == a && Neutral(op, id, Fold(op, id, a));
    } else {
      var n := |b| - 1;
      assert (a + b)[..|a| + n] == a + b[..n];
      FoldOfParts(op, id, x, a, b[..n]);
      assert Associates(op, Fold(op, id, a), Fold(op, id, b[..n]), b[n]);
    }
  }

  /** Taking one value out from anywhere. */
  lemma {:induction false} FoldWithout<T(!new)>(op: (T, T) -> T, id: T, values: seq<T>, k: nat)
    requires Operator(op, id) && k < |values|
    ensures Fold(op, id, values) == op(Fold(op, id, values[..k] + values[k + 1..]), values[k])
    decreases |values|
  {
    var n := |values| - 1;
    if k < n {
      var rest, last := values[..n], values[n];
      var out := values[..k] + values[k + 1..];
      assert rest[..k] + rest[k + 1..] == out[..n - 1] && out[n - 1] == last && |out| == n;
      FoldWithout(op, id, rest, k);
      Exchange(op, id, Fold(op, id, out[..n - 1]), values[k], last);
    } else {
      assert values[..k] + values[k + 1..] == values[..n];
    }
  }

  lemma TakeOut<T>(b: seq<T>, k: nat)
    requires k < |b|
    ensures multiset(b[..k] + b[k + 1..]) == multiset(b) - multiset{b[k]}
  {
    assert b == b[..k] + [b[k]] + b[k + 1..];
  }

  /** The order of the contributions does not matter. */
  lemma {:induction false} FoldPermutation<T(!new)>(op: (T, T) -> T, id: T, a: seq<T>, b: seq<T>)
    requires Operator(op, id) && multiset(a) == multiset(b)
    ensures Fold(op, id, a) == Fold(op, id, b)
    decreases |a|
  {
    if a == [] {
      assert |multiset(b)| == 0;
    } else {
      var n := |a| - 1;
      assert a[n] in multiset(b);
      var k :| 0 <= k < |b| && b[k] == a[n];
      TakeOut(b, k);
      TakeOut(a, n);
      assert a[..n] + a[n + 1..] == a[..n];
      FoldPermutation(op, id, a[..n], b[..k] + b[k + 1..]);
      FoldWithout(op, id, b, k);
    }
  }

  // ---------------------------------------------------------------------------------------------
  // Slots

  datatype Slot<T> = Slot(initialized: bool, value: T)

  function ValueOf<T>(id: T, s: Slot<T>): T {
    if s.initialized then s.value else id
  }

  /** What the slots hold together. */
  function Total<T>(op: (T, T) -> T, id: T, slots: seq<Slot<T>>): T {
    if slots == [] then id else op(Total(op, id, slots[..|slots| - 1]), ValueOf(id, slots[|slots| - 1]))
  }

  lemma {:induction false} TotalUpdate<T(!new)>(op: (T, T) -> T, id: T, slots: seq<Slot<T>>, i: nat, s: Slot<T>, v: T)
    requires Operator(op, id) && i < |slots| && ValueOf(id, s) == op(ValueOf(id, slots[i]), v)
    ensures Total(op, id, slots[i := s]) == op(Total(op, id, slots), v)
  {
    var n := |slots| - 1;
    var f := Total(op, id, slots[..n]);
    if i == n {
      assert slots[i := s][..n] == slots[..n];
      assert Associates(op, f, ValueOf(id, slots[n]), v);
    } else {
      assert slots[i := s][..n] == slots[..n][i := s];
      TotalUpdate(op, id, slots[..n], i, s, v);
      Exchange(op, id, f, v, ValueOf(id, slots[n]));
    }
  }

  lemma {:induction false} TotalOfNothing<T(!new)>(op: (T, T) -> T, id: T, slots: seq<Slot<T>>)
    requires Operator(op, id) && forall i :: 0 <= i < |slots| ==> !slots[i].initialized
    ensures Total(op, id, slots) == id
  {
    if slots != [] {
      TotalOfNothing(op, id, slots[..|slots| - 1]);
      assert Neutral(op, id, id);
    }
  }

  /** What combining the slots one after the other makes of a value: those that were never used are left out. */
  function Combination<T>(op: (T, T) -> T, original: T, slots: seq<Slot<T>>): T {
    if slots == [] then original
    else
      var n := |slots| - 1;
      var before := Combination(op, original, slots[..n]);
      if slots[n].initialized then op(before, slots[n].value) else before
  }

  lemma {:induction false} CombinationIsTotal<T(!new)>(op: (T, T) -> T, id: T, original: T, slots: seq<Slot<T>>)
    requires Operator(op, id)
    ensures Combination(op, original, slots) == op(original, Total(op, id, slots))
  {
    if slots == [] {
      assert Neutral(op, id, original);
    } else {
      var n := |slots| - 1;
      CombinationIsTotal(op, id, original, slots[..n]);
      var part := Total(op, id, slots[..n]);
      assert Associates(op, original, part, slots[n].value) && Neutral(op, id, part);
    }
  }

  // ---------------------------------------------------------------------------------------------
  // Who holds which slot

  /** Different CPUs hold different slots, and the slots in use are the ones held. */
  ghost predicate Injective(current: seq<int>, used: set<nat>) {
    && (forall c :: 0 <= c < |current| && current[c] != -1 ==> 0 <= current[c] && current[c] in used)
    && (forall c, d :: 0 <= c < d < |current| && current[c] != -1 ==> current[c] != current[d])
    && (forall s :: s in used ==> exists c :: 0 <= c < |current| && current[c] == s)
  }

  function Below(n: nat): (s: set<nat>)
    ensures |s| == n && forall i: nat :: i in s <==> i < n
  {
    if n == 0 then {} else Below(n - 1) + {n - 1}
  }

  lemma {:induction false} ImageIsSmall(f: seq<int>, c: set<nat>)
    requires forall x :: x in c ==> x < |f|
    ensures |set x | x in c :: f[x]| <= |c|
    decreases |c|
  {
    if c != {} {
      var x :| x in c;
      ImageIsSmall(f, c - {x});
      assert (set y | y in c :: f[y]) == (set y | y in c - {x} :: f[y]) + {f[x]};
    }
  }

  lemma SubsetIsSmaller(a: set<int>, b: set<int>)
    requires a <= b
    ensures |a| <= |b|
  {
    assert b == a + (b - a);
  }

  lemma AsInts(n: nat) returns (s: set<int>)
    ensures |s| == n && forall i: int :: i in s <==> 0 <= i < n
  {
    s := {};
    for k := 0 to n
      invariant |s| == k && forall i: int :: i in s <==> 0 <= i < k
    {
      s := s + {k};
    }
  }

  /** With as many slots as CPUs, a CPU without a slot always finds one free. */
  lemma SomeSlotIsFree(current: seq<int>, used: set<nat>, cpu: nat)
    requires Injective(current, used) && cpu < |current| && current[cpu] == -1
    ensures exists s: nat :: s < |current| && s !in used
  {
    var n := |current|;
    var others := Below(n) - {cpu};
    var image := set x | x in others :: current[x];
    ImageIsSmall(current, others);
    var all := AsInts(n);
    if forall s: nat :: s < n ==> s in used {
      forall s | s in all ensures s in image {
        var k: nat := s;
        assert k in used;
        var c :| 0 <= c < n && current[c] == k;
        assert c in others;
      }
      SubsetIsSmaller(all, image);
    }
  }

  class HostReductionStorage<T(!new)> {
    const op: (T, T) -> T
    const id: T
    const slots: array<Slot<T>>
    const current: array<int>   // the slot of each CPU, or -1
    const free: AtomicBitset    // the slots in use are set
    ghost var contributions: seq<T>  // what tasks have added since the last combination

    ghost predicate Shape()
      reads this, slots, current, free, free.storage
    {
      && free.Valid() && free.size == slots.Length == current.Length
      && Operator(op, id) && Injective(current[..], free.Bits())
      && Total(op, id, slots[..]) == Fold(op, id, contributions)
    }

    ghost predicate Valid()
      reads this, slots, current, free, free.storage
    {
      Shape() && forall c :: 0 <= c < current.Length && current[c] != -1 ==>
          current[c] < slots.Length && slots[current[c]].initialized
    }

    constructor (nCpus: nat, operator: (T, T) -> T, identity: T)
      requires Operator(operator, identity)
      ensures Valid() && fresh(slots) && fresh(current) && fresh(free) && fresh(free.storage)
      ensures current.Length == nCpus && op == operator && id == identity && contributions == []
      ensures forall c :: 0 <= c < nCpus ==> current[c] == -1
    {
      op, id := operator, identity;
      slots := new Slot<T>[nCpus](i => Slot(false, identity));
      current := new int[nCpus](i => -1);
      free := new AtomicBitset(nCpus);
      contributions := [];
      new;
      TotalOfNothing(op, id, slots[..]);
    }

    /** The slot that the CPU holds already, or else a free one, which there always is. The search over words that
        change meanwhile is `ReductionSlots`. */
    method GetFreeSlotIndex(cpu: nat) returns (index: nat)
      requires Valid() && cpu < current.Length
      modifies current, free.storage
      ensures Shape() && index < slots.Length && current[cpu] == index
      ensures old(current[cpu]) != -1 ==> index == old(current[cpu])
      ensures forall c :: 0 <= c < current.Length && c != cpu ==> current[c] == old(current[c])
    {
      if current[cpu] != -1 {
        return current[cpu];
      }
      SomeSlotIsFree(current[..], free.Bits(), cpu);
      var slot := free.SetFirst();
      ghost var before := current[..];
      current[cpu] := slot;
      assert current[..] == before[cpu := slot];
      HoldOneMore(before, old(free.Bits()), cpu, slot);
      index := slot;
    }

    /** The storage of a slot, initialized to the identity on first use. */
    method GetFreeSlotStorage(index: nat)
      requires Shape() && index < slots.Length
      modifies slots
      ensures Shape() && slots[index] == if old(slots[index]).initialized then old(slots[index]) else Slot(true, id)
      ensures forall i :: 0 <= i < slots.Length && i != index ==> slots[i] == old(slots[i])
    {
      if !slots[index].initialized {
        assert Neutral(op, id, id) && Neutral(op, id, Total(op, id, slots[..]));
        TotalUpdate(op, id, slots[..], index, Slot(true, id), id);
        ghost var before := slots[..];
        slots[index] := Slot(true, id);
        assert slots[..] == before[index := Slot(true, id)];
      }
    }

    /** Gives the task on the CPU its private storage: that of the slot it holds already, or else of a free one, as the
        last task left it there, or with the identity when it is used for the first time. */
    method GetFreeSlot(cpu: nat) returns (index: nat)
      requires Valid() && cpu < current.Length
      modifies slots, current, free.storage
      ensures Valid() && index < slots.Length && current[cpu] == index
      ensures old(current[cpu]) != -1 ==> index == old(current[cpu])
      ensures forall c :: 0 <= c < current.Length && c != cpu ==> current[c] == old(current[c])
      ensures slots[index] == if old(slots[..])[index].initialized then old(slots[..])[index] else Slot(true, id)
      ensures forall i :: 0 <= i < slots.Length && i != index ==> slots[i] == old(slots[..])[i]
    {
      index := GetFreeSlotIndex(cpu);
      GetFreeSlotStorage(index);
    }

    /** The task on the CPU adds a value in its private storage. */
    method Contribute(cpu: nat, v: T)
      requires Valid() && cpu < current.Length && current[cpu] != -1
      modifies this, slots
      ensures Valid() && contributions == old(contributions) + [v]
    {
      var i := current[cpu];
      var s := Slot(true, op(slots[i].value, v));
      TotalUpdate(op, id, slots[..], i, s, v);
      ghost var before := slots[..];
      slots[i] := s;
      assert slots[..] == before[i := s];
      contributions := contributions + [v];
      assert contributions[..|contributions| - 1] == old(contributions);
    }

    /** The task on the CPU has ended. */
    method ReleaseSlotsInUse(cpu: nat)
      requires Valid() && cpu < current.Length
      modifies current, free.storage
      ensures Valid() && current[cpu] == -1
      ensures forall c :: 0 <= c < current.Length && c != cpu ==> current[c] == old(current[c])
    {
      if current[cpu] != -1 {
        ghost var before := current[..];
        var slot := current[cpu];
        free.Reset(slot);
        current[cpu] := -1;
        assert current[..] == before[cpu := -1];
        HoldOneLess(before, old(free.Bits()), cpu);
      }
    }

    /** Combines all slots into the original value: the result is that value with every contribution, once. */
    method CombineInStorage(original: T) returns (result: T)
      requires Valid() && forall c :: 0 <= c < current.Length ==> current[c] == -1
      modifies this, slots
      ensures Valid() && contributions == []
      ensures result == Combination(op, original, old(slots[..])) == op(original, Fold(op, id, old(contributions)))
    {
      result := original;
      var i := 0;
      while i < slots.Length
        invariant i <= slots.Length && forall j :: i <= j < slots.Length ==> slots[j] == old(slots[j])
        invariant forall j :: 0 <= j < i ==> !slots[j].initialized
        invariant result == Combination(op, original, old(slots[..])[..i])
      {
        ghost var all := old(slots[..]);
        assert all[..i + 1][..i] == all[..i] && all[i] == slots[i];
        if slots[i].initialized {
          result := op(result, slots[i].value);
          slots[i] := Slot(false, id);
        }
        i := i + 1;
      }
      assert old(slots[..])[..i] == old(slots[..]);
      CombinationIsTotal(op, id, original, old(slots[..]));
      TotalOfNothing(op, id, slots[..]);
      contributions := [];
    }
  }

  lemma HoldOneMore(current: seq<int>, used: set<nat>, cpu: nat, slot: nat)
    requires Injective(current, used) && cpu < |current| && current[cpu] == -1 && slot !in used
    ensures Injective(current[cpu := slot], used + {slot})
  {
    var after := current[cpu := slot];
    forall s | s in used + {slot} ensures exists c :: 0 <= c < |after| && after[c] == s {
      if s == slot {
        assert after[cpu] == s;
      } else {
        var c :| 0 <= c < |current| && current[c] == s;
        assert after[c] == s;
      }
    }
  }

  lemma HoldOneLess(current: seq<int>, used: set<nat>, cpu: nat)
    requires Injective(current, used) && cpu < |current| && current[cpu] != -1
    ensures current[cpu] >= 0 && Injective(current[cpu := -1], used - {current[cpu]})
  {
    var after := current[cpu := -1];
    forall s | s in used - {current[cpu]} ensures exists c :: 0 <= c < |after| && after[c] == s {
      var c :| 0 <= c < |current| && current[c] == s;
      assert after[c] == s;
    }
  }
}
