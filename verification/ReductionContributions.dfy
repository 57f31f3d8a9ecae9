/** Tasks on different CPUs contribute to a reduction at the same time, each through the slot that its CPU holds, with a
    plain read and a plain write and no lock. Nothing is lost, because no other CPU uses the slot in between. */
module ReductionContributions {
  import opened AtomicBitset
  import opened ReductionStorage
  import Slots = ReductionSlots
  import F = AccessFlags

  /** `read` is what a CPU has read from its slot and is about to replace; `contributions` is what has been added. */
  datatype State<T> = State(slots: Slots.State, values: seq<Slot<T>>, read: seq<F.Option<T>>, contributions: seq<T>)

  datatype Step<T> =
    | Search(step: Slots.Step)      // looking for a slot, storing its position, giving it back
    | Initialize(cpu: nat)          // the first use of a slot
    | Read(cpu: nat)
    | Write(cpu: nat, value: T)     // what was read, with this value added

  function Start<T>(id: T, nCpus: nat): State<T> {
    State(Slots.Start(nCpus, nCpus), seq(nCpus, i => Slot(false, id)), seq(nCpus, c => F.None), [])
  }

  /** The slot that the CPU holds. */
  predicate Uses<T>(s: State<T>, c: nat, p: nat) {
    c < |s.slots.cpus| && c < |s.read| && s.slots.cpus[c] == Slots.Holding(p) && p < |s.values|
  }

  predicate InUse<T>(s: State<T>, c: nat) {
    c < |s.slots.cpus| && s.slots.cpus[c].Holding? && Uses(s, c, s.slots.cpus[c].pos)
  }

  predicate Enabled<T(!new)>(s: State<T>, step: Step<T>) {
    match step
    case Search(st) => Slots.Enabled(s.slots, st) && st.cpu < |s.read| && s.read[st.cpu].None?
    case Initialize(c) => InUse(s, c) && !s.values[s.slots.cpus[c].pos].initialized
    case Read(c) => InUse(s, c) && s.values[s.slots.cpus[c].pos].initialized && s.read[c].None?
    case Write(c, _) => InUse(s, c) && s.read[c].Some?
  }

  function Next<T(!new)>(op: (T, T) -> T, id: T, s: State<T>, step: Step<T>): State<T>
    requires Enabled(s, step)
  {
    match step
    case Search(st) => s.(slots := Slots.Next(s.slots, st))
    case Initialize(c) => s.(values := s.values[s.slots.cpus[c].pos := Slot(true, id)])
    case Read(c) => s.(read := s.read[c := F.Some(s.values[s.slots.cpus[c].pos].value)])
    case Write(c, v) =>
      s.(values := s.values[s.slots.cpus[c].pos := Slot(true, op(s.read[c].value, v))], read := s.read[c := F.None],
         contributions := s.contributions + [v])
  }

  // ---------------------------------------------------------------------------------------------
  // The invariant

  /** What a CPU has read is still what its slot holds. */
  ghost predicate ReadOk<T(!new)>(s: State<T>, c: nat) {
    c < |s.read| && s.read[c].Some? ==>
      && c < |s.slots.cpus| && s.slots.cpus[c].Holding? && Uses(s, c, s.slots.cpus[c].pos)
      && s.values[s.slots.cpus[c].pos] == Slot(true, s.read[c].value)
  }

  ghost predicate Inv<T(!new)>(op: (T, T) -> T, id: T, s: State<T>) {
    && Operator(op, id) && Slots.Inv(s.slots)
    && s.slots.size == |s.slots.cpus| == |s.values| == |s.read|
    && (forall c: nat :: ReadOk(s, c))
    && Total(op, id, s.values) == Fold(op, id, s.contributions)
  }

  /** No other CPU uses the slot. */
  lemma UsesAlone<T(!new)>(op: (T, T) -> T, id: T, s: State<T>, c: nat, d: nat, p: nat)
    requires Inv(op, id, s) && Uses(s, c, p) && Uses(s, d, p)
    ensures c == d
  {
    assert Slots.Distinct(s.slots.cpus);
    assert Slots.HasBit(s.slots.cpus[c]) && Slots.HasBit(s.slots.cpus[d]);
  }

  lemma SearchStep<T(!new)>(op: (T, T) -> T, id: T, s: State<T>, st: Slots.Step)
    requires Inv(op, id, s) && Enabled(s, Search(st))
    ensures Inv(op, id, Next(op, id, s, Search(st)))
  {
    var s' := Next(op, id, s, Search(st));
    Slots.StepInv(s.slots, st);
    forall c: nat ensures ReadOk(s', c) { assert ReadOk(s, c); }
  }

  lemma InitializeStep<T(!new)>(op: (T, T) -> T, id: T, s: State<T>, c: nat)
    requires Inv(op, id, s) && Enabled(s, Initialize(c))
    ensures Inv(op, id, Next(op, id, s, Initialize(c)))
  {
    var s' := Next(op, id, s, Initialize(c));
    assert Neutral(op, id, id) && Neutral(op, id, Total(op, id, s.values));
    TotalUpdate(op, id, s.values, s.slots.cpus[c].pos, Slot(true, id), id);
    forall d: nat ensures ReadOk(s', d) { assert ReadOk(s, d); }
  }

  lemma ReadStep<T(!new)>(op: (T, T) -> T, id: T, s: State<T>, c: nat)
    requires Inv(op, id, s) && Enabled(s, Read(c))
    ensures Inv(op, id, Next(op, id, s, Read(c)))
  {
    forall d: nat ensures ReadOk(Next(op, id, s, Read(c)), d) { assert ReadOk(s, d); }
  }

  lemma WriteStep<T(!new)>(op: (T, T) -> T, id: T, s: State<T>, c: nat, v: T)
    requires Inv(op, id, s) && Enabled(s, Write(c, v))
    ensures Inv(op, id, Next(op, id, s, Write(c, v)))
  {
    var s', p := Next(op, id, s, Write(c, v)), s.slots.cpus[c].pos;
    assert ReadOk(s, c);
    TotalUpdate(op, id, s.values, p, Slot(true, op(s.read[c].value, v)), v);
    assert s'.contributions[..|s'.contributions| - 1] == s.contributions;
    forall d: nat ensures ReadOk(s', d) {
      assert ReadOk(s, d);
      if d < |s.read| && s.read[d].Some? && d != c && s.slots.cpus[d].pos == p { UsesAlone(op, id, s, c, d, p); }
    }
  }

  lemma StepInv<T(!new)>(op: (T, T) -> T, id: T, s: State<T>, step: Step<T>)
    requires Inv(op, id, s) && Enabled(s, step)
    ensures Inv(op, id, Next(op, id, s, step))
  {
    match step
    case Search(st) => SearchStep(op, id, s, st);
    case Initialize(c) => InitializeStep(op, id, s, c);
    case Read(c) => ReadStep(op, id, s, c);
    case Write(c, v) => WriteStep(op, id, s, c, v);
  }

  // ---------------------------------------------------------------------------------------------
  // Whole runs

  ghost predicate CanRun<T(!new)>(op: (T, T) -> T, id: T, s: State<T>, run: seq<Step<T>>)
    decreases |run|
  {
    run != [] ==> Enabled(s, run[0]) && CanRun(op, id, Next(op, id, s, run[0]), run[1..])
  }

  ghost function Run<T(!new)>(op: (T, T) -> T, id: T, s: State<T>, run: seq<Step<T>>): State<T>
    requires CanRun(op, id, s, run)
    decreases |run|
  {
    if run == [] then s else Run(op, id, Next(op, id, s, run[0]), run[1..])
  }

  /** The values that a run adds, in the order of the writes. */
  function Added<T>(run: seq<Step<T>>): seq<T> {
    if run == [] then []
    else if run[0].Write? then [run[0].value] + Added(run[1..])
    else Added(run[1..])
  }

  lemma {:induction false} RunInv<T(!new)>(op: (T, T) -> T, id: T, s: State<T>, run: seq<Step<T>>)
    requires Inv(op, id, s) && CanRun(op, id, s, run)
    ensures Inv(op, id, Run(op, id, s, run)) && Run(op, id, s, run).contributions == s.contributions + Added(run)
    decreases |run|
  {
    if run != [] {
      StepInv(op, id, s, run[0]);
      RunInv(op, id, Next(op, id, s, run[0]), run[1..]);
    }
  }

  lemma StartInv<T(!new)>(op: (T, T) -> T, id: T, nCpus: nat)
    requires Operator(op, id)
    ensures Inv(op, id, Start(id, nCpus))
  {
    Slots.StartInv(nCpus, nCpus);
    TotalOfNothing(op, id, Start(id, nCpus).values);
  }

  /** The slots together hold the fold of everything that was added, once, in whatever order the CPUs found their slots,
      read and wrote; so combining them gives the same as adding the values one after the other, in any order. */
  lemma NothingIsLost<T(!new)>(op: (T, T) -> T, id: T, nCpus: nat, run: seq<Step<T>>, values: seq<T>)
    requires Operator(op, id) && CanRun(op, id, Start(id, nCpus), run) && multiset(values) == multiset(Added(run))
    ensures Total(op, id, Run(op, id, Start(id, nCpus), run).values) == Fold(op, id, values)
  {
    StartInv(op, id, nCpus);
    RunInv(op, id, Start(id, nCpus), run);
    assert [] + Added(run) == Added(run);
    FoldPermutation(op, id, values, Added(run));
  }

  /** Nobody uses a slot. */
  predicate Idle<T>(s: State<T>) {
    forall c :: 0 <= c < |s.slots.cpus| ==> !s.slots.cpus[c].Holding?
  }

  /** From the first search to the end: combining the slots once no CPU uses one gives the original value with all the
      values that were added, each once, in any order; and no value that a CPU has read is left to be written. */
  lemma CombinedOnceIdle<T(!new)>(op: (T, T) -> T, id: T, nCpus: nat, run: seq<Step<T>>, original: T, values: seq<T>)
    requires Operator(op, id) && CanRun(op, id, Start(id, nCpus), run) && multiset(values) == multiset(Added(run))
    requires Idle(Run(op, id, Start(id, nCpus), run))
    ensures var s := Run(op, id, Start(id, nCpus), run);
            && Combination(op, original, s.values) == op(original, Fold(op, id, values))
            && forall c :: 0 <= c < |s.read| ==> s.read[c].None?
  {
    var s := Run(op, id, Start(id, nCpus), run);
    NothingIsLost(op, id, nCpus, run, values);
    CombinationIsTotal(op, id, original, s.values);
    StartInv(op, id, nCpus);
    RunInv(op, id, Start(id, nCpus), run);
    forall c: nat | c < |s.read| ensures s.read[c].None? { assert ReadOk(s, c); }
  }

  /** A CPU that writes replaces what is in its slot at that moment. */
  lemma WritesOverWhatItRead<T(!new)>(op: (T, T) -> T, id: T, nCpus: nat, run: seq<Step<T>>, c: nat, v: T)
    requires Operator(op, id) && CanRun(op, id, Start(id, nCpus), run)
    requires Enabled(Run(op, id, Start(id, nCpus), run), Write(c, v))
    ensures var s := Run(op, id, Start(id, nCpus), run); var p := s.slots.cpus[c].pos;
            s.values[p].initialized && s.values[p].value == s.read[c].value
            && Next(op, id, s, Write(c, v)).values == s.values[p := Slot(true, op(s.values[p].value, v))]
  {
    StartInv(op, id, nCpus);
    RunInv(op, id, Start(id, nCpus), run);
    assert ReadOk(Run(op, id, Start(id, nCpus), run), c);
  }
}
