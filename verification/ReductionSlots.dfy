/** How CPUs find their slots at the same time: each scans the words of the bitset, takes a zero bit with a
    compare-and-exchange, stores its position, and gives it back. Every access to shared memory is one step. */
module ReductionSlots {
  import opened AtomicBitset

  /** Where a CPU is. A scan that has passed all words has found nothing. */
  datatype Cpu =
    | Idle
    | Scanning(word: nat)                  // about to load the word
    | Trying(word: nat, value: set<nat>)   // has loaded this value, which leaves a zero bit to try
    | Taken(pos: nat)                      // has set the bit
    | Holding(pos: nat)                    // has stored its position
    | Dropping(pos: nat)                   // has reset the bit; the position is still stored

  /** `current` is the stored position of each CPU, or -1. */
  datatype State = State(size: nat, words: seq<set<nat>>, cpus: seq<Cpu>, current: seq<int>)

  datatype Action = Begin | Load | Exchange | Store | Reset | Clear | Retry

  datatype Step = Step(cpu: nat, action: Action)

  function Start(size: nat, nCpus: nat): State {
    State(size, seq(GetVecSize(size), w => {}), seq(nCpus, c => Idle), seq(nCpus, c => -1))
  }

  /** The number of positions of word `w` that are in use. */
  function Cap(size: nat, w: nat): nat {
    if WORD_BITS * w >= size then 0
    else if size - WORD_BITS * w < WORD_BITS then size - WORD_BITS * w
    else WORD_BITS
  }

  predicate Full(value: set<nat>, cap: nat) {
    forall b: nat :: b < cap ==> b in value
  }

  function LowestZero(value: set<nat>, cap: nat, from: nat := 0): (b: nat)
    requires !Full(value, cap) && from <= cap && forall i: nat :: i < from ==> i in value
    ensures b < cap && b !in value && forall i: nat :: i < b ==> i in value
    decreases cap - from
  {
    if from < cap && from in value then LowestZero(value, cap, from + 1) else from
  }

  /** What a CPU does after it has seen `value` in word `w`: try its lowest zero bit, or go on to the next word. */
  function Look(size: nat, w: nat, value: set<nat>): Cpu {
    if Full(value, Cap(size, w)) then Scanning(w + 1) else Trying(w, value)
  }

  predicate Enabled(s: State, step: Step) {
    && step.cpu < |s.cpus| == |s.current|
    && var c := s.cpus[step.cpu];
       match step.action
       case Begin => c.Idle?
       case Load => c.Scanning? && c.word < |s.words|
       case Exchange => c.Trying? && c.word < |s.words| && !Full(c.value, Cap(s.size, c.word))
       case Store => c.Taken?
       case Reset => c.Holding? && c.pos / WORD_BITS < |s.words|
       case Clear => c.Dropping?
       case Retry => c.Scanning? && c.word >= |s.words|
  }

  function Next(s: State, step: Step): State
    requires Enabled(s, step)
  {
    var i, c := step.cpu, s.cpus[step.cpu];
    match step.action
    case Begin => s.(cpus := s.cpus[i := Scanning(0)])
    case Load => s.(cpus := s.cpus[i := Look(s.size, c.word, s.words[c.word])])
    case Exchange =>
      if s.words[c.word] == c.value then
        var b := LowestZero(c.value, Cap(s.size, c.word));
        s.(words := s.words[c.word := c.value + {b}], cpus := s.cpus[i := Taken(WORD_BITS * c.word + b)])
      else
        s.(cpus := s.cpus[i := Look(s.size, c.word, s.words[c.word])])
    case Store => s.(cpus := s.cpus[i := Holding(c.pos)], current := s.current[i := c.pos])
    case Reset =>
      var w := c.pos / WORD_BITS;
      s.(words := s.words[w := s.words[w] - {c.pos % WORD_BITS}], cpus := s.cpus[i := Dropping(c.pos)])
    case Clear => s.(cpus := s.cpus[i := Idle], current := s.current[i := -1])
    case Retry => s.(cpus := s.cpus[i := Scanning(0)])
  }

  // ---------------------------------------------------------------------------------------------
  // The invariant

  predicate HasBit(c: Cpu) {
    c.Taken? || c.Holding?
  }

  predicate Owns(c: Cpu, w: nat, b: nat) {
    HasBit(c) && c.pos == WORD_BITS * w + b
  }

  /** Every CPU has seen the words below its level full, one after the other. */
  function Level(c: Cpu): nat {
    match c
    case Scanning(w) => w
    case Trying(w, _) => w
    case Taken(p) => p / WORD_BITS
    case Holding(p) => p / WORD_BITS
    case _ => 0
  }

  function AtLevel(cpus: seq<Cpu>, w: nat): (cs: set<nat>)
    ensures forall c: nat :: c in cs <==> c < |cpus| && Level(cpus[c]) >= w
  {
    set c: nat | c < |cpus| && Level(cpus[c]) >= w
  }

  /** The positions of the words from `w` on. */
  function Room(size: nat, w: nat): nat {
    if WORD_BITS * w >= size then 0 else size - WORD_BITS * w
  }

  /** A bit is set if and only if some CPU owns it, and only one does. */
  ghost predicate BitOk(s: State, w: nat, b: nat)
    requires w < |s.words|
  {
    && (b in s.words[w] ==> b < Cap(s.size, w) && exists c: nat :: c < |s.cpus| && Owns(s.cpus[c], w, b))
    && (forall c: nat :: c < |s.cpus| && Owns(s.cpus[c], w, b) && b < WORD_BITS ==> b in s.words[w])
  }

  predicate CpuOk(s: State, c: nat)
    requires c < |s.cpus| == |s.current|
  {
    && (HasBit(s.cpus[c]) ==> s.cpus[c].pos < s.size)
    && (s.cpus[c].Trying? ==> s.cpus[c].word < |s.words| && !Full(s.cpus[c].value, Cap(s.size, s.cpus[c].word)))
    && s.current[c] == (if s.cpus[c].Holding? || s.cpus[c].Dropping? then s.cpus[c].pos else -1)
  }

  /** Different CPUs own different positions. */
  predicate Distinct(cpus: seq<Cpu>) {
    forall c: nat, d: nat {:trigger cpus[c], cpus[d]} ::
      c < d < |cpus| && HasBit(cpus[c]) && HasBit(cpus[d]) ==> cpus[c].pos != cpus[d].pos
  }

  ghost predicate Fits(s: State) {
    forall w: nat :: w <= |s.words| ==> |AtLevel(s.cpus, w)| <= Room(s.size, w)
  }

  ghost predicate Owned(s: State) {
    && |s.words| == GetVecSize(s.size) && |s.cpus| == |s.current|
    && (forall w: nat, b: nat :: w < |s.words| ==> BitOk(s, w, b))
    && (forall c: nat :: c < |s.cpus| ==> CpuOk(s, c))
    && Distinct(s.cpus)
  }

  ghost predicate Inv(s: State) {
    Owned(s) && Fits(s)
  }

  // ---------------------------------------------------------------------------------------------
  // Owners

  lemma OwnsOne(p: nat, w: nat, b: nat)
    requires b < WORD_BITS
    ensures p == WORD_BITS * w + b <==> p / WORD_BITS == w && p % WORD_BITS == b
  {
  }

  lemma Words(size: nat, p: nat)
    ensures p < size ==> p / WORD_BITS < GetVecSize(size) && p % WORD_BITS < Cap(size, p / WORD_BITS)
  {
  }

  /** A step of a CPU that changes no bit and no position. */
  lemma QuietOwned(s: State, step: Step)
    requires Owned(s) && Enabled(s, step)
    requires Next(s, step).words == s.words && !step.action.Store?
    ensures Owned(Next(s, step))
  {
    hide Full;
    var s', i := Next(s, step), step.cpu;
    forall w: nat, b: nat | w < |s.words| ensures BitOk(s', w, b) {
      assert BitOk(s, w, b);
      if b in s.words[w] {
        var c: nat :| c < |s.cpus| && Owns(s.cpus[c], w, b);
        assert Owns(s'.cpus[c], w, b);
      }
      assert !Owns(s'.cpus[i], w, b);
    }
    forall c: nat | c < |s.cpus| ensures CpuOk(s', c) { assert CpuOk(s, c); }
  }

  lemma StoreOwned(s: State, step: Step)
    requires Owned(s) && Enabled(s, step) && step.action.Store?
    ensures Owned(Next(s, step))
  {
    var s', i := Next(s, step), step.cpu;
    forall w: nat, b: nat | w < |s.words| ensures BitOk(s', w, b) {
      assert BitOk(s, w, b);
      assert Owns(s'.cpus[i], w, b) <==> Owns(s.cpus[i], w, b);
      if b in s.words[w] {
        var c: nat :| c < |s.cpus| && Owns(s.cpus[c], w, b);
        assert Owns(s'.cpus[c], w, b);
      }
    }
    forall c: nat | c < |s.cpus| ensures CpuOk(s', c) { assert CpuOk(s, c); }
  }

  /** A bit that is zero has no owner. */
  lemma TakeOwned(s: State, step: Step)
    requires Owned(s) && Enabled(s, step) && step.action.Exchange?
    requires s.words[s.cpus[step.cpu].word] == s.cpus[step.cpu].value
    ensures Owned(Next(s, step))
  {
    var s', i := Next(s, step), step.cpu;
    var v := s.cpus[i].word;
    var z := LowestZero(s.cpus[i].value, Cap(s.size, v));
    var p := WORD_BITS * v + z;
    OwnsOne(p, v, z);
    forall c: nat | c < |s.cpus| && HasBit(s.cpus[c]) ensures s.cpus[c].pos != p {
      assert BitOk(s, v, z);
      assert Owns(s.cpus[c], v, z) <==> s.cpus[c].pos == p;
    }
    forall w: nat, b: nat | w < |s.words| ensures BitOk(s', w, b) {
      assert BitOk(s, w, b);
      if b in s.words[w] {
        var c: nat :| c < |s.cpus| && Owns(s.cpus[c], w, b);
        assert Owns(s'.cpus[c], w, b);
      }
      if b < WORD_BITS { OwnsOne(p, w, b); }
      assert Owns(s'.cpus[i], v, z);
    }
    forall c: nat | c < |s.cpus| ensures CpuOk(s', c) { assert CpuOk(s, c); }
  }

  lemma ResetOwned(s: State, step: Step)
    requires Owned(s) && Enabled(s, step) && step.action.Reset?
    ensures Owned(Next(s, step))
  {
    var s', i := Next(s, step), step.cpu;
    var p := s.cpus[i].pos;
    OwnsOne(p, p / WORD_BITS, p % WORD_BITS);
    forall w: nat, b: nat | w < |s.words| ensures BitOk(s', w, b) {
      assert BitOk(s, w, b);
      if b < WORD_BITS { OwnsOne(p, w, b); }
      if b in s'.words[w] {
        var c: nat :| c < |s.cpus| && Owns(s.cpus[c], w, b);
        assert Owns(s'.cpus[c], w, b);
      }
      forall c: nat | c < |s'.cpus| && Owns(s'.cpus[c], w, b) && b < WORD_BITS ensures b in s'.words[w] {
        assert c != i && Owns(s.cpus[c], w, b);
        assert s.cpus[c].pos != p;
      }
    }
    forall c: nat | c < |s.cpus| ensures CpuOk(s', c) { assert CpuOk(s, c); }
  }

  lemma StepOwned(s: State, step: Step)
    requires Owned(s) && Enabled(s, step)
    ensures Owned(Next(s, step))
  {
    if step.action.Store? {
      StoreOwned(s, step);
    } else if step.action.Reset? {
      ResetOwned(s, step);
    } else if step.action.Exchange? && s.words[s.cpus[step.cpu].word] == s.cpus[step.cpu].value {
      TakeOwned(s, step);
    } else {
      QuietOwned(s, step);
    }
  }

  // ---------------------------------------------------------------------------------------------
  // Levels

  lemma SubsetIsSmaller(a: set<nat>, b: set<nat>)
    requires a <= b
    ensures |a| <= |b|
  {
    assert b == a + (b - a);
  }

  /** The CPUs that own one of the first `k` bits of word `w`. */
  function Owners(cpus: seq<Cpu>, w: nat, k: nat): (cs: set<nat>)
    ensures forall c: nat :: c in cs <==> c < |cpus| && exists b: nat :: b < k && Owns(cpus[c], w, b)
  {
    set c: nat | c < |cpus| && exists b: nat :: b < k && Owns(cpus[c], w, b)
  }

  /** A full word has an owner for each of its bits. */
  lemma {:induction false} FullWordHasOwners(s: State, w: nat, k: nat)
    requires Owned(s) && w < |s.words| && k <= Cap(s.size, w) && Full(s.words[w], Cap(s.size, w))
    ensures |Owners(s.cpus, w, k)| >= k
  {
    hide Owners;
    if k > 0 {
      FullWordHasOwners(s, w, k - 1);
      assert BitOk(s, w, k - 1);
      var c: nat :| c < |s.cpus| && Owns(s.cpus[c], w, k - 1);
      var fewer := Owners(s.cpus, w, k - 1);
      assert c !in fewer;
      forall d | d in fewer + {c} ensures d in Owners(s.cpus, w, k) {}
      SubsetIsSmaller(fewer + {c}, Owners(s.cpus, w, k));
    }
  }

  /** Two disjoint parts of a set that both leave out an element of it. */
  lemma TwoPartsAndOne(above: set<nat>, owners: set<nat>, i: nat, all: set<nat>)
    requires above !! owners && i !in above && i !in owners && above <= all && owners <= all && i in all
    ensures |above| + |owners| + 1 <= |all|
  {
    assert |above + owners + {i}| == |above| + |owners| + 1;
    SubsetIsSmaller(above + owners + {i}, all);
  }

  /** The owners of the bits of a word are at its level, and neither above it nor looking for a bit. */
  lemma OwnersStay(s: State, i: nat, w: nat)
    requires Inv(s) && i < |s.cpus| && w < |s.words| && !HasBit(s.cpus[i])
    ensures var owners := Owners(s.cpus, w, Cap(s.size, w));
            owners <= AtLevel(s.cpus, w) && owners !! AtLevel(s.cpus, w + 1) && i !in owners
  {
    hide Fits, Owned;
    forall c | c in Owners(s.cpus, w, Cap(s.size, w))
      ensures c in AtLevel(s.cpus, w) && c !in AtLevel(s.cpus, w + 1) && c != i
    {
      var b: nat :| b < Cap(s.size, w) && Owns(s.cpus[c], w, b);
      OwnsOne(s.cpus[c].pos, w, b);
    }
  }

  /** A CPU that sees a full word goes on: the owners of its bits stay behind. */
  lemma RoomAbove(s: State, i: nat)
    requires Inv(s) && i < |s.cpus| && (s.cpus[i].Scanning? || s.cpus[i].Trying?)
    requires s.cpus[i].word < |s.words| && Full(s.words[s.cpus[i].word], Cap(s.size, s.cpus[i].word))
    ensures |AtLevel(s.cpus, s.cpus[i].word + 1)| + 1 <= Room(s.size, s.cpus[i].word + 1)
  {
    hide Owners, Owned, Full;
    var w := s.cpus[i].word;
    var owners := Owners(s.cpus, w, Cap(s.size, w));
    FullWordHasOwners(s, w, Cap(s.size, w));
    OwnersStay(s, i, w);
    TwoPartsAndOne(AtLevel(s.cpus, w + 1), owners, i, AtLevel(s.cpus, w));
    assert |AtLevel(s.cpus, w)| <= Room(s.size, w);
  }

  /** At most one CPU rises, by one level, and only if there is room. */
  lemma LevelsFit(s: State, s': State, i: nat)
    requires Inv(s) && i < |s.cpus| && s'.size == s.size && |s'.words| == |s.words|
    requires |s'.cpus| == |s.cpus| && s'.cpus == s.cpus[i := s'.cpus[i]]
    requires Level(s'.cpus[i]) > Level(s.cpus[i]) ==>
               && Level(s'.cpus[i]) == Level(s.cpus[i]) + 1
               && |AtLevel(s.cpus, Level(s'.cpus[i]))| + 1 <= Room(s.size, Level(s'.cpus[i]))
    ensures Fits(s')
  {
    forall w: nat | w <= |s'.words| ensures |AtLevel(s'.cpus, w)| <= Room(s.size, w) {
      assert |AtLevel(s.cpus, w)| <= Room(s.size, w);
      if Level(s.cpus[i]) < w <= Level(s'.cpus[i]) {
        assert AtLevel(s'.cpus, w) == AtLevel(s.cpus, w) + {i};
      } else {
        SubsetIsSmaller(AtLevel(s'.cpus, w), AtLevel(s.cpus, w));
      }
    }
  }

  lemma StepInv(s: State, step: Step)
    requires Inv(s) && Enabled(s, step)
    ensures Inv(Next(s, step))
  {
    var s', i := Next(s, step), step.cpu;
    StepOwned(s, step);
    assert CpuOk(s, i);
    if (s.cpus[i].Scanning? || s.cpus[i].Trying?) && s.cpus[i].word < |s.words|
      && Full(s.words[s.cpus[i].word], Cap(s.size, s.cpus[i].word)) {
      RoomAbove(s, i);
    }
    LevelsFit(s, s', i);
  }

  lemma StartInv(size: nat, nCpus: nat)
    requires size >= nCpus
    ensures Inv(Start(size, nCpus))
  {
    var s := Start(size, nCpus);
    forall w: nat | w <= |s.words| ensures |AtLevel(s.cpus, w)| <= Room(size, w) {
      if w > 0 {
        assert AtLevel(s.cpus, w) == {};
      } else {
        CpusBelow(s.cpus, nCpus);
      }
    }
  }

  lemma CpusBelow(cpus: seq<Cpu>, n: nat)
    requires n == |cpus|
    ensures |AtLevel(cpus, 0)| == n
  {
    var all: set<nat> := {};
    for k := 0 to n
      invariant |all| == k && forall c: nat :: c in all <==> c < k
    {
      all := all + {k};
    }
    assert all == AtLevel(cpus, 0);
  }

  // ---------------------------------------------------------------------------------------------
  // Whole runs

  ghost predicate CanRun(s: State, run: seq<Step>)
    decreases |run|
  {
    run != [] ==> Enabled(s, run[0]) && CanRun(Next(s, run[0]), run[1..])
  }

  ghost function Run(s: State, run: seq<Step>): State
    requires CanRun(s, run)
    decreases |run|
  {
    if run == [] then s else Run(Next(s, run[0]), run[1..])
  }

  ghost predicate Reachable(size: nat, nCpus: nat, s: State) {
    exists run: seq<Step> :: CanRun(Start(size, nCpus), run) && Run(Start(size, nCpus), run) == s
  }

  lemma {:induction false} RunInv(s: State, run: seq<Step>)
    requires Inv(s) && CanRun(s, run)
    ensures Inv(Run(s, run)) && Run(s, run).size == s.size && |Run(s, run).cpus| == |s.cpus|
    decreases |run|
  {
    if run != [] {
      StepInv(s, run[0]);
      RunInv(Next(s, run[0]), run[1..]);
    }
  }

  lemma ReachableInv(size: nat, nCpus: nat, s: State)
    requires size >= nCpus && Reachable(size, nCpus, s)
    ensures Inv(s) && s.size == size && |s.cpus| == nCpus
  {
    var run: seq<Step> :| CanRun(Start(size, nCpus), run) && Run(Start(size, nCpus), run) == s;
    StartInv(size, nCpus);
    RunInv(Start(size, nCpus), run);
  }

  lemma {:induction false} RunSnoc(s: State, run: seq<Step>, step: Step)
    requires CanRun(s, run) && Enabled(Run(s, run), step)
    ensures CanRun(s, run + [step]) && Run(s, run + [step]) == Next(Run(s, run), step)
    decreases |run|
  {
    var all := run + [step];
    if run == [] {
      assert all[0] == step && all[1..] == [];
    } else {
      assert all[0] == run[0] && all[1..] == run[1..] + [step];
      RunSnoc(Next(s, run[0]), run[1..], step);
    }
  }

  lemma ReachesNext(size: nat, nCpus: nat, s: State, step: Step)
    requires Reachable(size, nCpus, s) && Enabled(s, step)
    ensures Reachable(size, nCpus, Next(s, step))
  {
    var run: seq<Step> :| CanRun(Start(size, nCpus), run) && Run(Start(size, nCpus), run) == s;
    RunSnoc(Start(size, nCpus), run, step);
  }

  /** Some scan has passed all words without finding a zero bit. */
  predicate ScanFailed(s: State) {
    exists c: nat :: c < |s.cpus| && s.cpus[c].Scanning? && s.cpus[c].word >= |s.words|
  }

  /** With as many positions as CPUs no scan fails, although words change while it goes on. */
  lemma ScanNeverFails(size: nat, nCpus: nat, s: State)
    requires size >= nCpus && Reachable(size, nCpus, s)
    ensures !ScanFailed(s)
  {
    ReachableInv(size, nCpus, s);
    var n := |s.words|;
    assert |AtLevel(s.cpus, n)| <= Room(size, n) == 0;
    assert forall c: nat :: c < |s.cpus| ==> c !in AtLevel(s.cpus, n);
  }

  /** The slots in use are held by one CPU each, and a position that is taken was free. */
  lemma SlotsAreExclusive(size: nat, nCpus: nat, s: State, c: nat, d: nat)
    requires size >= nCpus && Reachable(size, nCpus, s) && c < nCpus && d < nCpus && c != d
    ensures |s.cpus| == |s.current| == nCpus
    ensures s.cpus[c].Holding? ==> s.current[c] == s.cpus[c].pos && 0 <= s.current[c] < size
    ensures s.cpus[c].Holding? && HasBit(s.cpus[d]) ==> s.cpus[d].pos != s.current[c]
    ensures s.current[c] == -1 <==> !s.cpus[c].Holding? && !s.cpus[c].Dropping?
  {
    ReachableInv(size, nCpus, s);
    assert CpuOk(s, c) && CpuOk(s, d);
  }

  /** A bit is set exactly while one CPU owns it. */
  lemma BitsAreOwned(size: nat, nCpus: nat, s: State, w: nat, b: nat)
    requires size >= nCpus && Reachable(size, nCpus, s) && w < GetVecSize(size) && b < WORD_BITS
    ensures |s.words| == GetVecSize(size)
    ensures b in s.words[w] <==> exists c: nat :: c < |s.cpus| && Owns(s.cpus[c], w, b)
    ensures forall c: nat, d: nat | c < |s.cpus| && d < |s.cpus| && Owns(s.cpus[c], w, b)
            && Owns(s.cpus[d], w, b) :: c == d
  {
    ReachableInv(size, nCpus, s);
    assert BitOk(s, w, b);
  }

  // A scan that is not disturbed

  ghost predicate RunsAlone(s: State, c: nat, run: seq<Step>) {
    CanRun(s, run) && forall k :: 0 <= k < |run| ==> run[k].cpu == c
  }

  /** The CPU has loaded a value that has changed since. */
  predicate Stale(s: State, c: nat)
    requires c < |s.cpus|
  {
    s.cpus[c].Trying? && s.cpus[c].word < |s.words| && s.cpus[c].value != s.words[s.cpus[c].word]
  }

  /** From any moment on, a CPU that is searching and is not disturbed soon has a slot. */
  lemma {:induction false} FindsSlotAlone(size: nat, nCpus: nat, s: State, c: nat) returns (run: seq<Step>)
    requires size >= nCpus && Reachable(size, nCpus, s) && c < |s.cpus| && (s.cpus[c].Scanning? || s.cpus[c].Trying?)
    ensures RunsAlone(s, c, run) && |Run(s, run).cpus| == |s.cpus| && Run(s, run).cpus[c].Taken?
    ensures |run| <= |s.words| - s.cpus[c].word + (if s.cpus[c].Scanning? || Stale(s, c) then 1 else 0) + 1
    decreases |s.words| - s.cpus[c].word, s.cpus[c].Scanning?, Stale(s, c)
  {
    ReachableInv(size, nCpus, s);
    ScanNeverFails(size, nCpus, s);
    assert CpuOk(s, c);
    var step := Step(c, if s.cpus[c].Scanning? then Load else Exchange);
    var s' := Next(s, step);
    ReachesNext(size, nCpus, s, step);
    if s'.cpus[c].Taken? {
      run := [step];
      assert CanRun(s', run[1..]);
    } else {
      var rest := FindsSlotAlone(size, nCpus, s', c);
      run := [step] + rest;
      assert run[1..] == rest;
    }
  }

  /** However many positions there are: a search that is not disturbed, and is repeated when it fails, has a position as
      soon as one is free, wherever that is. */
  lemma {:induction false} FindsFreedSlot(s: State, c: nat, w: nat) returns (run: seq<Step>)
    requires c < |s.cpus| == |s.current| && s.cpus[c].Scanning? && w < |s.words|
    requires !Full(s.words[w], Cap(s.size, w))
    ensures RunsAlone(s, c, run) && c < |Run(s, run).cpus| && Run(s, run).cpus[c].Taken?
    decreases s.cpus[c].word > w, |s.words| - s.cpus[c].word
  {
    var word := s.cpus[c].word;
    var s' := Next(s, Step(c, if word < |s.words| then Load else Retry));
    var rest: seq<Step>;
    if s'.cpus[c].Trying? {
      rest := [Step(c, Exchange)];
      var taken := Next(s', Step(c, Exchange));
      assert rest[1..] == [] && CanRun(taken, []) && Run(taken, []) == taken;
      assert CanRun(s', rest) && Run(s', rest) == taken;
    } else {
      rest := FindsFreedSlot(s', c, w);
    }
    run := [Step(c, if word < |s.words| then Load else Retry)] + rest;
    assert run[1..] == rest;
  }

  // ---------------------------------------------------------------------------------------------
  // With fewer positions than CPUs

  function Low(n: nat): (bits: set<nat>)
    ensures forall b: nat :: b in bits <==> b < n
  {
    if n == 0 then {} else Low(n - 1) + {n - 1}
  }

  /** The first `k` CPUs have taken the first `k` positions. */
  function Filled(size: nat, nCpus: nat, k: nat): State {
    State(size, seq(GetVecSize(size), w => Low(if w >= 0 then Cap(k, w) else 0)),
        seq(nCpus, c => if c < k && c >= 0 then Taken(c) else Idle),
          seq(nCpus, c => -1))
  }

  function Searching(size: nat, nCpus: nat, k: nat, w: nat): State
    requires k < nCpus
  {
    var s := Filled(size, nCpus, k);
    s.(cpus := s.cpus[k := Scanning(w)])
  }

  /** The next CPU passes the words that are full. */
  lemma {:induction false} PassesFullWords(size: nat, nCpus: nat, k: nat, w: nat)
    requires k <= size && k < nCpus && WORD_BITS * w <= k + WORD_BITS - 1 && w <= GetVecSize(size)
    requires k < size ==> WORD_BITS * w <= k
    requires Reachable(size, nCpus, Filled(size, nCpus, k))
    ensures Reachable(size, nCpus, Searching(size, nCpus, k, w))
  {
    hide Low;
    if w == 0 {
      ReachesNext(size, nCpus, Filled(size, nCpus, k), Step(k, Begin));
    } else {
      PassesFullWords(size, nCpus, k, w - 1);
      var s := Searching(size, nCpus, k, w - 1);
      assert s.words[w - 1] == Low(Cap(k, w - 1));
      assert Cap(size, w - 1) == Cap(k, w - 1);
      ReachesNext(size, nCpus, s, Step(k, Load));
      assert Next(s, Step(k, Load)) == Searching(size, nCpus, k, w);
    }
  }

  lemma LastWord(size: nat, nCpus: nat, k: nat)
    requires k < size && k < nCpus
    ensures k / WORD_BITS < GetVecSize(size)
    ensures var v := Filled(size, nCpus, k).words[k / WORD_BITS];
            && k % WORD_BITS !in v && k % WORD_BITS < Cap(size, k / WORD_BITS)
            && (forall b: nat :: b < k % WORD_BITS ==> b in v)
            && v + {k % WORD_BITS} == Filled(size, nCpus, k + 1).words[k / WORD_BITS]
  {
    Words(size, k);
    var w := k / WORD_BITS;
    assert Cap(k, w) == k % WORD_BITS && Cap(k + 1, w) == k % WORD_BITS + 1;
  }

  lemma OtherWords(size: nat, nCpus: nat, k: nat, w: nat)
    requires k < size && w < GetVecSize(size) && w != k / WORD_BITS
    ensures Filled(size, nCpus, k + 1).words[w] == Filled(size, nCpus, k).words[w]
  {
    assert Cap(k, w) == Cap(k + 1, w);
  }

  lemma TakesNext(size: nat, nCpus: nat, k: nat)
    requires k < size && k < nCpus && Reachable(size, nCpus, Filled(size, nCpus, k))
    ensures Reachable(size, nCpus, Filled(size, nCpus, k + 1))
  {
    var w, b := k / WORD_BITS, k % WORD_BITS;
    LastWord(size, nCpus, k);
    PassesFullWords(size, nCpus, k, w);
    var s := Searching(size, nCpus, k, w);
    assert !Full(s.words[w], Cap(size, w));
    ReachesNext(size, nCpus, s, Step(k, Load));
    var t := Next(s, Step(k, Load));
    assert t.cpus[k] == Trying(w, s.words[w]) && LowestZero(s.words[w], Cap(size, w)) == b;
    ReachesNext(size, nCpus, t, Step(k, Exchange));
    TakenIsFilled(size, nCpus, k, t);
  }

  lemma TakenIsFilled(size: nat, nCpus: nat, k: nat, t: State)
    requires k < size && k < nCpus && k / WORD_BITS < GetVecSize(size)
    requires t == Searching(size, nCpus, k, k / WORD_BITS).(cpus := t.cpus) && |t.cpus| == nCpus
    requires t.cpus == Filled(size, nCpus, k).cpus[k := Trying(k / WORD_BITS, t.words[k / WORD_BITS])]
    requires !Full(t.words[k / WORD_BITS], Cap(size, k / WORD_BITS))
    requires LowestZero(t.words[k / WORD_BITS], Cap(size, k / WORD_BITS)) == k % WORD_BITS
    ensures Enabled(t, Step(k, Exchange)) && Next(t, Step(k, Exchange)) == Filled(size, nCpus, k + 1)
  {
    LastWord(size, nCpus, k);
    var u, f := Next(t, Step(k, Exchange)), Filled(size, nCpus, k + 1);
    forall w: nat | w < |u.words| ensures u.words[w] == f.words[w] {
      if w != k / WORD_BITS { OtherWords(size, nCpus, k, w); }
    }
    assert u.words == f.words;
    assert u.cpus == f.cpus;
  }

  lemma {:induction false} FillsUp(size: nat, nCpus: nat, k: nat)
    requires k <= size && k <= nCpus
    ensures Reachable(size, nCpus, Filled(size, nCpus, k))
  {
    if k == 0 {
      var f, start := Filled(size, nCpus, 0), Start(size, nCpus);
      forall w: nat | w < |f.words| ensures f.words[w] == start.words[w] { assert Cap(0, w) == 0; }
      assert f.words == start.words;
      assert f.cpus == start.cpus;
      assert CanRun(start, []) && Run(start, []) == f;
    } else {
      FillsUp(size, nCpus, k - 1);
      TakesNext(size, nCpus, k - 1);
    }
  }

  /** The search has to be repeated in some run if and only if there are fewer positions than CPUs. */
  lemma RetryIsNeeded(size: nat, nCpus: nat)
    ensures size < nCpus <==> exists s: State :: Reachable(size, nCpus, s) && ScanFailed(s)
  {
    if size < nCpus {
      FillsUp(size, nCpus, size);
      PassesFullWords(size, nCpus, size, GetVecSize(size));
      var s := Searching(size, nCpus, size, GetVecSize(size));
      assert s.cpus[size].Scanning?;
      assert ScanFailed(s);
    } else {
      forall s: State | Reachable(size, nCpus, s) ensures !ScanFailed(s) { ScanNeverFails(size, nCpus, s); }
    }
  }
}
