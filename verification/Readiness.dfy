/** When a task becomes ready: its accesses are linked one by one, each is counted as a predecessor unless it is
    satisfied at once, and other threads may satisfy it before it has been counted. A guard on the counter hides
    that. */
module Readiness {

  /** `waits`: neither weak nor a reduction, and not found satisfied by the registering thread. `counted`: that thread
      has counted it. `satisfied`: another thread has decremented the counter for it. */
  datatype Access = Access(waits: bool, counted: bool, satisfied: bool)

  datatype Task = Task(pred: int, registering: bool, accesses: seq<Access>, submitted: nat)

  /** `Immediate`: the registering thread finds that the access it has just linked is satisfied. */
  datatype Step = Link(waits: bool) | Immediate | Count | Satisfy(access: nat) | Finish

  function Start(guard: nat): Task { Task(guard, true, [], 0) }

  /** The access linked last has not been counted yet. */
  predicate Uncounted(t: Task) {
    t.accesses != [] && t.accesses[|t.accesses| - 1].waits && !t.accesses[|t.accesses| - 1].counted
  }

  predicate Enabled(t: Task, step: Step) {
    match step
    case Link(_) => t.registering && !Uncounted(t)
    case Immediate => t.registering && Uncounted(t) && !t.accesses[|t.accesses| - 1].satisfied
    case Count => t.registering && Uncounted(t)
    case Satisfy(i) => i < |t.accesses| && t.accesses[i].waits && !t.accesses[i].satisfied
    case Finish => t.registering && !Uncounted(t)
  }

  /** The thread that brings the counter to zero submits the task. */
  function Decrease(t: Task, amount: nat): Task {
    t.(pred := t.pred - amount, submitted := if t.pred - amount == 0 then t.submitted + 1 else t.submitted)
  }

  function Next(guard: nat, t: Task, step: Step): Task
    requires Enabled(t, step)
  {
    match step
    case Link(waits) => t.(accesses := t.accesses + [Access(waits, false, false)])
    case Immediate =>
      var i := |t.accesses| - 1;
      t.(accesses := t.accesses[i := t.accesses[i].(waits := false)])
    case Count =>
      var i := |t.accesses| - 1;
      t.(pred := t.pred + 1, accesses := t.accesses[i := t.accesses[i].(counted := true)])
    case Satisfy(i) => Decrease(t.(accesses := t.accesses[i := t.accesses[i].(satisfied := true)]), 1)
    case Finish => Decrease(t.(registering := false), guard)
  }

  predicate CanRun(guard: nat, t: Task, run: seq<Step>)
    decreases |run|
  {
    run != [] ==> Enabled(t, run[0]) && CanRun(guard, Next(guard, t, run[0]), run[1..])
  }

  function Run(guard: nat, t: Task, run: seq<Step>): Task
    requires CanRun(guard, t, run)
    decreases |run|
  {
    if run == [] then t else Run(guard, Next(guard, t, run[0]), run[1..])
  }

  /** Counted minus satisfied. */
  function Balance(accesses: seq<Access>): int {
    if accesses == [] then 0
    else
      var a := accesses[|accesses| - 1];
      Balance(accesses[..|accesses| - 1]) + (if a.counted then 1 else 0) - (if a.satisfied then 1 else 0)
  }

  predicate AllSatisfied(accesses: seq<Access>) {
    forall i :: 0 <= i < |accesses| && accesses[i].waits ==> accesses[i].satisfied
  }

  lemma {:induction false} BalanceUpdate(accesses: seq<Access>, i: nat, a: Access)
    requires i < |accesses|
    ensures Balance(accesses[i := a]) - Balance(accesses)
            == (if a.counted then 1 else 0) - (if a.satisfied then 1 else 0)
               - (if accesses[i].counted then 1 else 0) + (if accesses[i].satisfied then 1 else 0)
  {
    var n := |accesses| - 1;
    if i == n {
      assert accesses[i := a][..n] == accesses[..n];
    } else {
      assert accesses[i := a][..n] == accesses[..n][i := a];
      BalanceUpdate(accesses[..n], i, a);
    }
  }

  /** Among counted accesses the balance is the number of those that are not satisfied. */
  lemma {:induction false} BalanceOfCounted(accesses: seq<Access>)
    requires forall i :: 0 <= i < |accesses| ==>
             accesses[i].counted == accesses[i].waits && (accesses[i].satisfied ==> accesses[i].waits)
    ensures Balance(accesses) >= 0 && (Balance(accesses) == 0 <==> AllSatisfied(accesses))
  {
    if accesses != [] {
      var n := |accesses| - 1;
      BalanceOfCounted(accesses[..n]);
      if AllSatisfied(accesses[..n]) && (accesses[n].waits ==> accesses[n].satisfied) {
        forall i | 0 <= i < |accesses| && accesses[i].waits ensures accesses[i].satisfied {
          if i < n { assert accesses[..n][i].waits; }
        }
      }
      if AllSatisfied(accesses) {
        forall i | 0 <= i < n && accesses[..n][i].waits ensures accesses[..n][i].satisfied { assert accesses[i].waits; }
      }
    }
  }

  /** Only accesses that wait are counted or satisfied, and all of them are counted except perhaps the last. */
  predicate Shape(t: Task) {
    && (forall i :: 0 <= i < |t.accesses| ==>
          (t.accesses[i].satisfied || t.accesses[i].counted ==> t.accesses[i].waits))
    && (forall i :: 0 <= i < |t.accesses| && t.accesses[i].waits && !t.accesses[i].counted ==>
          i == |t.accesses| - 1 && t.registering)
  }

  predicate Inv(guard: nat, t: Task) {
    && Shape(t)
    && t.pred == (if t.registering then guard else 0) + Balance(t.accesses)
    && t.submitted == (if !t.registering && AllSatisfied(t.accesses) then 1 else 0)
  }

  /** While an access is being registered the balance is at worst minus one: only the last access can have been
      satisfied before it was counted. */
  lemma BalanceBound(t: Task)
    requires Shape(t)
    ensures Balance(t.accesses) >= (if Uncounted(t) then -1 else 0)
    ensures !Uncounted(t) ==> (Balance(t.accesses) == 0 <==> AllSatisfied(t.accesses))
  {
    if Uncounted(t) {
      BalanceOfCounted(t.accesses[..|t.accesses| - 1]);
    } else {
      BalanceOfCounted(t.accesses);
    }
  }

  lemma SatisfyStep(guard: nat, t: Task, i: nat)
    requires guard >= 2 && Inv(guard, t) && Enabled(t, Satisfy(i))
    ensures Inv(guard, Next(guard, t, Satisfy(i)))
  {
    var t' := Next(guard, t, Satisfy(i));
    BalanceUpdate(t.accesses, i, t'.accesses[i]);
    assert Shape(t');
    BalanceBound(t');
    assert !AllSatisfied(t.accesses);
  }

  lemma StepInv(guard: nat, t: Task, step: Step)
    requires guard >= 2 && Inv(guard, t) && Enabled(t, step)
    ensures Inv(guard, Next(guard, t, step))
  {
    var t' := Next(guard, t, step);
    match step
    case Link(waits) => assert t'.accesses[..|t.accesses|] == t.accesses;
    case Immediate => BalanceUpdate(t.accesses, |t.accesses| - 1, t'.accesses[|t.accesses| - 1]);
    case Count => BalanceUpdate(t.accesses, |t.accesses| - 1, t'.accesses[|t.accesses| - 1]);
    case Satisfy(i) => SatisfyStep(guard, t, i);
    case Finish => BalanceBound(t);
  }

  lemma {:induction false} RunInv(guard: nat, t: Task, run: seq<Step>)
    requires guard >= 2 && Inv(guard, t) && CanRun(guard, t, run)
    ensures Inv(guard, Run(guard, t, run))
    decreases |run|
  {
    if run != [] {
      StepInv(guard, t, run[0]);
      RunInv(guard, Next(guard, t, run[0]), run[1..]);
    }
  }

  /** With a guard of two, whatever the interleaving: the task is submitted at most once, it has been submitted if and
      only if its registration is over and every access it waits for is satisfied, and the counter never goes
      negative. */
  lemma ReadyExactlyOnce(run: seq<Step>)
    requires CanRun(2, Start(2), run)
    ensures var t := Run(2, Start(2), run);
            && t.submitted <= 1 && t.pred >= 0
            && (t.submitted == 1 <==> !t.registering && AllSatisfied(t.accesses))
  {
    RunInv(2, Start(2), run);
    var t := Run(2, Start(2), run);
    BalanceBound(t);
  }

  /** A run in which a task is submitted twice. */
  ghost predicate SubmitsTwice(guard: nat, run: seq<Step>) {
    CanRun(guard, Start(guard), run) && Run(guard, Start(guard), run).submitted > 1
  }

  /** With a guard of one, an access that is satisfied before it is counted makes the counter zero too early. */
  lemma GuardOfOneFails()
    ensures SubmitsTwice(1, [Link(true), Satisfy(0), Count, Finish])
  {
    var run := [Link(true), Satisfy(0), Count, Finish];
    var t0 := Start(1);
    var t1 := Next(1, t0, run[0]);
    var t2 := Next(1, t1, run[1..][0]);
    assert t2.submitted == 1;
    var t3 := Next(1, t2, run[1..][1..][0]);
    var t4 := Next(1, t3, run[1..][1..][1..][0]);
    assert t4.submitted == 2 && run[1..][1..][1..][1..] == [];
    assert CanRun(1, t4, []) && CanRun(1, t3, run[1..][1..][1..]) && CanRun(1, t2, run[1..][1..])
      && CanRun(1, t1, run[1..]);
    assert Run(1, t0, run) == Run(1, t1, run[1..]) == Run(1, t2, run[1..][1..]) == Run(1, t3, run[1..][1..][1..]) == t4;
  }

  lemma NoGuardFails()
    ensures SubmitsTwice(0, [Link(true), Count, Satisfy(0), Finish])
  {
    var run := [Link(true), Count, Satisfy(0), Finish];
    var t0 := Start(0);
    var t1 := Next(0, t0, run[0]);
    var t2 := Next(0, t1, run[1..][0]);
    var t3 := Next(0, t2, run[1..][1..][0]);
    assert t3.submitted == 1;
    var t4 := Next(0, t3, run[1..][1..][1..][0]);
    assert t4.submitted == 2 && run[1..][1..][1..][1..] == [];
    assert CanRun(0, t4, []) && CanRun(0, t3, run[1..][1..][1..]) && CanRun(0, t2, run[1..][1..])
      && CanRun(0, t1, run[1..]);
    assert Run(0, t0, run) == Run(0, t1, run[1..]) == Run(0, t2, run[1..][1..]) == Run(0, t3, run[1..][1..][1..]) == t4;
  }

  /** The guard has to be at least two: no smaller one is safe, every larger one is. */
  lemma GuardOfTwoIsNeeded(guard: nat)
    ensures guard >= 2 <==> forall run: seq<Step> :: !SubmitsTwice(guard, run)
  {
    if guard == 1 {
      GuardOfOneFails();
    } else if guard == 0 {
      NoGuardFails();
    } else {
      forall run: seq<Step> ensures !SubmitsTwice(guard, run) {
        if CanRun(guard, Start(guard), run) { RunInv(guard, Start(guard), run); }
      }
    }
  }

  class PredecessorCounter {
    var task: Task
    ghost var run: seq<Step>

    /** The task after some run of the registering thread and of the threads that satisfy its accesses. */
    ghost predicate Valid()
      reads this
    {
      CanRun(2, Start(2), run) && Run(2, Start(2), run) == task
    }

    constructor ()
      ensures Valid() && task == Start(2)
    {
      task, run := Start(2), [];
    }

    method Perform(step: Step)
      requires Valid() && Enabled(task, step)
      modifies this
      ensures Valid() && task == Next(2, old(task), step)
    {
      RunSnoc(2, Start(2), run, step);
      task := Next(2, task, step);
      run := run + [step];
    }

    /** Registers accesses, undisturbed; `waits` says of each whether it is neither weak nor a reduction, and `now`
        whether it is found satisfied. */
    method Register(waits: seq<bool>, now: seq<bool>) returns (ready: bool)
      requires Valid() && task == Start(2) && |now| == |waits|
      modifies this
      ensures Valid() && !task.registering && |task.accesses| == |waits|
      ensures ready <==> forall i :: 0 <= i < |waits| && waits[i] ==> now[i]
      ensures task.submitted == if ready then 1 else 0
    {
      for i := 0 to |waits|
        invariant Valid() && task.registering && |task.accesses| == i && !Uncounted(task)
        invariant forall j :: 0 <= j < i ==>
                  task.accesses[j].waits == (waits[j] && !now[j]) && !task.accesses[j].satisfied
      {
        Perform(Link(waits[i]));
        if waits[i] && now[i] {
          Perform(Immediate);
        } else if waits[i] {
          Perform(Count);
        }
      }
      Perform(Finish);
      ReadyExactlyOnce(run);
      ready := task.pred == 0;
      RunInv(2, Start(2), run);
      BalanceBound(task);
    }

    /** Another thread satisfies an access; says whether it has to submit the task. */
    method SatisfyTask(i: nat) returns (ready: bool)
      requires Valid() && Enabled(task, Satisfy(i))
      modifies this
      ensures Valid() && task == Next(2, old(task), Satisfy(i))
      ensures ready <==> !task.registering && AllSatisfied(task.accesses)
      ensures task.submitted == if ready then 1 else 0
    {
      RunInv(2, Start(2), run);
      BalanceBound(task);
      Perform(Satisfy(i));
      ready := task.pred == 0;
      RunInv(2, Start(2), run);
      BalanceBound(task);
    }
  }

  lemma {:induction false} RunSnoc(guard: nat, t: Task, run: seq<Step>, step: Step)
    requires CanRun(guard, t, run) && Enabled(Run(guard, t, run), step)
    ensures CanRun(guard, t, run + [step]) && Run(guard, t, run + [step]) == Next(guard, Run(guard, t, run), step)
    decreases |run|
  {
    var all := run + [step];
    if run == [] {
      assert all[0] == step && all[1..] == [];
    } else {
      assert all[0] == run[0] && all[1..] == run[1..] + [step];
      RunSnoc(guard, Next(guard, t, run[0]), run[1..], step);
    }
  }
}
