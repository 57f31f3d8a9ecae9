/** Which accesses share a reduction: neighbours in a chain whose operator and length match, as long as nothing else
    comes in between, and what is nested below them. */
module ReductionSharing {
  import opened AccessFlags
  import opened DataAccess
  import Tree = AccessTree
  import opened ReductionInfo
  import opened ReductionInvariant
  import opened ReductionMemory
  import opened ReductionSafety

  // ---------------------------------------------------------------------------------------------
  // One registration

  /** The last access of the chain participates in a reduction that has been left open there. */
  predicate OpenAtEnd(s: State, ch: Tree.Chain) {
    ch in s.tree.bottom && ch in s.entry
  }

  lemma OpenIsOfLast(s: State, ch: Tree.Chain)
    requires Inv(s) && OpenAtEnd(s, ch)
    ensures s.tree.bottom[ch] < |s.red| && s.red[s.tree.bottom[ch]] == Some(s.entry[ch]) && s.entry[ch] < |s.reds|
  {
    assert EntryOk(s, ch);
  }

  /** What a registration leaves alone. */
  predicate OnlyAdds(s: State, s': State, red: Option<nat>) {
    && |s'.red| == |s.red| + 1 && s'.red[..|s.red|] == s.red && s'.red[|s.red|] == red
    && |s'.registered| == |s.red| + 1 && (s'.registered[|s.red|] <==> red.Some?)
  }

  /** A reduction that matches the open one of the access before it joins it: nothing is created and nothing closed, and
      the reduction counts one participant more. */
  lemma MatchJoins(s: State, ch: Tree.Chain, weak: bool)
    requires Reachable(s) && Enabled(s, Insert(ch, ReductionAccess, weak, true)) && OpenAtEnd(s, ch)
    ensures var s', r := Next(s, Insert(ch, ReductionAccess, weak, true)), s.entry[ch];
            && s.tree.bottom[ch] < |s.red| && s.red[s.tree.bottom[ch]] == Some(r) && r < |s.reds|
            && OnlyAdds(s, s', Some(r)) && s'.entry == s.entry && s'.closing == s.closing
            && s'.reds == s.reds[r := s.reds[r].(count := s.reds[r].count + 1)]
  {
    hide Reachable, Inv, Tree.Next, Tree.Enabled;
    ReachableInv(s);
    OpenIsOfLast(s, ch);
  }

  /** One that does not match starts a reduction of its own, which counts it, its closing and its arrival, and takes the
      open one out of the chain, to be closed. */
  lemma MismatchOpens(s: State, ch: Tree.Chain, weak: bool)
    requires Reachable(s) && Enabled(s, Insert(ch, ReductionAccess, weak, false)) && OpenAtEnd(s, ch)
    ensures var s', r := Next(s, Insert(ch, ReductionAccess, weak, false)), s.entry[ch];
            && OnlyAdds(s, s', Some(|s.reds|)) && s'.entry == s.entry[ch := |s.reds|] && s'.closing == s.closing + {r}
            && s'.reds == s.reds + [Reduction(|s.red|, 3, false, false, 0)]
  {
    hide Reachable, Inv, Tree.Next, Tree.Enabled;
    ReachableInv(s);
    OpenIsOfLast(s, ch);
  }

  /** So does the first of a chain that is not nested below a reduction, and one that comes after something else. */
  lemma NothingOpenOpens(s: State, ch: Tree.Chain, weak: bool, same: bool)
    requires Reachable(s) && Enabled(s, Insert(ch, ReductionAccess, weak, same)) && ch !in s.entry && !Inner(s, ch)
    ensures var s' := Next(s, Insert(ch, ReductionAccess, weak, same));
            && OnlyAdds(s, s', Some(|s.reds|)) && s'.entry == s.entry[ch := |s.reds|] && s'.closing == s.closing
            && s'.reds == s.reds + [Reduction(|s.red|, 3, false, false, 0)]
  {
    hide Reachable, Tree.Inv, Tree.Next, Tree.Enabled, Mail, Memory, Counters;
    ReachableInv(s);
  }

  /** The first access below a reduction joins that of its parent. */
  lemma NestedJoins(s: State, ch: Tree.Chain, weak: bool, same: bool)
    requires Reachable(s) && Enabled(s, Insert(ch, ReductionAccess, weak, same)) && ch !in s.tree.bottom && Inner(s, ch)
    ensures s.red[ch.parent].value < |s.reds|
    ensures var s', r := Next(s, Insert(ch, ReductionAccess, weak, same)), s.red[ch.parent].value;
            && OnlyAdds(s, s', Some(r)) && s'.entry == s.entry[ch := r] && s'.closing == s.closing
            && s'.reds == s.reds[r := s.reds[r].(count := s.reds[r].count + 1)]
  {
    hide Reachable, Tree.Inv, Tree.Next, Tree.Enabled, Mail, Memory, Counters;
    ReachableInv(s);
    assert EntryOk(s, ch);
  }

  /** Any other access participates in nothing and takes the open reduction out of the chain. */
  lemma OtherCloses(s: State, ch: Tree.Chain, ty: AccessType, weak: bool, same: bool)
    requires Reachable(s) && Enabled(s, Insert(ch, ty, weak, same)) && !ty.ReductionAccess?
    ensures var s' := Next(s, Insert(ch, ty, weak, same));
            && OnlyAdds(s, s', None) && s'.entry == s.entry - {ch} && s'.reds == s.reds
            && s'.closing == s.closing + if ch in s.entry then {s.entry[ch]} else {}
  {
    hide Reachable, Tree.Inv, Tree.Next, Tree.Enabled, Mail, Memory, Counters;
    ReachableInv(s);
  }

  // ---------------------------------------------------------------------------------------------
  // Whole runs

  /** Everything that the run registers in the chain matches, and the open reduction is not taken out of it. */
  predicate OnlyMatching(run: seq<Step>, ch: Tree.Chain) {
    forall k :: 0 <= k < |run| ==>
      && run[k] != Detach(ch)
      && (run[k].Insert? && run[k].chain == ch ==> run[k].ty.ReductionAccess? && run[k].same)
  }

  /** From `n` on, all accesses of the chain are in reduction `r`. */
  ghost predicate AllIn(s: State, ch: Tree.Chain, r: nat, n: nat) {
    && |s.red| == |s.tree.nodes|
    && forall y :: n <= y < |s.red| && s.tree.nodes[y].chain == ch ==> s.red[y] == Some(r)
  }

  lemma StepShares(s: State, step: Step, ch: Tree.Chain, n: nat)
    requires Reachable(s) && Enabled(s, step) && OpenAtEnd(s, ch) && OnlyMatching([step], ch)
    requires AllIn(s, ch, s.entry[ch], n)
    ensures OpenAtEnd(Next(s, step), ch) && Next(s, step).entry[ch] == s.entry[ch]
    ensures AllIn(Next(s, step), ch, s.entry[ch], n)
  {
    hide Reachable, Inv, Tree.Next, Tree.Enabled, Tree.Inv;
    var t := TreeAfter(s, step);
    ReachableInv(s);
    StepStepped(s, step);
    StepKeeps(s, step, t);
    assert [step][0] == step;
    if step.Insert? && step.chain == ch { MatchJoins(s, ch, step.weak); }
    forall y | n <= y < |Next(s, step).red| && t.nodes[y].chain == ch
      ensures Next(s, step).red[y] == Some(s.entry[ch])
    {
      if y < |s.red| { assert Next(s, step).red[..|s.red|][y] == s.red[y]; }
    }
  }

  lemma {:induction false} RunShares(s: State, run: seq<Step>, ch: Tree.Chain, n: nat)
    requires Reachable(s) && CanRun(s, run) && OpenAtEnd(s, ch) && OnlyMatching(run, ch) && AllIn(s, ch, s.entry[ch], n)
    ensures var t := Run(s, run);
            Reachable(t) && OpenAtEnd(t, ch) && t.entry[ch] == s.entry[ch] && AllIn(t, ch, s.entry[ch], n)
    decreases |run|
  {
    if run != [] {
      assert [run[0]][0] == run[0];
      StepShares(s, run[0], ch, n);
      ReachesNext(s, run[0]);
      assert forall k :: 0 <= k < |run[1..]| ==> run[1..][k] == run[k + 1];
      RunShares(Next(s, run[0]), run[1..], ch, n);
    }
  }

  /** Who participates in a reduction does so for ever. */
  lemma {:induction false} RunKeepsRed(s: State, run: seq<Step>, y: nat)
    requires Reachable(s) && CanRun(s, run) && y < |s.red|
    ensures Reachable(Run(s, run)) && y < |Run(s, run).red| && Run(s, run).red[y] == s.red[y]
    decreases |run|
  {
    if run != [] {
      ReachableInv(s);
      StepStepped(s, run[0]);
      StepKeeps(s, run[0], TreeAfter(s, run[0]));
      assert Next(s, run[0]).red[..|s.red|][y] == s.red[y];
      ReachesNext(s, run[0]);
      RunKeepsRed(Next(s, run[0]), run[1..], y);
    }
  }

  /** Neighbours share one reduction and one combination: if a reduction is open at the end of a chain, then the
      accesses that a run registers there, as long as it registers only matching reductions and nothing takes the
      reduction out, are all in that reduction, and whatever happens later it is combined once at most, and only when
      each of them has been released. */
  lemma NeighboursShareOneCombination(s: State, run: seq<Step>, more: seq<Step>, ch: Tree.Chain, y: nat)
    requires Reachable(s) && CanRun(s, run) && CanRun(Run(s, run), more) && OpenAtEnd(s, ch) && OnlyMatching(run, ch)
    requires |s.red| <= y < |Run(s, run).red| && y < |Run(s, run).tree.nodes|
    requires Run(s, run).tree.nodes[y].chain == ch
    ensures var u, r, x := Run(Run(s, run), more), s.entry[ch], s.tree.bottom[ch];
            && x < |u.red| && u.red[x] == Some(r) && y < |u.red| && u.red[y] == Some(r) && r < |u.reds|
            && u.reds[r].combinations <= 1
            && (u.reds[r].combinations == 1 ==> |u.registered| == |u.red| && !u.registered[x] && !u.registered[y])
  {
    var t, r, x := Run(s, run), s.entry[ch], s.tree.bottom[ch];
    var u := Run(t, more);
    ReachableInv(s);
    OpenIsOfLast(s, ch);
    RunShares(s, run, ch, |s.red|);
    RunKeepsRed(s, run, x);
    RunKeepsRed(t, more, x);
    RunKeepsRed(t, more, y);
    ReachableInv(u);
    assert StructOk(u, x);
    CombinedExactlyOnce(u, r);
  }
}
