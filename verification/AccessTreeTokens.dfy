/** Every step keeps the ledger of tokens, the messages and the schedule requests consistent. */
module AccessTreeTokens {
  import opened AccessFlags
  import opened DataAccess
  import opened AccessTree

  lemma RecordAt(ledger: map<Flag, nat>, out: seq<Message>, n: nat, f: Flag)
    requires |out| <= 2
    ensures f in Record(ledger, out, n) <==> f in ledger || CarriedBy(out, 0, f) || CarriedBy(out, 1, f)
    ensures CarriedBy(out, 1, f) ==> Record(ledger, out, n)[f] == n + 1
    ensures CarriedBy(out, 0, f) && !CarriedBy(out, 1, f) ==> Record(ledger, out, n)[f] == n
    ensures f in ledger && !CarriedBy(out, 0, f) && !CarriedBy(out, 1, f) ==> Record(ledger, out, n)[f] == ledger[f]
  {
  }

  /** The token `f` of access `x`, after access `a` has gained `added` and sent `out`. */
  lemma GrowToken(s: State, a: nat, added: Flags, raised: Flags, out: seq<Message>, x: nat, f: Flag)
    requires a < |s.nodes| && x < |s.nodes| && TokenOk(s, x, f) && f !in added
    requires f in raised <==> Token(s.nodes[a].ty, f) && Enables(Trigger(s.nodes[a].ty, f), s.nodes[a].flags, added)
    requires |out| <= 2 && (forall k :: 0 <= k < |out| ==> out[k].from == a)
    requires f in raised <==> CarriedBy(out, 0, f) || CarriedBy(out, 1, f)
    requires !(CarriedBy(out, 0, f) && CarriedBy(out, 1, f))
    ensures TokenOk(Grow(s, a, added, out), x, f)
  {
    RecordAt(s.nodes[a].ledger, out, |s.sent|, f);
  }

  lemma GrowMessage(s: State, a: nat, added: Flags, raised: Flags, schedule: bool, out: seq<Message>, i: nat)
    requires a < |s.nodes| && i < |s.sent| && MessageOk(s, i)
    requires Sends(a, raised, schedule, NextIsParent in s.nodes[a].flags + added, s.nodes[a].succ, s.nodes[a].child,
             out)
    requires NextIsParent in added ==> forall p :: NextSat(p) !in s.nodes[a].ledger
    requires forall f :: f in raised ==> f !in s.nodes[a].ledger
    requires s.nodes[a].scheduledBy.Some? ==> !schedule
    ensures MessageOk(Grow(s, a, added, out), i)
  {
    var m := s.sent[i].msg;
    var t := Grow(s, a, added, out);
    forall f | f in m.flagsAfter ensures f in t.nodes[m.from].ledger && t.nodes[m.from].ledger[f] == i {
      RecordAt(s.nodes[a].ledger, out, |s.sent|, f);
    }
  }

  lemma GrowNewMessage(s: State, a: nat, added: Flags, raised: Flags, schedule: bool, out: seq<Message>, i: nat)
    requires a < |s.nodes| && |s.sent| <= i < |s.sent| + |out|
    requires Sends(a, raised, schedule, NextIsParent in s.nodes[a].flags + added, s.nodes[a].succ, s.nodes[a].child,
             out)
    requires s.nodes[a].succ.Some? ==> s.nodes[a].succ.value < |s.nodes|
    requires s.nodes[a].child.Some? ==> s.nodes[a].child.value < |s.nodes|
    ensures MessageOk(Grow(s, a, added, out), i)
  {
    hide Complete, Record;
    var k := i - |s.sent|;
    var m := out[k];
    var t := Grow(s, a, added, out);
    assert t.sent[i] == Sent(m, FirstStage(m));
    forall f | f in m.flagsAfter ensures f in t.nodes[a].ledger && t.nodes[a].ledger[f] == i {
      RecordAt(s.nodes[a].ledger, out, |s.sent|, f);
      assert CarriedBy(out, k, f);
    }
    assert m.schedule ==> ScheduledBy(out, k);
    if m.to.Some? {
      Addressee(m, a, NextIsParent in s.nodes[a].flags + added, s.nodes[a].succ, s.nodes[a].child);
    }
  }

  /** Every message of the log, old or new. */
  lemma GrowAnyMessage(s: State, a: nat, added: Flags, raised: Flags, schedule: bool, out: seq<Message>, i: nat)
    requires a < |s.nodes| && i < |s.sent| + |out| && (i < |s.sent| ==> MessageOk(s, i))
    requires Sends(a, raised, schedule, NextIsParent in s.nodes[a].flags + added, s.nodes[a].succ, s.nodes[a].child,
             out)
    requires NextIsParent in added ==> forall p :: NextSat(p) !in s.nodes[a].ledger
    requires forall f :: f in raised ==> f !in s.nodes[a].ledger
    requires s.nodes[a].scheduledBy.Some? ==> !schedule
    requires s.nodes[a].succ.Some? ==> s.nodes[a].succ.value < |s.nodes|
    requires s.nodes[a].child.Some? ==> s.nodes[a].child.value < |s.nodes|
    ensures MessageOk(Grow(s, a, added, out), i)
  {
    if i < |s.sent| {
      GrowMessage(s, a, added, raised, schedule, out, i);
    } else {
      GrowNewMessage(s, a, added, raised, schedule, out, i);
    }
  }

  /** A message goes to the successor or to the first child. */
  lemma Addressee(m: Message, a: nat, upward: bool, succ: Option<nat>, child: Option<nat>)
    requires Shaped(m, a, upward, succ, child) && m.to.Some?
    ensures (succ.Some? && m.to == succ) || (child.Some? && m.to == child)
  {
    var g :| g in m.flagsForNext;
    if g.Sat? {
      assert ChildSat(g.perm) in m.flagsAfter || NextSat(g.perm) in m.flagsAfter;
    } else {
      assert ChildDone(g.perm) in m.flagsForNext;
      assert NextSat(g.perm) in m.flagsAfter;
    }
  }

  lemma GrowSchedule(s: State, a: nat, added: Flags, raised: Flags, out: seq<Message>, x: nat)
    requires a < |s.nodes| && x < |s.nodes| && ScheduleOk(s, x)
    requires s.nodes[a].flags !! added && IsWeak !in added
    requires Sends(a, raised, Schedules(s.nodes[a].ty, s.nodes[a].flags, added),
                   NextIsParent in s.nodes[a].flags + added, s.nodes[a].succ, s.nodes[a].child, out)
    ensures ScheduleOk(Grow(s, a, added, out), x)
  {
    var t := Grow(s, a, added, out);
    if x == a {
      assert forall k :: 0 <= k < |out| ==> t.sent[|s.sent| + k] == Sent(out[k], FirstStage(out[k]));
      if ScheduledBy(out, 0) {
        assert t.sent[|s.sent| + 0].msg == out[0];
      } else if ScheduledBy(out, 1) {
        assert t.sent[|s.sent| + 1].msg == out[1];
      }
    }
  }

  lemma GrowReport(s: State, a: nat, added: Flags, out: seq<Message>, x: nat)
    requires a < |s.nodes| && x < |s.nodes| && ReportOk(s, x)
    requires !Complete(s.nodes[a].ty, s.nodes[a].flags)
    ensures ReportOk(Grow(s, a, added, out), x)
  {
  }

  /** Growing an access delivers nothing by itself. */
  lemma GrowDelivered(s: State, a: nat, added: Flags, raised: Flags, schedule: bool, out: seq<Message>, x: nat, f: Flag)
    requires a < |s.nodes| && x < |s.nodes| && TokenOk(s, x, f) && (f.NextSat? || f.ChildSat?)
    requires Sends(a, raised, schedule, NextIsParent in s.nodes[a].flags + added, s.nodes[a].succ, s.nodes[a].child,
             out)
    requires forall g :: g in raised ==> g !in s.nodes[a].ledger
    ensures Delivered(Grow(s, a, added, out), x, f) <==> Delivered(s, x, f)
  {
    var t := Grow(s, a, added, out);
    RecordAt(s.nodes[a].ledger, out, |s.sent|, f);
    if x == a && f in raised {
      var k: nat := if CarriedBy(out, 0, f) then 0 else 1;
      assert CarriedBy(out, k, f);
      assert Shaped(out[k], a, NextIsParent in s.nodes[a].flags + added, s.nodes[a].succ, s.nodes[a].child);
      assert t.sent[|s.sent| + k] == Sent(out[k], FirstStage(out[k]));
      assert out[k].to.Some? by {
        if f.NextSat? {
          assert NextSat(f.perm) in out[k].flagsAfter;
        } else {
          assert ChildSat(f.perm) in out[k].flagsAfter;
        }
      }
    }
  }
}
