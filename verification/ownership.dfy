/** Whose rows are in the log (core.py, events/unit_of_work.py). */
module Ownership {
  // A failed call need not leave the log as it was: the handler may fail, or return something that
  // is not a dict, after a unit of work of its own has committed.  What decides is not how the
  // call ended but whether one of its units of work that appended rows was left normally.

  import opened Outcomes
  import opened SemanticKeys
  import opened EventLog
  import opened UnitsOfWork
  import opened Dispatching
  import opened WriteProtocol
  import opened Replies

  /** A unit of work of `p` that has appended rows is left normally, outside a dry run. */
  predicate CommitsRows(s: State, a: Action, p: nat) {
    && a.Leave? && a.p == p
    && At(s, p, InTxn) && !s.procs[p].dryRun
    && RunUpdaters(s.store.working.tables, a.updaters).Some?
    && |s.store.working.events| > |s.store.committed.events|
  }

  predicate CommitsRowsAt(su: Setup, init: State, actions: seq<Action>, p: nat, k: int) {
    0 <= k < |actions| && CommitsRows(Run(su, init, actions[..k]), actions[k], p)
  }

  lemma LeaveOwners(su: Setup, s: State, a: Action, p: nat)
    requires LogInv(su, s) && a.Leave? && At(s, a.p, InTxn)
    ensures p in LeaveStep(s, a.p, a.updaters).owners <==> p in s.owners || CommitsRows(s, a, p)
  {
    if CommitsRows(s, a, a.p) {
      var added := seq(|s.store.working.events| - |s.store.committed.events|, _ => a.p);
      assert added[0] == a.p;
      assert LeaveStep(s, a.p, a.updaters).owners == s.owners + added;
    }
  }

  /** A step makes `p` an owner exactly when it commits rows of `p`. */
  lemma StepOwners(su: Setup, s: State, a: Action, p: nat)
    requires LogInv(su, s)
    ensures p in Next(su, s, a).owners <==> p in s.owners || CommitsRows(s, a, p)
  {
    if a.Leave? && At(s, a.p, InTxn) {
      LeaveOwners(su, s, a, p);
    }
  }

  lemma {:induction false} RunOwners(su: Setup, init: State, actions: seq<Action>, p: nat)
    requires LogInv(su, init) && init.owners == []
    ensures p in Run(su, init, actions).owners <==> exists k :: CommitsRowsAt(su, init, actions, p, k)
    decreases |actions|
  {
    if actions != [] {
      var n := |actions| - 1;
      var before := actions[..n];
      RunOwners(su, init, before, p);
      LastStep(su, init, actions);
      RunKeepsLog(su, init, before);
      StepOwners(su, Run(su, init, before), actions[n], p);
      forall k | 0 <= k < n ensures actions[..k] == before[..k] {
      }
      if k :| CommitsRowsAt(su, init, before, p, k) {
        assert CommitsRowsAt(su, init, actions, p, k);
      }
      if CommitsRows(Run(su, init, before), actions[n], p) {
        assert CommitsRowsAt(su, init, actions, p, n);
      }
      if k :| CommitsRowsAt(su, init, actions, p, k) {
        assert k == n || CommitsRowsAt(su, init, before, p, k);
      }
    }
  }

  /** In every schedule a call owns committed rows exactly when one of its units of work that had
      appended rows was left normally outside a dry run - however the call itself ended. */
  lemma OwnsRowIff(su: Setup, exportOn: bool, tables: map<string, Json>, actions: seq<Action>, p: nat)
    ensures p in Run(su, Init(exportOn, tables), actions).owners
       <==> exists k :: CommitsRowsAt(su, Init(exportOn, tables), actions, p, k)
  {
    RunOwners(su, Init(exportOn, tables), actions, p);
  }

  lemma DemoReturn(su: Setup, s: State)
    requires At(s, 1, Running) && s.procs[1].results == []
    ensures var s' := Next(su, s, Return(1, false));
            && At(s', 1, Done) && s'.procs[1].results == [Returned(Failure(InvariantViolation, None))]
            && s'.store == s.store && s'.owners == s.owners
  {
  }

  /** For instance: one call writes, commits, and returns something that is not a dict.  It is
      reported as an invariant violation, and its row is in the log. */
  lemma FailedCallMayCommit()
    ensures var actions := [Submit(1, DemoCall(1))] + [Begin(1), Write(1, DemoRequest(1)), Leave(1, [])] + [Return(1, false)];
            var s := Run(DemoSetup(), Init(false, map[]), actions);
            && 1 in s.procs && s.procs[1].pc == Done
            && s.procs[1].results == [Returned(Failure(InvariantViolation, None))]
            && s.store.committed.events == [DemoRow(1, 1)] && s.owners == [1]
  {
    var su := DemoSetup();
    var init := Init(false, map[]);
    var part0, part1 := [Submit(1, DemoCall(1))], [Begin(1), Write(1, DemoRequest(1)), Leave(1, [])];
    assert Admit(su, DemoCall(1)) == Admitted(map[]);
    var s0 := Next(su, init, Submit(1, DemoCall(1)));
    assert part0[1..] == [];
    DemoSecondCall(s0);
    RunAppend(su, init, part0, part1);
    var s1 := Run(su, init, part0 + part1);
    assert [Return(1, false)][1..] == [];
    RunAppend(su, init, part0 + part1, [Return(1, false)]);
    DemoReturn(su, s1);
  }
}
