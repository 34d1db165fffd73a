/** What a successful reply names (core.py `meta.event_id`, tools/_helpers.py `emit_event`).

    The event id in a reply is the first one the call's writes came to.  It names a committed row
    that answers the request whenever that row was not rolled back; the hint outlives a failed
    attempt, and a concrete schedule shows what then goes wrong.  `Retries` says exactly when. */
module Replies {
  import opened Outcomes
  import opened SemanticKeys
  import opened EventLog
  import opened UnitsOfWork
  import opened Dispatching
  import opened WriteProtocol

  ghost predicate Names(cfg: Config, db: Db, h: Hint) {
    0 < h.eventId <= |db.events| && Answers(cfg, db.events[h.eventId - 1], h.request)
  }

  function Visible(s: State, p: nat): Db {
    if At(s, p, InTxn) then s.store.working else s.store.committed
  }

  /** The hint of `p` names a row it can see unless that row was rolled back, and on a first
      attempt nothing is rolled back before the call is over. */
  ghost predicate HintOk(su: Setup, s: State, p: nat)
    requires p in s.procs
  {
    var pr := s.procs[p];
    pr.hint.Some? ==>
      && (!pr.hint.value.lost ==> Names(su.cfg, Visible(s, p), pr.hint.value))
      && (pr.hint.value.lost && !pr.dryRun ==>
            if pr.results == [] then pr.pc.Done? else pr.results[0] != Returned(Success))
  }

  ghost predicate HintInv(su: Setup, s: State) {
    LogInv(su, s) && ShapeInv(s) && forall p: nat :: p in s.procs ==> HintOk(su, s, p)
  }

  /** A call that did not move keeps its hint as long as what it sees only grows. */
  lemma UnmovedHintOk(su: Setup, s: State, s': State, q: nat)
    requires q in s.procs && q in s'.procs && s'.procs[q] == s.procs[q] && HintOk(su, s, q)
    requires Visible(s, q).events <= Visible(s', q).events
    ensures HintOk(su, s', q)
  {
  }

  lemma EndAttemptKeepsHints(su: Setup, s: State, p: nat, r: AttemptResult)
    requires HintInv(su, s) && At(s, p, Running)
    ensures HintInv(su, EndAttempt(s, p, r))
  {
    EndAttemptKeepsLog(su, s, p, r);
    EndAttemptKeepsShape(s, p, r);
    var s' := EndAttempt(s, p, r);
    forall q: nat | q in s'.procs ensures HintOk(su, s', q) {
      assert HintOk(su, s, q);
    }
  }

  /** Rolling back turns a hint for an uncommitted row into a lost one. */
  lemma AbandonHints(su: Setup, s: State, p: nat)
    requires HintInv(su, s) && Live(s, p)
    ensures var s' := Abandon(s, p);
            && LogInv(su, s') && ShapeInv(s') && At(s', p, Running)
            && (forall q: nat :: q in s'.procs && q != p ==> HintOk(su, s', q))
            && (s'.procs[p].hint.Some? && !s'.procs[p].hint.value.lost ==>
                  Names(su.cfg, s'.store.committed, s'.procs[p].hint.value))
            && s'.procs[p].results == s.procs[p].results && s'.procs[p].dryRun == s.procs[p].dryRun
  {
    AbandonKeepsLog(su, s, p);
    var s' := Abandon(s, p);
    assert HintOk(su, s, p);
    forall q: nat | q in s'.procs && q != p ensures HintOk(su, s', q) {
      assert HintOk(su, s, q);
    }
    if At(s, p, InTxn) && s'.procs[p].hint.Some? && !s'.procs[p].hint.value.lost {
      var k := s.procs[p].hint.value.eventId - 1;
      assert s.store.committed.events[k] == s.store.working.events[k];
    }
  }

  lemma FailKeepsHints(su: Setup, s: State, p: nat, r: AttemptResult)
    requires HintInv(su, s) && Live(s, p) && r != Returned(Success)
    ensures HintInv(su, FailAttempt(s, p, r))
  {
    assert HintOk(su, s, p);
    AbandonHints(su, s, p);
    FailKeepsLog(su, s, p, r);
    var s1 := Abandon(s, p);
    EndAttemptKeepsShape(s1, p, r);
    FirstResultNotSuccess(s, p);
    var s' := FailAttempt(s, p, r);
    forall q: nat | q in s'.procs && q != p ensures HintOk(su, s', q) {
      assert HintOk(su, s1, q);
    }
    assert HintOk(su, s', p);
  }

  lemma FirstResultNotSuccess(s: State, p: nat)
    requires ShapeInv(s) && Live(s, p)
    ensures s.procs[p].results != [] ==> s.procs[p].results[0] != Returned(Success)
  {
    assert ProcOk(s.procs[p]);
    if s.procs[p].results != [] {
      assert s.procs[p].results[0] in s.procs[p].results;
    }
  }

  lemma KillKeepsHints(su: Setup, s: State, p: nat)
    requires HintInv(su, s) && Live(s, p)
    ensures HintInv(su, KillStep(s, p))
  {
    assert HintOk(su, s, p);
    AbandonHints(su, s, p);
    KillKeepsLog(su, s, p);
    FirstResultNotSuccess(s, p);
    var s1 := Abandon(s, p);
    var s' := KillStep(s, p);
    forall q: nat | q in s'.procs && q != p ensures HintOk(su, s', q) {
      assert HintOk(su, s1, q);
    }
  }

  /** The event a write comes to is the one a fresh hint names. */
  lemma WriteNames(su: Setup, s: State, p: nat, req: WriteRequest)
    requires LogInv(su, s) && At(s, p, InTxn)
    ensures var (db, r) := WriteEvent(su.cfg, s.store.working, req);
            r.Ok? ==> s.store.working.events <= db.events && Names(su.cfg, db, Hint(r.value.record.id, req, false))
  {
    WriteOutcome(su.cfg, s.store.working, req);
  }

  lemma WrittenHintOk(su: Setup, s: State, p: nat, req: WriteRequest)
    requires HintInv(su, s) && At(s, p, InTxn)
    requires WriteEvent(su.cfg, s.store.working, req).1.Ok?
    ensures HintOk(su, WriteStep(su, s, p, req), p)
  {
    WriteNames(su, s, p, req);
    assert HintOk(su, s, p);
    var s' := WriteStep(su, s, p, req);
    assert Visible(s', p) == WriteEvent(su.cfg, s.store.working, req).0;
  }

  lemma WriteMovesNoOther(su: Setup, s: State, p: nat, req: WriteRequest, q: nat)
    requires HintInv(su, s) && At(s, p, InTxn) && q in s.procs && q != p
    requires WriteEvent(su.cfg, s.store.working, req).1.Ok?
    ensures HintOk(su, WriteStep(su, s, p, req), q)
  {
    assert HintOk(su, s, q) && !At(s, q, InTxn);
    UnmovedHintOk(su, s, WriteStep(su, s, p, req), q);
  }

  lemma WriteKeepsHints(su: Setup, s: State, p: nat, req: WriteRequest)
    requires HintInv(su, s) && At(s, p, InTxn)
    ensures HintInv(su, WriteStep(su, s, p, req))
  {
    var r := WriteEvent(su.cfg, s.store.working, req).1;
    if r.Err? {
      FailKeepsHints(su, s, p, ResultOf(r.error));
    } else {
      WriteStepKeepsLog(su, s, p, req);
      StepKeepsShape(su, s, Write(p, req));
      WrittenHintOk(su, s, p, req);
      forall q: nat | q in s.procs && q != p ensures HintOk(su, WriteStep(su, s, p, req), q) {
        WriteMovesNoOther(su, s, p, req, q);
      }
    }
  }

  lemma LeaveKeepsHints(su: Setup, s: State, p: nat, updaters: seq<Updater>)
    requires HintInv(su, s) && At(s, p, InTxn)
    ensures HintInv(su, LeaveStep(s, p, updaters))
  {
    LeaveStepKeepsLog(su, s, p, updaters);
    StepKeepsShape(su, s, Leave(p, updaters));
    var s' := LeaveStep(s, p, updaters);
    if ExitTxn(s.store, updaters, false, s.procs[p].dryRun, false).1 {
      FailKeepsHints(su, s, p, Uncaught);
    } else if s.procs[p].dryRun {
      AbandonHints(su, s, p);
    } else {
      forall q: nat | q in s'.procs ensures HintOk(su, s', q) {
        assert HintOk(su, s, q);
        if q != p && s.procs[q].hint.Some? && !s.procs[q].hint.value.lost {
          assert !At(s, q, InTxn);
        }
      }
    }
  }

  lemma BeginKeepsHints(su: Setup, s: State, p: nat)
    requires HintInv(su, s) && At(s, p, Running)
    ensures HintInv(su, BeginStep(s, p))
  {
    BeginKeepsLog(su, s, p);
    StepKeepsShape(su, s, Begin(p));
    var s' := BeginStep(s, p);
    if s.store.writer.Some? {
      FailKeepsHints(su, s, p, Returned(Failure(StorageError, Some(LOCK_REASON))));
    } else {
      forall q: nat | q in s'.procs ensures HintOk(su, s', q) {
        assert HintOk(su, s, q);
      }
    }
  }

  lemma SubmitKeepsHints(su: Setup, s: State, p: nat, call: Call)
    requires HintInv(su, s)
    ensures HintInv(su, SubmitStep(su, s, p, call))
  {
    SubmitKeepsLog(su, s, p, call);
    StepKeepsShape(su, s, Submit(p, call));
    forall q: nat | q in SubmitStep(su, s, p, call).procs ensures HintOk(su, SubmitStep(su, s, p, call), q) {
      if q in s.procs {
        SubmitMovesNone(su, s, p, call, q);
        UnmovedHintOk(su, s, SubmitStep(su, s, p, call), q);
      }
    }
  }

  lemma SubmitMovesNone(su: Setup, s: State, p: nat, call: Call, q: nat)
    requires HintInv(su, s) && q in s.procs
    ensures var s' := SubmitStep(su, s, p, call);
            && q in s'.procs && s'.procs[q] == s.procs[q] && HintOk(su, s, q)
            && Visible(s', q) == Visible(s, q)
  {
    var s' := SubmitStep(su, s, p, call);
    assert At(s', q, InTxn) == At(s, q, InTxn);
  }

  lemma SetExportKeepsHints(su: Setup, s: State, on: bool)
    requires HintInv(su, s)
    ensures HintInv(su, Next(su, s, SetExport(on)))
  {
    SetExportKeepsLog(su, s, on);
    StepKeepsShape(su, s, SetExport(on));
    var s' := Next(su, s, SetExport(on));
    forall q: nat | q in s'.procs ensures HintOk(su, s', q) {
      UnmovedHintOk(su, s, s', q);
    }
  }

  lemma AttemptStepKeepsHints(su: Setup, s: State, a: Action)
    requires HintInv(su, s) && (a.Begin? || a.Write? || a.Leave?)
    ensures HintInv(su, Next(su, s, a))
  {
    match a
    case Begin(p) => if At(s, p, Running) { BeginKeepsHints(su, s, p); }
    case Write(p, req) => if At(s, p, InTxn) { WriteKeepsHints(su, s, p, req); }
    case Leave(p, updaters) => if At(s, p, InTxn) { LeaveKeepsHints(su, s, p, updaters); }
    case _ =>
  }

  lemma FailStepKeepsHints(su: Setup, s: State, p: nat, how: AttemptResult)
    requires HintInv(su, s)
    ensures HintInv(su, Next(su, s, Fail(p, how)))
  {
    if Live(s, p) && how != Returned(Success) {
      FailKeepsHints(su, s, p, how);
    }
  }

  lemma ReturnStepKeepsHints(su: Setup, s: State, p: nat, isDict: bool)
    requires HintInv(su, s)
    ensures HintInv(su, Next(su, s, Return(p, isDict)))
  {
    if At(s, p, Running) {
      EndAttemptKeepsHints(su, s, p, Returned(if isDict then Success else Failure(InvariantViolation, None)));
    }
  }

  lemma KillStepKeepsHints(su: Setup, s: State, p: nat)
    requires HintInv(su, s)
    ensures HintInv(su, Next(su, s, Kill(p)))
  {
    if Live(s, p) {
      KillKeepsHints(su, s, p);
    }
  }

  lemma StepKeepsHints(su: Setup, s: State, a: Action)
    requires HintInv(su, s)
    ensures HintInv(su, Next(su, s, a))
  {
    if a.Submit? {
      SubmitKeepsHints(su, s, a.p, a.call);
    } else if a.SetExport? {
      SetExportKeepsHints(su, s, a.on);
    } else if a.Begin? || a.Write? || a.Leave? {
      AttemptStepKeepsHints(su, s, a);
    } else if a.Fail? {
      FailStepKeepsHints(su, s, a.p, a.how);
    } else if a.Return? {
      ReturnStepKeepsHints(su, s, a.p, a.isDict);
    } else {
      KillStepKeepsHints(su, s, a.p);
    }
  }

  lemma {:induction false} RunKeepsHints(su: Setup, s: State, actions: seq<Action>)
    requires HintInv(su, s)
    ensures HintInv(su, Run(su, s, actions))
    decreases |actions|
  {
    if actions != [] {
      StepKeepsHints(su, s, actions[0]);
      RunKeepsHints(su, Next(su, s, actions[0]), actions[1..]);
    }
  }

  /** In every schedule, a success that is not a dry run and names an event names a committed row
      that answers the request it was written for - provided the call succeeded at its first
      attempt, or its named row was not rolled back by the attempt that failed. */
  lemma SuccessNamesCommittedEvent(su: Setup, exportOn: bool, tables: map<string, Json>, actions: seq<Action>, p: nat)
    ensures var s := Run(su, Init(exportOn, tables), actions);
            p in s.procs ==>
            var pr := s.procs[p];
            pr.pc.Done? && pr.results != [] && pr.results[|pr.results| - 1] == Returned(Success)
            && !pr.dryRun && pr.hint.Some? && (|pr.results| == 1 || !pr.hint.value.lost) ==>
              Names(su.cfg, s.store.committed, pr.hint.value)
  {
    RunKeepsHints(su, Init(exportOn, tables), actions);
    var s := Run(su, Init(exportOn, tables), actions);
    if p in s.procs {
      assert HintOk(su, s, p);
    }
  }

  // ---- the stale hint ----

  function DemoSetup(): Setup {
    Setup(Config(map["t" := SemanticKeySpec({}, {}, map[])], a => true, k => Some(k)), map[], (t, c) => "")
  }

  function DemoCall(p: nat): Call {
    Call("tool", map[], if p == 0 then "cli:a" else "cli:b", if p == 0 then "r0" else "r1", true, false)
  }

  const NOBODY := Origin(None, None, None, None)

  function DemoRequest(p: nat): WriteRequest {
    WriteRequest("t", Subject("", ""), map[], DemoCall(p).actor, Some("k"), false, DemoCall(p).requestId, NOBODY, "")
  }

  function DemoRow(p: nat, id: nat): Event {
    Event(id, "t", Subject("", ""), map[], DemoCall(p).actor, Some("k"), "", DemoCall(p).requestId, NOBODY, false)
  }

  const DEMO_LOCKED := Returned(Failure(StorageError, Some(LOCK_REASON)))

  lemma DemoWrite(db: Db, p: nat)
    requires !db.exportEnabled
    requires Find(db.events, "t", DemoCall(p).actor, "k") == |db.events|
    ensures WriteEvent(DemoSetup().cfg, db, DemoRequest(p))
         == (db.(events := db.events + [DemoRow(p, |db.events| + 1)]), Ok(Written(DemoRow(p, |db.events| + 1), false)))
  {
  }

  lemma DemoAdmission()
    ensures var s := Run(DemoSetup(), Init(false, map[]), [Submit(0, DemoCall(0)), Submit(1, DemoCall(1))]);
            && s.store == Init(false, map[]).store && s.owners == []
            && s.procs == map[0 := Proc(DemoCall(0), false, None, Running, [], None, 0),
                              1 := Proc(DemoCall(1), false, None, Running, [], None, 0)]
  {
    var su := DemoSetup();
    assert forall p: nat :: Admit(su, DemoCall(p)) == Admitted(map[]);
    var s1 := Next(su, Init(false, map[]), Submit(0, DemoCall(0)));
    var s2 := Next(su, s1, Submit(1, DemoCall(1)));
    assert Run(su, s1, [Submit(1, DemoCall(1))]) == s2;
  }

  /** The first call writes event 1 and is rolled back by a lock error. */
  lemma DemoFirstAttempt(s: State)
    requires s.store == Init(false, map[]).store && s.owners == []
    requires At(s, 0, Running) && s.procs[0] == Proc(DemoCall(0), false, None, Running, [], None, 0)
    ensures var s' := Run(DemoSetup(), s, [Begin(0), Write(0, DemoRequest(0)), Fail(0, DEMO_LOCKED)]);
            && s'.store == s.store && s'.owners == []
            && 0 in s'.procs
            && s'.procs[0] == Proc(DemoCall(0), false, None, Running, [DEMO_LOCKED], Some(Hint(1, DemoRequest(0), true)), 0)
            && (1 in s.procs ==> 1 in s'.procs && s'.procs[1] == s.procs[1])
  {
    var su := DemoSetup();
    var s3 := Next(su, s, Begin(0));
    DemoWrite(s3.store.working, 0);
    var s4 := Next(su, s3, Write(0, DemoRequest(0)));
    assert s4.procs[0].hint == Some(Hint(1, DemoRequest(0), false));
    var s5 := Next(su, s4, Fail(0, DEMO_LOCKED));
    assert Run(su, s4, [Fail(0, DEMO_LOCKED)]) == s5;
    assert Run(su, s3, [Write(0, DemoRequest(0)), Fail(0, DEMO_LOCKED)]) == s5;
  }

  /** The second call then commits its own event 1. */
  lemma DemoSecondCall(s: State)
    requires s.store == Init(false, map[]).store && s.owners == []
    requires At(s, 1, Running) && s.procs[1] == Proc(DemoCall(1), false, None, Running, [], None, 0)
    ensures var s' := Run(DemoSetup(), s, [Begin(1), Write(1, DemoRequest(1)), Leave(1, [])]);
            && s'.store.committed == Db([DemoRow(1, 1)], [], false, map[]) && s'.store.writer == None
            && s'.owners == [1]
            && At(s', 1, Running) && s'.procs[1].results == []
            && (0 in s.procs ==> 0 in s'.procs && s'.procs[0] == s.procs[0])
  {
    var su := DemoSetup();
    var s1 := Next(su, s, Begin(1));
    DemoWrite(s1.store.working, 1);
    var s2 := Next(su, s1, Write(1, DemoRequest(1)));
    var s3 := Next(su, s2, Leave(1, []));
    assert Run(su, s2, [Leave(1, [])]) == s3;
    assert Run(su, s1, [Write(1, DemoRequest(1)), Leave(1, [])]) == s3;
  }

  /** The retry commits event 2 and still answers with event 1. */
  lemma DemoRetry(s: State)
    requires s.store.committed == Db([DemoRow(1, 1)], [], false, map[]) && s.store.writer == None && s.owners == [1]
    requires At(s, 0, Running)
    requires s.procs[0] == Proc(DemoCall(0), false, None, Running, [DEMO_LOCKED], Some(Hint(1, DemoRequest(0), true)), 0)
    ensures var s' := Run(DemoSetup(), s, [Begin(0), Write(0, DemoRequest(0)), Leave(0, []), Return(0, true)]);
            && s'.store.committed.events == [DemoRow(1, 1), DemoRow(0, 2)] && s'.owners == [1, 0]
            && 0 in s'.procs && s'.procs[0].pc == Done && s'.procs[0].results == [DEMO_LOCKED, Returned(Success)]
            && s'.procs[0].hint == s.procs[0].hint && !s'.procs[0].dryRun
  {
    var su := DemoSetup();
    var s1 := Next(su, s, Begin(0));
    DemoWrite(s1.store.working, 0);
    var s2 := Next(su, s1, Write(0, DemoRequest(0)));
    var s3 := Next(su, s2, Leave(0, []));
    var s4 := Next(su, s3, Return(0, true));
    assert Run(su, s3, [Return(0, true)]) == s4;
    assert Run(su, s2, [Leave(0, []), Return(0, true)]) == s4;
    assert Run(su, s1, [Write(0, DemoRequest(0)), Leave(0, []), Return(0, true)]) == s4;
  }

  /** A lock error after a write rolls the row back but keeps the hint; another call then takes
      the id, and the retried call's success names the other call's event. */
  lemma StaleHintNamesAnotherCallsEvent() returns (actions: seq<Action>)
    ensures var s := Run(DemoSetup(), Init(false, map[]), actions);
            && 0 in s.procs && s.procs[0].pc == Done && !s.procs[0].dryRun
            && s.procs[0].results == [DEMO_LOCKED, Returned(Success)]
            && s.procs[0].hint.Some? && s.procs[0].hint.value.lost
            && s.owners == [1, 0]
            && !Names(DemoSetup().cfg, s.store.committed, s.procs[0].hint.value)
  {
    var su := DemoSetup();
    var s0 := Init(false, map[]);
    var part0 := [Submit(0, DemoCall(0)), Submit(1, DemoCall(1))];
    var part1 := [Begin(0), Write(0, DemoRequest(0)), Fail(0, DEMO_LOCKED)];
    var part2 := [Begin(1), Write(1, DemoRequest(1)), Leave(1, [])];
    var part3 := [Begin(0), Write(0, DemoRequest(0)), Leave(0, []), Return(0, true)];
    DemoAdmission();
    DemoFirstAttempt(Run(su, s0, part0));
    RunAppend(su, s0, part0, part1);
    DemoSecondCall(Run(su, s0, part0 + part1));
    RunAppend(su, s0, part0 + part1, part2);
    DemoRetry(Run(su, s0, part0 + part1 + part2));
    RunAppend(su, s0, part0 + part1 + part2, part3);
    actions := part0 + part1 + part2 + part3;
  }
}
