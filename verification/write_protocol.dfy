/** The write protocol as a step system (core.py, events/unit_of_work.py, events/log.py). */
module WriteProtocol {
  // Any number of dispatched calls share one journal.  A step is one atomic action of one call:
  // being admitted, taking the writer lock or failing to, one event write, an exception, leaving
  // the unit of work, returning, or being killed.  Handlers are arbitrary: they may open several
  // units of work, write any events and fail anywhere - a COMMIT that raises is such a failure.
  // `Run` executes any schedule; a step that is not enabled changes nothing.

  import opened Outcomes
  import opened SemanticKeys
  import opened EventLog
  import opened UnitsOfWork
  import opened Dispatching

  datatype Pc = Running | InTxn | Done

  /** The `event_id` hint: the first event the call wrote or replayed.  `setdefault` keeps it
      across attempts; `lost` records that the row it names has been rolled back. */
  datatype Hint = Hint(eventId: nat, request: WriteRequest, lost: bool)

  datatype Proc = Proc(
    call: Call, dryRun: bool, refused: Option<Envelope>, pc: Pc,
    results: seq<AttemptResult>, hint: Option<Hint>, commits: nat)

  /** `owners` is history kept by the model: the call whose commit appended each row. */
  datatype State = State(store: Store, owners: seq<nat>, procs: map<nat, Proc>, trace: seq<Record>)

  datatype Action =
    | Submit(p: nat, call: Call)
    | Begin(p: nat)
    | Write(p: nat, req: WriteRequest)
    | Fail(p: nat, how: AttemptResult)
    | Leave(p: nat, updaters: seq<Updater>)
    | Return(p: nat, isDict: bool)
    | Kill(p: nat)
    | SetExport(on: bool)

  function Init(exportOn: bool, tables: map<string, Json>): State {
    var db := Db([], [], exportOn, tables);
    State(Store(db, None, db), [], map[], [])
  }

  // ---- one step ----

  function Emitted(pr: Proc): seq<Record> {
    CallTrace(pr.call, pr.refused, pr.results)
  }

  /** An attempt is over: a first lock failure is retried, anything else ends the call. */
  function EndAttempt(s: State, p: nat, r: AttemptResult): State
    requires p in s.procs
  {
    var pr := s.procs[p];
    var results := pr.results + [r];
    var again := HitLock(r) && |results| <= MAX_RETRIES;
    s.(procs := s.procs[p := pr.(results := results, pc := if again then Running else Done)],
       trace := s.trace + AttemptRecord(pr.call, results, |results| - 1))
  }

  function LoseHint(hint: Option<Hint>, committed: Db): Option<Hint> {
    match hint
    case None => None
    case Some(h) => Some(h.(lost := h.lost || h.eventId > |committed.events|))
  }

  /** The open transaction of `p`, if any, is rolled back. */
  function Abandon(s: State, p: nat): State
    requires p in s.procs
  {
    var pr := s.procs[p];
    if !pr.pc.InTxn? then s
    else s.(store := RollbackTxn(s.store),
            procs := s.procs[p := pr.(pc := Running, hint := LoseHint(pr.hint, s.store.committed))])
  }

  function FailAttempt(s: State, p: nat, r: AttemptResult): State
    requires p in s.procs
  {
    EndAttempt(Abandon(s, p), p, r)
  }

  /** How `dispatch` reports what `EventWriter.write` raises. */
  function ResultOf(e: WriteError): AttemptResult {
    match e
    case Conflict(_) => Returned(Failure(IdempotencyConflict, None))
    case BadActor => Returned(Failure(ValidationError, None))
    case BadKey => Returned(Failure(ValidationError, None))
    case _ => Uncaught
  }

  function SubmitStep(su: Setup, s: State, p: nat, call: Call): State {
    if p in s.procs || call.requestId == "" then s
    else
      match Admit(su, call)
      case Admitted(args) => s.(procs := s.procs[p := Proc(call, IsTrue(args, "_dry_run"), None, Running, [], None, 0)])
      case Refused(env) =>
        s.(procs := s.procs[p := Proc(call, false, Some(env), Done, [], None, 0)],
           trace := s.trace + [RecordOf(call, env, None, None)])
      case Escapes => s.(procs := s.procs[p := Proc(call, false, None, Done, [], None, 0)])
  }

  function BeginStep(s: State, p: nat): State
    requires p in s.procs
  {
    var (store, ok) := BeginTxn(s.store, p);
    if ok then s.(store := store, procs := s.procs[p := s.procs[p].(pc := InTxn)])
    else FailAttempt(s, p, Returned(Failure(StorageError, Some(LOCK_REASON))))
  }

  function WriteStep(su: Setup, s: State, p: nat, req: WriteRequest): State
    requires p in s.procs
  {
    var (db, r) := WriteEvent(su.cfg, s.store.working, req);
    match r
    case Err(e) => FailAttempt(s, p, ResultOf(e))
    case Ok(written) =>
      var pr := s.procs[p];
      var hint := if pr.hint.Some? then pr.hint else Some(Hint(written.record.id, req, false));
      s.(store := s.store.(working := db), procs := s.procs[p := pr.(hint := hint)])
  }

  function LeaveStep(s: State, p: nat, updaters: seq<Updater>): State
    requires p in s.procs
  {
    var pr := s.procs[p];
    var (store, raised) := ExitTxn(s.store, updaters, false, pr.dryRun, false);
    if raised then FailAttempt(s, p, Uncaught)
    else if pr.dryRun then Abandon(s, p)
    else
      var added := |store.committed.events| - |s.store.committed.events|;
      s.(store := store,
         owners := s.owners + (if added > 0 then seq(added, _ => p) else []),
         procs := s.procs[p := pr.(pc := Running, commits := pr.commits + 1)])
  }

  function KillStep(s: State, p: nat): State
    requires p in s.procs
  {
    var s' := Abandon(s, p);
    s'.(procs := s'.procs[p := s'.procs[p].(pc := Done)])
  }

  predicate At(s: State, p: nat, pc: Pc) {
    p in s.procs && s.procs[p].pc == pc
  }

  predicate Live(s: State, p: nat) {
    p in s.procs && !s.procs[p].pc.Done?
  }

  function Next(su: Setup, s: State, a: Action): State {
    match a
    case Submit(p, call) => SubmitStep(su, s, p, call)
    case Begin(p) => if At(s, p, Running) then BeginStep(s, p) else s
    case Write(p, req) => if At(s, p, InTxn) then WriteStep(su, s, p, req) else s
    case Fail(p, how) => if Live(s, p) && how != Returned(Success) then FailAttempt(s, p, how) else s
    case Leave(p, updaters) => if At(s, p, InTxn) then LeaveStep(s, p, updaters) else s
    case Return(p, isDict) =>
      if At(s, p, Running)
      then EndAttempt(s, p, Returned(if isDict then Success else Failure(InvariantViolation, None))) else s
    case Kill(p) => if Live(s, p) then KillStep(s, p) else s
    case SetExport(on) =>
      if s.store.writer.Some? then s
      else s.(store := s.store.(committed := s.store.committed.(exportEnabled := on)))
  }

  function Run(su: Setup, s: State, actions: seq<Action>): State
    decreases |actions|
  {
    if actions == [] then s else Run(su, Next(su, s, actions[0]), actions[1..])
  }

  // ---- the log invariant ----

  /** Only the lock holder is inside a transaction, and it sees the committed log plus its own
      rows; every committed row belongs to a call that committed it and was not a dry run. */
  ghost predicate LogInv(su: Setup, s: State) {
    && WellFormed(su.cfg, s.store.committed)
    && (s.store.writer.Some? ==>
          && At(s, s.store.writer.value, InTxn)
          && WellFormed(su.cfg, s.store.working)
          && s.store.committed.events <= s.store.working.events)
    && (forall p: nat :: At(s, p, InTxn) ==> s.store.writer == Some(p))
    && |s.owners| == |s.store.committed.events|
    && (forall i :: 0 <= i < |s.owners| ==>
          s.owners[i] in s.procs && !s.procs[s.owners[i]].dryRun && s.procs[s.owners[i]].commits > 0)
  }

  // ---- what every schedule keeps ----

  /** Every schedule, from an empty journal: one writer at a time, a log that only grows, unique
      keys, one outbox row for exactly the events written while export was on, and no row owed
      to a dry run or to a call that never committed. */
  lemma Safety(su: Setup, exportOn: bool, tables: map<string, Json>, actions: seq<Action>, more: seq<Action>)
    ensures var s := Run(su, Init(exportOn, tables), actions);
            && (forall p: nat, q: nat :: At(s, p, InTxn) && At(s, q, InTxn) ==> p == q)
            && UniqueKeys(s.store.committed.events)
            && OutboxIds(s.store.committed.outbox) == QueuedIds(s.store.committed.events)
            && s.store.committed.events <= Run(su, Init(exportOn, tables), actions + more).store.committed.events
            && |s.owners| == |s.store.committed.events|
            && (forall i :: 0 <= i < |s.owners| ==>
                  s.owners[i] in s.procs && !s.procs[s.owners[i]].dryRun && s.procs[s.owners[i]].commits > 0)
  {
    RunKeepsLog(su, Init(exportOn, tables), actions);
    RunAppend(su, Init(exportOn, tables), actions, more);
    RunKeepsLog(su, Run(su, Init(exportOn, tables), actions), more);
  }

  /** The log changes only when a call that is not a dry run leaves its unit of work normally:
      no failure, kill, dry run or refused write touches it. */
  lemma OnlyCommitsChangeTheLog(su: Setup, s: State, a: Action)
    requires LogInv(su, s)
    ensures Next(su, s, a).store.committed.events != s.store.committed.events ==>
              && a.Leave? && At(s, a.p, InTxn) && !s.procs[a.p].dryRun
              && RunUpdaters(s.store.working.tables, a.updaters).Some?
              && Next(su, s, a).store.committed.events == s.store.working.events
              && Next(su, s, a).procs[a.p].commits == s.procs[a.p].commits + 1
  {
  }

  // ---- step by step ----

  lemma EndAttemptKeepsLog(su: Setup, s: State, p: nat, r: AttemptResult)
    requires LogInv(su, s) && At(s, p, Running)
    ensures LogInv(su, EndAttempt(s, p, r))
  {
    var s' := EndAttempt(s, p, r);
    assert forall q: nat :: At(s', q, InTxn) ==> At(s, q, InTxn);
  }

  lemma AbandonKeepsLog(su: Setup, s: State, p: nat)
    requires LogInv(su, s) && Live(s, p)
    ensures LogInv(su, Abandon(s, p)) && At(Abandon(s, p), p, Running)
    ensures Abandon(s, p).store.committed == s.store.committed && Abandon(s, p).owners == s.owners
  {
    var s' := Abandon(s, p);
    assert At(s, p, InTxn) <==> s.procs[p].pc.InTxn?;
    assert forall q: nat :: At(s', q, InTxn) ==> At(s, q, InTxn) && q != p;
  }

  lemma SubmitKeepsLog(su: Setup, s: State, p: nat, call: Call)
    requires LogInv(su, s)
    ensures LogInv(su, SubmitStep(su, s, p, call))
  {
    var s' := SubmitStep(su, s, p, call);
    assert forall q: nat :: At(s', q, InTxn) ==> At(s, q, InTxn);
  }

  lemma BeginKeepsLog(su: Setup, s: State, p: nat)
    requires LogInv(su, s) && At(s, p, Running)
    ensures LogInv(su, BeginStep(s, p))
  {
    var s' := BeginStep(s, p);
    if s.store.writer.Some? {
      EndAttemptKeepsLog(su, s, p, Returned(Failure(StorageError, Some(LOCK_REASON))));
    } else {
      assert forall q: nat :: At(s', q, InTxn) ==> q == p || At(s, q, InTxn);
    }
  }

  lemma FailKeepsLog(su: Setup, s: State, p: nat, r: AttemptResult)
    requires LogInv(su, s) && Live(s, p)
    ensures LogInv(su, FailAttempt(s, p, r))
  {
    AbandonKeepsLog(su, s, p);
    EndAttemptKeepsLog(su, Abandon(s, p), p, r);
  }

  lemma KillKeepsLog(su: Setup, s: State, p: nat)
    requires LogInv(su, s) && Live(s, p)
    ensures LogInv(su, KillStep(s, p))
  {
    AbandonKeepsLog(su, s, p);
    assert forall q: nat :: At(KillStep(s, p), q, InTxn) ==> At(Abandon(s, p), q, InTxn);
  }

  lemma SetExportKeepsLog(su: Setup, s: State, on: bool)
    requires LogInv(su, s)
    ensures LogInv(su, Next(su, s, SetExport(on)))
  {
    var s' := Next(su, s, SetExport(on));
    assert forall q: nat :: At(s', q, InTxn) ==> At(s, q, InTxn);
  }

  /** The log invariant holds after the step, and the log has only grown. */
  ghost predicate LogKept(su: Setup, s: State, s': State) {
    LogInv(su, s') && s.store.committed.events <= s'.store.committed.events
  }

  lemma AttemptStepKeepsLog(su: Setup, s: State, a: Action)
    requires LogInv(su, s) && (a.Begin? || a.Write? || a.Leave?)
    ensures LogKept(su, s, Next(su, s, a))
  {
    match a
    case Begin(p) => if At(s, p, Running) { BeginKeepsLog(su, s, p); }
    case Write(p, req) => if At(s, p, InTxn) { WriteStepKeepsLog(su, s, p, req); }
    case Leave(p, updaters) => if At(s, p, InTxn) { LeaveStepKeepsLog(su, s, p, updaters); }
    case _ =>
  }

  lemma FailStepKeepsLog(su: Setup, s: State, p: nat, how: AttemptResult)
    requires LogInv(su, s)
    ensures LogKept(su, s, Next(su, s, Fail(p, how)))
  {
    if Live(s, p) && how != Returned(Success) {
      FailKeepsLog(su, s, p, how);
      AbandonKeepsLog(su, s, p);
    }
  }

  lemma ReturnStepKeepsLog(su: Setup, s: State, p: nat, isDict: bool)
    requires LogInv(su, s)
    ensures LogKept(su, s, Next(su, s, Return(p, isDict)))
  {
    if At(s, p, Running) {
      EndAttemptKeepsLog(su, s, p, Returned(if isDict then Success else Failure(InvariantViolation, None)));
    }
  }

  lemma KillStepKeepsLog(su: Setup, s: State, p: nat)
    requires LogInv(su, s)
    ensures LogKept(su, s, Next(su, s, Kill(p)))
  {
    if Live(s, p) {
      KillKeepsLog(su, s, p);
      AbandonKeepsLog(su, s, p);
    }
  }

  lemma StepKeepsLog(su: Setup, s: State, a: Action)
    requires LogInv(su, s)
    ensures LogKept(su, s, Next(su, s, a))
  {
    if a.Submit? {
      SubmitKeepsLog(su, s, a.p, a.call);
    } else if a.SetExport? {
      SetExportKeepsLog(su, s, a.on);
    } else if a.Begin? || a.Write? || a.Leave? {
      AttemptStepKeepsLog(su, s, a);
    } else if a.Fail? {
      FailStepKeepsLog(su, s, a.p, a.how);
    } else if a.Return? {
      ReturnStepKeepsLog(su, s, a.p, a.isDict);
    } else {
      KillStepKeepsLog(su, s, a.p);
    }
  }

  lemma WriteStepKeepsLog(su: Setup, s: State, p: nat, req: WriteRequest)
    requires LogInv(su, s) && At(s, p, InTxn)
    ensures LogInv(su, WriteStep(su, s, p, req))
    ensures WriteStep(su, s, p, req).store.committed == s.store.committed
  {
    var s' := WriteStep(su, s, p, req);
    var (db, r) := WriteEvent(su.cfg, s.store.working, req);
    if r.Err? {
      FailKeepsLog(su, s, p, ResultOf(r.error));
    } else {
      WriteKeepsWellFormed(su.cfg, s.store.working, req);
      WriteOutcome(su.cfg, s.store.working, req);
      assert forall q: nat :: At(s', q, InTxn) <==> At(s, q, InTxn);
    }
  }

  lemma LeaveStepKeepsLog(su: Setup, s: State, p: nat, updaters: seq<Updater>)
    requires LogInv(su, s) && At(s, p, InTxn)
    ensures LogInv(su, LeaveStep(s, p, updaters))
    ensures s.store.committed.events <= LeaveStep(s, p, updaters).store.committed.events
  {
    var s' := LeaveStep(s, p, updaters);
    FailKeepsLog(su, s, p, Uncaught);
    AbandonKeepsLog(su, s, p);
    if ExitTxn(s.store, updaters, false, s.procs[p].dryRun, false).1 {
    } else if !s.procs[p].dryRun {
      assert s'.store.committed.events == s.store.working.events;
      assert WellFormed(su.cfg, s'.store.committed);
      assert forall q: nat :: At(s', q, InTxn) ==> At(s, q, InTxn) && q != p;
    }
  }

  lemma {:induction false} RunKeepsLog(su: Setup, s: State, actions: seq<Action>)
    requires LogInv(su, s)
    ensures LogInv(su, Run(su, s, actions))
    ensures s.store.committed.events <= Run(su, s, actions).store.committed.events
    decreases |actions|
  {
    if actions != [] {
      StepKeepsLog(su, s, actions[0]);
      RunKeepsLog(su, Next(su, s, actions[0]), actions[1..]);
    }
  }

  lemma {:induction false} RunAppend(su: Setup, s: State, a: seq<Action>, b: seq<Action>)
    ensures Run(su, s, a + b) == Run(su, Run(su, s, a), b)
    decreases |a|
  {
    if a == [] {
      assert a + b == b;
    } else {
      assert (a + b)[1..] == a[1..] + b;
      RunAppend(su, Next(su, s, a[0]), a[1..], b);
    }
  }

  lemma LastStep(su: Setup, init: State, actions: seq<Action>)
    requires actions != []
    ensures Run(su, init, actions) == Next(su, Run(su, init, actions[..|actions| - 1]), actions[|actions| - 1])
  {
    var before, last := actions[..|actions| - 1], [actions[|actions| - 1]];
    assert before + last == actions && last[1..] == [];
    RunAppend(su, init, before, last);
  }

  // ---- how a call goes on ----

  /** The writer lock is taken only when it is free; then the call sees the committed tables. */
  lemma BeginTakesFreeLock(su: Setup, s: State, p: nat)
    requires At(s, p, Running) && s.store.writer == None
    ensures var s' := Next(su, s, Begin(p));
            && At(s', p, InTxn) && s'.store.writer == Some(p) && s'.store.working == s.store.committed
            && s'.store.committed == s.store.committed && s'.trace == s.trace && s'.procs[p].results == s.procs[p].results
  {
  }

  /** Held by another call, it fails the attempt as a lock failure: the first time the call goes on
      to its second attempt, the second time it ends. */
  lemma BeginAgainstLock(su: Setup, s: State, p: nat)
    requires At(s, p, Running) && s.store.writer.Some?
    ensures var s', locked := Next(su, s, Begin(p)), Returned(Failure(StorageError, Some("single_writer_lock")));
            && s'.store == s.store && p in s'.procs && s'.procs[p].results == s.procs[p].results + [locked]
            && s'.procs[p].pc == (if s.procs[p].results == [] then Running else Done)
            && |s'.trace| == |s.trace| + 1 && s'.trace[|s.trace|].attempt == Some(|s.procs[p].results| + 1)
  {
  }

  /** A refused write ends the call: as a conflict, as a validation error for a malformed actor or
      key, and uncaught otherwise; nothing it wrote stays. */
  lemma RefusedWriteEndsCall(su: Setup, s: State, p: nat, req: WriteRequest)
    requires At(s, p, InTxn) && WriteEvent(su.cfg, s.store.working, req).1.Err?
    ensures var s', error := Next(su, s, Write(p, req)), WriteEvent(su.cfg, s.store.working, req).1.error;
            && At(s', p, Done) && s'.store.committed == s.store.committed && s'.store.writer == None
            && s'.procs[p].results == s.procs[p].results + [
                 if error.Conflict? then Returned(Failure(IdempotencyConflict, None))
                 else if error == BadActor || error == BadKey then Returned(Failure(ValidationError, None)) else Uncaught]
  {
  }

  /** A handler that returns ends the call in success exactly when it returns a dict. */
  lemma ReturnEndsCall(su: Setup, s: State, p: nat, isDict: bool)
    requires At(s, p, Running)
    ensures var s' := Next(su, s, Return(p, isDict));
            && At(s', p, Done) && s'.store == s.store
            && s'.procs[p].results == s.procs[p].results + [if isDict then Returned(Success) else Returned(Failure(InvariantViolation, None))]
  {
  }

  // ---- conflicts ----

  /** A write under a key that a stored row already has, with a payload that is not equivalent,
      ends the call as a conflict and leaves the log as it was. */
  lemma ConflictEndsCall(su: Setup, s: State, p: nat, req: WriteRequest, row: Event)
    requires LogInv(su, s) && At(s, p, InTxn) && row in s.store.working.events
    requires Acceptable(su.cfg, req) && req.key.Some? && Canonicalize(su.cfg.specs, req.eventType, req.payload).Ok?
    requires row.eventType == req.eventType && row.actor == req.actor && row.key == su.cfg.cleanKey(req.key.value)
    requires !Equivalent(su.cfg.specs, req.eventType, row.payload, req.payload)
    ensures var s' := Next(su, s, Write(p, req));
            && At(s', p, Done) && s'.procs[p].results == s.procs[p].results + [Returned(Failure(IdempotencyConflict, None))]
            && s'.store.committed == s.store.committed && s'.store.writer == None
  {
    FoundIsTheRow(su.cfg, s.store.working, req, row);
  }

  lemma FoundIsTheRow(cfg: Config, db: Db, req: WriteRequest, row: Event)
    requires WellFormed(cfg, db) && row in db.events
    requires Acceptable(cfg, req) && req.key.Some? && Canonicalize(cfg.specs, req.eventType, req.payload).Ok?
    requires row.eventType == req.eventType && row.actor == req.actor && row.key == cfg.cleanKey(req.key.value)
    requires !Equivalent(cfg.specs, req.eventType, row.payload, req.payload)
    ensures WriteEvent(cfg, db, req) == (db, Err(Conflict(row.id)))
  {
    var i := Find(db.events, req.eventType, req.actor, row.key.value);
    var at :| 0 <= at < |db.events| && db.events[at] == row;
    assert HasKey(db.events[at], req.eventType, req.actor, row.key.value);
    SameKeySameRow(db.events, i, at);
  }

  lemma SameKeySameRow(events: seq<Event>, i: nat, j: nat)
    requires UniqueKeys(events) && i < |events| && j < |events| && events[i].key.Some?
    requires HasKey(events[j], events[i].eventType, events[i].actor, events[i].key.value)
    ensures i >= j
  {
  }

  // ---- dry runs ----

  /** A call is a dry run exactly when it was admitted and asks for one; a call that was not
      admitted never gets anywhere. */
  ghost predicate CallOk(su: Setup, pr: Proc) {
    && (pr.dryRun <==> Admit(su, pr.call).Admitted? && "_dry_run" in pr.call.args && pr.call.args["_dry_run"] == Bool(true))
    && (Admit(su, pr.call).Admitted? || (pr.pc.Done? && pr.commits == 0))
  }

  ghost predicate CallsInv(su: Setup, s: State) {
    forall p: nat :: p in s.procs ==> CallOk(su, s.procs[p])
  }

  lemma SubmitKeepsCalls(su: Setup, s: State, p: nat, call: Call)
    requires CallsInv(su, s)
    ensures CallsInv(su, SubmitStep(su, s, p, call))
  {
    AdmissionIs(su, call);
  }

  /** A step changes neither what a call is nor whether it is a dry run. */
  lemma StepKeepsCall(su: Setup, s: State, a: Action, p: nat)
    requires p in s.procs && !a.Submit?
    ensures var s' := Next(su, s, a);
            && s'.procs.Keys == s.procs.Keys
            && s'.procs[p].call == s.procs[p].call && s'.procs[p].dryRun == s.procs[p].dryRun
            && (s.procs[p].pc.Done? ==> s'.procs[p] == s.procs[p])
  {
  }

  lemma StepKeepsCalls(su: Setup, s: State, a: Action)
    requires CallsInv(su, s)
    ensures CallsInv(su, Next(su, s, a))
  {
    if a.Submit? {
      SubmitKeepsCalls(su, s, a.p, a.call);
    } else {
      forall p: nat | p in Next(su, s, a).procs ensures CallOk(su, Next(su, s, a).procs[p]) {
        NoNewCalls(su, s, a);
        StepKeepsCall(su, s, a, p);
        assert CallOk(su, s.procs[p]);
      }
    }
  }

  lemma NoNewCalls(su: Setup, s: State, a: Action)
    requires !a.Submit?
    ensures Next(su, s, a).procs.Keys == s.procs.Keys
  {
  }

  lemma {:induction false} RunKeepsCalls(su: Setup, s: State, actions: seq<Action>)
    requires CallsInv(su, s)
    ensures CallsInv(su, Run(su, s, actions))
    decreases |actions|
  {
    if actions != [] {
      StepKeepsCalls(su, s, actions[0]);
      RunKeepsCalls(su, Next(su, s, actions[0]), actions[1..]);
    }
  }

  /** In every schedule, no row in the log is owed to a call that asked for a dry run. */
  lemma DryRunsOwnNothing(su: Setup, exportOn: bool, tables: map<string, Json>, actions: seq<Action>)
    ensures var s := Run(su, Init(exportOn, tables), actions);
            forall i :: 0 <= i < |s.owners| ==>
              s.owners[i] in s.procs
              && var args := s.procs[s.owners[i]].call.args;
                 !("_dry_run" in args && args["_dry_run"] == Bool(true))
  {
    RunKeepsLog(su, Init(exportOn, tables), actions);
    RunKeepsCalls(su, Init(exportOn, tables), actions);
    var s := Run(su, Init(exportOn, tables), actions);
    forall i | 0 <= i < |s.owners| ensures !s.procs[s.owners[i]].dryRun && CallOk(su, s.procs[s.owners[i]]) {
    }
  }

  // ---- the shape of a call's results ----

  /** A second attempt exists only after a lock failure, and a call that is still going has had
      no other result. */
  ghost predicate ProcOk(pr: Proc) {
    && pr.call.requestId != ""
    && RetryShape(pr.results)
    && (pr.refused.Some? ==> pr.results == [] && pr.pc.Done?
                             && pr.refused.value.Failure? && pr.refused.value.code != StorageError)
    && (!pr.pc.Done? ==> |pr.results| <= 1 && forall r :: r in pr.results ==> HitLock(r))
  }

  ghost predicate ShapeInv(s: State) {
    forall p: nat :: p in s.procs ==> ProcOk(s.procs[p])
  }

  lemma EndAttemptKeepsShape(s: State, p: nat, r: AttemptResult)
    requires ShapeInv(s) && Live(s, p)
    ensures ShapeInv(EndAttempt(s, p, r))
  {
    var s' := EndAttempt(s, p, r);
    assert ProcOk(s.procs[p]);
    var results := s'.procs[p].results;
    if |results| == 2 {
      assert results[0] in s.procs[p].results;
    }
  }

  lemma FailAttemptKeepsShape(s: State, p: nat, r: AttemptResult)
    requires ShapeInv(s) && Live(s, p)
    ensures ShapeInv(FailAttempt(s, p, r))
  {
    EndAttemptKeepsShape(Abandon(s, p), p, r);
  }

  lemma UnitStepKeepsShape(su: Setup, s: State, a: Action)
    requires ShapeInv(s) && (a.Begin? || a.Write? || a.Leave?)
    ensures ShapeInv(Next(su, s, a))
  {
    match a
    case Begin(p) =>
      if At(s, p, Running) { FailAttemptKeepsShape(s, p, Returned(Failure(StorageError, Some(LOCK_REASON)))); }
    case Write(p, req) =>
      if At(s, p, InTxn) {
        var r := WriteEvent(su.cfg, s.store.working, req).1;
        if r.Err? { FailAttemptKeepsShape(s, p, ResultOf(r.error)); }
      }
    case Leave(p, updaters) => if At(s, p, InTxn) { FailAttemptKeepsShape(s, p, Uncaught); }
    case _ =>
  }

  lemma StepKeepsShape(su: Setup, s: State, a: Action)
    requires ShapeInv(s)
    ensures ShapeInv(Next(su, s, a))
  {
    if a.Begin? || a.Write? || a.Leave? {
      UnitStepKeepsShape(su, s, a);
    } else if a.Fail? && Live(s, a.p) {
      FailAttemptKeepsShape(s, a.p, a.how);
    } else if a.Return? && At(s, a.p, Running) {
      EndAttemptKeepsShape(s, a.p, Returned(if a.isDict then Success else Failure(InvariantViolation, None)));
    }
  }
}
