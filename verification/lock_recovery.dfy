/** The lock-recovery check over a dispatch trace
    (tools/tracelab/substrate_invariants.py, `check_lock_recovery`), proved against the
    dispatcher that produces the trace. */
module LockRecovery {
  import opened Outcomes
  import opened Orders
  import opened SemanticKeys
  import opened EventLog
  import opened UnitsOfWork
  import opened Dispatching
  import opened WriteProtocol

  datatype PairKey = ByRequest(id: string) | ByFingerprint(actor: string, tool: string, digest: string)

  datatype Status = Pass | Fail | Limitation

  datatype Verdict = Verdict(
    status: Status, total: nat, lockErrors: nat, paired: nat, limitations: nat,
    nonLock: seq<Record>, unpaired: seq<string>)

  function PairKeyOf(r: Record): Option<PairKey> {
    if r.requestId != "" then Some(ByRequest(r.requestId))
    else if r.retryOf.Some? && r.retryOf.value != "" then Some(ByRequest(r.retryOf.value))
    else if r.actor != "" && r.fingerprint.Some? && r.fingerprint.value != ""
    then Some(ByFingerprint(r.actor, r.tool, r.fingerprint.value))
    else None
  }

  predicate IsStorageError(r: Record) {
    r.errorCode == Some(StorageError)
  }

  predicate IsLockRecord(r: Record) {
    IsStorageError(r) && r.reason == Some(LOCK_REASON)
  }

  /** The key is the record's own or that of the call it retries. */
  predicate CarriesKey(r: Record, key: PairKey) {
    || PairKeyOf(r) == Some(key)
    || (r.retryOf.Some? && r.retryOf.value != "" && key == ByRequest(r.retryOf.value))
  }

  ghost predicate Recovered(records: seq<Record>, key: PairKey) {
    exists r :: r in records && r.ok && CarriesKey(r, key)
  }

  predicate Unpaired(r: Record, successes: set<PairKey>) {
    IsLockRecord(r) && PairKeyOf(r).Some? && PairKeyOf(r).value !in successes
  }

  ghost predicate Failing(records: seq<Record>) {
    exists r :: r in records && IsStorageError(r) &&
      (r.reason != Some(LOCK_REASON) || (PairKeyOf(r).Some? && !Recovered(records, PairKeyOf(r).value)))
  }

  ghost predicate Unprovable(records: seq<Record>) {
    exists r :: r in records && IsLockRecord(r) && PairKeyOf(r).None?
  }

  ghost function StatusOf(records: seq<Record>): Status {
    if Failing(records) then Status.Fail else if Unprovable(records) then Limitation else Pass
  }

  /** First pass: the keys of the successes. */
  method CollectSuccesses(records: seq<Record>) returns (successes: set<PairKey>)
    ensures forall key :: key in successes <==> Recovered(records, key)
  {
    successes := {};
    for i := 0 to |records|
      invariant forall key :: key in successes <==> Recovered(records[..i], key)
    {
      var r := records[i];
      ghost var before := successes;
      if r.ok {
        var key := PairKeyOf(r);
        if key.Some? {
          successes := successes + {key.value};
        }
        if r.retryOf.Some? && r.retryOf.value != "" {
          successes := successes + {ByRequest(r.retryOf.value)};
        }
      }
      RecoveredStep(records, i, before, successes);
    }
    assert records[..|records|] == records;
  }

  lemma RecoveredStep(records: seq<Record>, i: nat, before: set<PairKey>, after: set<PairKey>)
    requires i < |records|
    requires forall key :: key in before <==> Recovered(records[..i], key)
    requires forall key :: key in after <==> (key in before || (records[i].ok && CarriesKey(records[i], key)))
    ensures forall key :: key in after <==> Recovered(records[..i + 1], key)
  {
    assert records[..i + 1] == records[..i] + [records[i]];
  }

  function OtherStorageErrors(): Record -> bool {
    (r: Record) => r.errorCode == Some(StorageError) && r.reason != Some("single_writer_lock")
  }

  function LockErrors(): Record -> bool {
    (r: Record) => r.errorCode == Some(StorageError) && r.reason == Some("single_writer_lock")
  }

  function KeylessLocks(): Record -> bool { (r: Record) => LockErrors()(r) && PairKeyOf(r).None? }

  function UnpairedLocks(successes: set<PairKey>): Record -> bool { (r: Record) => Unpaired(r, successes) }

  /** How the report names an unpaired record. */
  function NameOf(r: Record): string {
    if r.requestId != "" then r.requestId else if r.tool != "" then r.tool else "unknown"
  }

  function NamesOf(records: seq<Record>): (names: seq<string>)
    ensures |names| == |records|
    ensures forall k :: 0 <= k < |records| ==>
              names[k] == if records[k].requestId != "" then records[k].requestId
                          else if records[k].tool != "" then records[k].tool else "unknown"
  {
    if records == [] then [] else NamesOf(records[..|records| - 1]) + [NameOf(records[|records| - 1])]
  }

  lemma NamesSnoc(records: seq<Record>, r: Record)
    ensures NamesOf(records + [r]) == NamesOf(records) + [NameOf(r)]
  {
    assert (records + [r])[..|records|] == records;
  }

  lemma FilterSoFar(records: seq<Record>, i: nat, keep: Record -> bool)
    requires i < |records|
    ensures Filter(records[..i + 1], keep)
         == if keep(records[i]) then Filter(records[..i], keep) + [records[i]] else Filter(records[..i], keep)
  {
    assert records[..i + 1] == records[..i] + [records[i]];
    FilterSnoc(records[..i], records[i], keep);
    assert Filter(records[..i], keep) + [] == Filter(records[..i], keep);
  }

  /** What the second pass has found among these records. */
  ghost predicate Found(records: seq<Record>, successes: set<PairKey>, v: Verdict) {
    && v.nonLock == Filter(records, OtherStorageErrors())
    && v.lockErrors == |Filter(records, LockErrors())|
    && v.limitations == |Filter(records, KeylessLocks())|
    && v.unpaired == NamesOf(Filter(records, UnpairedLocks(successes)))
    && v.lockErrors == v.paired + v.limitations + |v.unpaired|
  }

  /** One more record. */
  function Tally(v: Verdict, r: Record, successes: set<PairKey>): Verdict {
    if r.errorCode != Some(StorageError) then v
    else if r.reason != Some(LOCK_REASON) then v.(nonLock := v.nonLock + [r])
    else if PairKeyOf(r).None? then v.(lockErrors := v.lockErrors + 1, limitations := v.limitations + 1)
    else if PairKeyOf(r).value in successes then v.(lockErrors := v.lockErrors + 1, paired := v.paired + 1)
    else v.(lockErrors := v.lockErrors + 1, unpaired := v.unpaired + [NameOf(r)])
  }

  lemma TallyFinds(records: seq<Record>, i: nat, successes: set<PairKey>, v: Verdict)
    requires i < |records| && Found(records[..i], successes, v)
    ensures Found(records[..i + 1], successes, Tally(v, records[i], successes))
  {
    FilterSoFar(records, i, OtherStorageErrors());
    FilterSoFar(records, i, LockErrors());
    FilterSoFar(records, i, KeylessLocks());
    FilterSoFar(records, i, UnpairedLocks(successes));
    NamesSnoc(Filter(records[..i], UnpairedLocks(successes)), records[i]);
  }

  /** The second pass. */
  method SortOut(records: seq<Record>, successes: set<PairKey>) returns (v: Verdict)
    ensures Found(records, successes, v) && v.total == |records|
  {
    v := Verdict(Pass, |records|, 0, 0, 0, [], []);
    for i := 0 to |records|
      invariant Found(records[..i], successes, v) && v.total == |records|
    {
      var r := records[i];
      TallyFinds(records, i, successes, v);
      if r.errorCode != Some(StorageError) {
        continue;
      }
      if r.reason != Some(LOCK_REASON) {
        v := v.(nonLock := v.nonLock + [r]);
        continue;
      }
      v := v.(lockErrors := v.lockErrors + 1);
      var key := PairKeyOf(r);
      if key.None? {
        v := v.(limitations := v.limitations + 1);
      } else if key.value in successes {
        v := v.(paired := v.paired + 1);
      } else {
        v := v.(unpaired := v.unpaired + [NameOf(r)]);
      }
    }
    assert records[..|records|] == records;
  }

  lemma KeptNothing(records: seq<Record>, keep: Record -> bool)
    ensures Filter(records, keep) == [] <==> forall r :: r in records ==> !keep(r)
  {
    var kept := Filter(records, keep);
    if kept != [] {
      assert kept[0] in kept;
    } else {
      forall r | r in records ensures !keep(r) {
        assert keep(r) ==> r in kept;
      }
    }
  }

  /** The whole check: the verdict; the other storage errors and the unpaired lock errors, by name,
      in order; and every lock error counted once, as paired, keyless or unpaired. */
  method CheckLockRecovery(records: seq<Record>) returns (v: Verdict)
    ensures v.status == StatusOf(records) && v.total == |records|
    ensures exists successes: set<PairKey> ::
              Found(records, successes, v) && forall key :: key in successes <==> Recovered(records, key)
    ensures v.status == Pass ==> v.lockErrors == v.paired
  {
    var successes := CollectSuccesses(records);
    v := SortOut(records, successes);
    KeptNothing(records, OtherStorageErrors());
    KeptNothing(records, KeylessLocks());
    KeptNothing(records, UnpairedLocks(successes));
    ghost var unpaired := Filter(records, UnpairedLocks(successes));
    assert v.unpaired == [] <==> unpaired == [];
    var status := if v.nonLock != [] || v.unpaired != [] then Status.Fail else if v.limitations > 0 then Limitation else Pass;
    v := v.(status := status);
    assert Found(records, successes, v);
  }

  /** A record belongs to its own request, or to the request it retries, or, with neither, to its
      actor's calls of that tool with the same fingerprint. */
  lemma PairKeyIs(r: Record, key: PairKey)
    ensures PairKeyOf(r) == Some(key) <==>
              if r.requestId != "" then key == ByRequest(r.requestId)
              else if r.retryOf.Some? && r.retryOf.value != "" then key == ByRequest(r.retryOf.value)
              else key.ByFingerprint? && key.actor == r.actor != "" && key.tool == r.tool
                   && r.fingerprint == Some(key.digest) && key.digest != ""
  {
  }

  // ---- traces of the dispatcher ----

  /** The trace holds exactly the records of the calls made so far. */
  ghost predicate TraceInv(s: State) {
    && ShapeInv(s)
    && (forall r :: r in s.trace <==> exists p: nat :: p in s.procs && r in Emitted(s.procs[p]))
  }

  lemma EndAttemptKeepsTrace(s: State, p: nat, r: AttemptResult)
    requires TraceInv(s) && Live(s, p)
    ensures TraceInv(EndAttempt(s, p, r))
  {
    EndAttemptKeepsShape(s, p, r);
    var s' := EndAttempt(s, p, r);
    var results := s'.procs[p].results;
    assert ProcOk(s.procs[p]);
    assert results[..|results| - 1] == s.procs[p].results;
    assert Emitted(s'.procs[p]) == Emitted(s.procs[p]) + AttemptRecord(s.procs[p].call, results, |results| - 1);
    SameEmissions(s, s', p, AttemptRecord(s.procs[p].call, results, |results| - 1));
  }

  /** Only `p` emitted, and what it emitted was appended. */
  lemma SameEmissions(s: State, s': State, p: nat, more: seq<Record>)
    requires TraceInv(s) && p in s'.procs && s'.trace == s.trace + more
    requires s'.procs.Keys == s.procs.Keys + {p}
    requires Emitted(s'.procs[p]) == (if p in s.procs then Emitted(s.procs[p]) else []) + more
    requires forall q: nat :: q in s.procs && q != p ==> Emitted(s'.procs[q]) == Emitted(s.procs[q])
    ensures forall r :: r in s'.trace <==> exists q: nat :: q in s'.procs && r in Emitted(s'.procs[q])
  {
    forall r ensures r in s'.trace <==> exists q: nat :: q in s'.procs && r in Emitted(s'.procs[q]) {
      if r in s.trace {
        var q: nat :| q in s.procs && r in Emitted(s.procs[q]);
        assert q in s'.procs && r in Emitted(s'.procs[q]);
      }
      if r in more {
        assert r in Emitted(s'.procs[p]);
      }
      if exists q: nat :: q in s'.procs && r in Emitted(s'.procs[q]) {
        var q: nat :| q in s'.procs && r in Emitted(s'.procs[q]);
        if q != p {
          assert q in s.procs && r in Emitted(s.procs[q]);
        } else if r !in more {
          assert p in s.procs && r in Emitted(s.procs[p]);
        }
      }
    }
  }

  /** A step that emits nothing. */
  lemma SilentKeepsTrace(s: State, s': State)
    requires TraceInv(s) && ShapeInv(s') && s'.trace == s.trace && s'.procs.Keys == s.procs.Keys
    requires forall q: nat :: q in s.procs ==> Emitted(s'.procs[q]) == Emitted(s.procs[q])
    ensures TraceInv(s')
  {
    forall r ensures r in s'.trace <==> exists p: nat :: p in s'.procs && r in Emitted(s'.procs[p]) {
      if r in s.trace {
        var p: nat :| p in s.procs && r in Emitted(s.procs[p]);
        assert r in Emitted(s'.procs[p]);
      }
      if exists p: nat :: p in s'.procs && r in Emitted(s'.procs[p]) {
        var p: nat :| p in s'.procs && r in Emitted(s'.procs[p]);
        assert r in Emitted(s.procs[p]);
      }
    }
  }

  lemma AbandonKeepsTrace(s: State, p: nat)
    requires TraceInv(s) && Live(s, p)
    ensures TraceInv(Abandon(s, p)) && Live(Abandon(s, p), p)
  {
    SilentKeepsTrace(s, Abandon(s, p));
  }

  lemma SubmitKeepsTrace(su: Setup, s: State, p: nat, call: Call)
    requires TraceInv(s)
    ensures TraceInv(SubmitStep(su, s, p, call))
  {
    StepKeepsShape(su, s, Submit(p, call));
    var s' := SubmitStep(su, s, p, call);
    if s' != s {
      SameEmissions(s, s', p, Emitted(s'.procs[p]));
    }
  }

  lemma LeaveKeepsTrace(su: Setup, s: State, p: nat, updaters: seq<Updater>)
    requires TraceInv(s) && At(s, p, InTxn)
    ensures TraceInv(LeaveStep(s, p, updaters))
  {
    StepKeepsShape(su, s, Leave(p, updaters));
    AbandonKeepsTrace(s, p);
    if ExitTxn(s.store, updaters, false, s.procs[p].dryRun, false).1 {
      EndAttemptKeepsTrace(Abandon(s, p), p, Uncaught);
    } else {
      SilentKeepsTrace(s, LeaveStep(s, p, updaters));
    }
  }

  lemma FailKeepsTrace(s: State, p: nat, r: AttemptResult)
    requires TraceInv(s) && Live(s, p)
    ensures TraceInv(FailAttempt(s, p, r))
  {
    AbandonKeepsTrace(s, p);
    EndAttemptKeepsTrace(Abandon(s, p), p, r);
  }

  lemma BeginKeepsTrace(su: Setup, s: State, p: nat)
    requires TraceInv(s) && At(s, p, Running)
    ensures TraceInv(BeginStep(s, p))
  {
    StepKeepsShape(su, s, Begin(p));
    if s.store.writer.Some? {
      FailKeepsTrace(s, p, Returned(Failure(StorageError, Some(LOCK_REASON))));
    } else {
      SilentKeepsTrace(s, BeginStep(s, p));
    }
  }

  lemma WriteKeepsTrace(su: Setup, s: State, p: nat, req: WriteRequest)
    requires TraceInv(s) && At(s, p, InTxn)
    ensures TraceInv(WriteStep(su, s, p, req))
  {
    StepKeepsShape(su, s, Write(p, req));
    var r := WriteEvent(su.cfg, s.store.working, req).1;
    if r.Err? {
      FailKeepsTrace(s, p, ResultOf(r.error));
    } else {
      SilentKeepsTrace(s, WriteStep(su, s, p, req));
    }
  }

  lemma KillKeepsTrace(su: Setup, s: State, p: nat)
    requires TraceInv(s) && Live(s, p)
    ensures TraceInv(KillStep(s, p))
  {
    StepKeepsShape(su, s, Kill(p));
    SilentKeepsTrace(s, KillStep(s, p));
  }

  lemma SetExportKeepsTrace(su: Setup, s: State, on: bool)
    requires TraceInv(s)
    ensures TraceInv(Next(su, s, SetExport(on)))
  {
    StepKeepsShape(su, s, SetExport(on));
    SilentKeepsTrace(s, Next(su, s, SetExport(on)));
  }

  lemma StepKeepsTrace(su: Setup, s: State, a: Action)
    requires TraceInv(s)
    ensures TraceInv(Next(su, s, a))
  {
    match a
    case Submit(p, call) => SubmitKeepsTrace(su, s, p, call);
    case Begin(p) => if At(s, p, Running) { BeginKeepsTrace(su, s, p); }
    case Write(p, req) => if At(s, p, InTxn) { WriteKeepsTrace(su, s, p, req); }
    case Fail(p, how) => if Live(s, p) { FailKeepsTrace(s, p, how); }
    case Leave(p, updaters) => if At(s, p, InTxn) { LeaveKeepsTrace(su, s, p, updaters); }
    case Return(p, isDict) =>
      if At(s, p, Running) {
        EndAttemptKeepsTrace(s, p, Returned(if isDict then Success else Failure(InvariantViolation, None)));
      }
    case Kill(p) => if Live(s, p) { KillKeepsTrace(su, s, p); }
    case SetExport(on) => SetExportKeepsTrace(su, s, on);
  }

  lemma {:induction false} RunKeepsTrace(su: Setup, s: State, actions: seq<Action>)
    requires TraceInv(s)
    ensures TraceInv(Run(su, s, actions))
    decreases |actions|
  {
    if actions != [] {
      StepKeepsTrace(su, s, actions[0]);
      RunKeepsTrace(su, Next(su, s, actions[0]), actions[1..]);
    }
  }

  // ---- what the verdict means ----

  predicate FirstHitLock(pr: Proc) {
    pr.results != [] && HitLock(pr.results[0])
  }

  predicate EndedInSuccess(pr: Proc) {
    pr.results != [] && pr.results[|pr.results| - 1] == Returned(Success)
  }

  predicate IsOtherStorage(r: AttemptResult) {
    r.Returned? && r.env.Failure? && r.env.code == StorageError && r.env.reason != Some(LOCK_REASON)
  }

  predicate HadOtherStorageError(pr: Proc) {
    exists r :: r in pr.results && IsOtherStorage(r)
  }

  ghost predicate DistinctRequests(s: State) {
    forall p: nat, q: nat :: p in s.procs && q in s.procs && s.procs[p].call.requestId == s.procs[q].call.requestId ==> p == q
  }

  function RecordAt(pr: Proc, k: nat): Record
    requires k < |pr.results| && pr.results[k].Returned?
  {
    RecordOf(pr.call, pr.results[k].env, Some(k + 1), if k == 0 then None else Some(pr.call.requestId))
  }

  /** The records of a call that was admitted are those of its caught attempts. */
  lemma EmittedIff(pr: Proc, r: Record)
    requires ProcOk(pr) && pr.refused.None?
    ensures r in Emitted(pr) <==> exists k: nat :: k < |pr.results| && pr.results[k].Returned? && r == RecordAt(pr, k)
  {
    if pr.results != [] {
      AttemptTraceCases(pr.call, pr.results);
      if r in Emitted(pr) {
        var k: nat := if r in AttemptRecord(pr.call, pr.results, 0) then 0 else 1;
        assert r in AttemptRecord(pr.call, pr.results, k);
        assert pr.results[k].Returned? && r == RecordAt(pr, k);
      }
    }
  }

  lemma EmittedFacts(pr: Proc, r: Record)
    requires ProcOk(pr) && r in Emitted(pr)
    ensures r.requestId == pr.call.requestId != ""
    ensures r.retryOf.Some? ==> r.retryOf.value == pr.call.requestId
    ensures IsStorageError(r) ==> pr.refused.None?
    ensures r.ok ==> pr.refused.None?
  {
    if pr.refused.None? {
      EmittedIff(pr, r);
    }
  }

  /** A call that hit the lock first has a success record exactly when it ended in success. */
  lemma SuccessRecordIff(pr: Proc)
    requires ProcOk(pr) && FirstHitLock(pr)
    ensures (exists r :: r in Emitted(pr) && r.ok) <==> EndedInSuccess(pr)
  {
    if EndedInSuccess(pr) {
      var k: nat := |pr.results| - 1;
      EmittedIff(pr, RecordAt(pr, k));
      assert RecordAt(pr, k).ok;
    }
    if r :| r in Emitted(pr) && r.ok {
      EmittedIff(pr, r);
    }
  }

  /** A lock failure that was not made good is reported. */
  lemma UnrecoveredLockFails(s: State, p: nat)
    requires TraceInv(s) && DistinctRequests(s)
    requires p in s.procs && FirstHitLock(s.procs[p]) && !EndedInSuccess(s.procs[p])
    ensures Failing(s.trace)
  {
    var pr := s.procs[p];
    assert ProcOk(pr);
    SuccessRecordIff(pr);
    var r := RecordAt(pr, 0);
    EmittedIff(pr, r);
    assert r in s.trace && IsLockRecord(r);
    if Recovered(s.trace, ByRequest(pr.call.requestId)) {
      var w :| w in s.trace && w.ok && CarriesKey(w, ByRequest(pr.call.requestId));
      var q: nat :| q in s.procs && w in Emitted(s.procs[q]);
      EmittedFacts(s.procs[q], w);
    }
  }

  lemma OtherStorageFails(s: State, p: nat)
    requires TraceInv(s) && p in s.procs && HadOtherStorageError(s.procs[p])
    ensures Failing(s.trace)
  {
    var pr := s.procs[p];
    assert ProcOk(pr);
    var x :| x in pr.results && IsOtherStorage(x);
    var k: nat :| k < |pr.results| && pr.results[k] == x;
    EmittedIff(pr, RecordAt(pr, k));
    assert RecordAt(pr, k) in s.trace;
  }

  lemma FailingHasACause(s: State)
    requires TraceInv(s) && Failing(s.trace)
    ensures exists p: nat :: p in s.procs &&
              (HadOtherStorageError(s.procs[p]) || (FirstHitLock(s.procs[p]) && !EndedInSuccess(s.procs[p])))
  {
    var r :| r in s.trace && IsStorageError(r) &&
      (r.reason != Some(LOCK_REASON) || (PairKeyOf(r).Some? && !Recovered(s.trace, PairKeyOf(r).value)));
    var p: nat :| p in s.procs && r in Emitted(s.procs[p]);
    assert ProcOk(s.procs[p]);
    EmittedFacts(s.procs[p], r);
    StorageErrorCause(s.procs[p], r);
    if r.reason == Some(LOCK_REASON) && EndedInSuccess(s.procs[p]) {
      SuccessRecovers(s, p);
    }
  }

  /** A storage error in the trace is one of the call's results. */
  lemma StorageErrorCause(pr: Proc, r: Record)
    requires ProcOk(pr) && r in Emitted(pr) && IsStorageError(r)
    ensures if r.reason == Some(LOCK_REASON) then FirstHitLock(pr) else HadOtherStorageError(pr)
  {
    EmittedFacts(pr, r);
    EmittedIff(pr, r);
    var k: nat :| k < |pr.results| && pr.results[k].Returned? && r == RecordAt(pr, k);
    assert pr.results[k] in pr.results;
  }

  lemma SuccessRecovers(s: State, p: nat)
    requires TraceInv(s) && p in s.procs && FirstHitLock(s.procs[p]) && EndedInSuccess(s.procs[p])
    ensures Recovered(s.trace, ByRequest(s.procs[p].call.requestId))
  {
    var pr := s.procs[p];
    assert ProcOk(pr);
    SuccessRecordIff(pr);
    var w :| w in Emitted(pr) && w.ok;
    EmittedFacts(pr, w);
    assert w in s.trace && CarriesKey(w, ByRequest(pr.call.requestId));
  }

  /** For every schedule whose calls have distinct request ids, the check says PASS exactly when
      no other storage error occurred and every call that hit the lock first ended in success;
      it never has to say LIMITATION. */
  lemma CheckerDecidesRecovery(su: Setup, exportOn: bool, tables: map<string, Json>, actions: seq<Action>)
    requires DistinctRequests(Run(su, Init(exportOn, tables), actions))
    ensures var s := Run(su, Init(exportOn, tables), actions);
            && StatusOf(s.trace) != Limitation
            && (StatusOf(s.trace) == Pass <==>
                  forall p: nat :: p in s.procs ==>
                    !HadOtherStorageError(s.procs[p]) && (FirstHitLock(s.procs[p]) ==> EndedInSuccess(s.procs[p])))
  {
    RunKeepsTrace(su, Init(exportOn, tables), actions);
    var s := Run(su, Init(exportOn, tables), actions);
    forall r | r in s.trace ensures PairKeyOf(r).Some? {
      var p: nat :| p in s.procs && r in Emitted(s.procs[p]);
      EmittedFacts(s.procs[p], r);
    }
    forall p: nat | p in s.procs
      ensures HadOtherStorageError(s.procs[p]) || (FirstHitLock(s.procs[p]) && !EndedInSuccess(s.procs[p])) ==> Failing(s.trace)
    {
      if HadOtherStorageError(s.procs[p]) {
        OtherStorageFails(s, p);
      } else if FirstHitLock(s.procs[p]) && !EndedInSuccess(s.procs[p]) {
        UnrecoveredLockFails(s, p);
      }
    }
    if Failing(s.trace) {
      FailingHasACause(s);
    }
  }
}
