/** One tool call (src/trade_trace/core.py, `dispatch`): admission, the single retry after a
    lock failure, and the trace records it emits. */
module Dispatching {
  import opened Outcomes
  import opened SemanticKeys
  import opened EventLog

  datatype ErrorCode =
    | ValidationError
    | NotFound
    | StorageError
    | InvariantViolation
    | IdempotencyConflict
    | OtherCode(name: string)

  datatype Envelope = Success | Failure(code: ErrorCode, reason: Option<string>)

  /** What one run of the handler comes to; `Uncaught` is an exception that `dispatch` lets
      through without a trace record. */
  datatype AttemptResult = Returned(env: Envelope) | Uncaught

  const LOCK_REASON := "single_writer_lock"
  const MAX_RETRIES: nat := 1

  predicate IsLock(env: Envelope) {
    env.Failure? && env.code == StorageError && env.reason == Some(LOCK_REASON)
  }

  predicate HitLock(r: AttemptResult) {
    r.Returned? && IsLock(r.env)
  }

  datatype Call = Call(
    tool: string, args: Payload, actor: string, requestId: string, known: bool, isWrite: bool)

  datatype Setup = Setup(cfg: Config, toolEvents: map<string, string>, digest: (string, Payload) -> string)

  /** A trace record, reduced to the fields the lock-recovery check reads. */
  datatype Record = Record(
    requestId: string, ok: bool, errorCode: Option<ErrorCode>, reason: Option<string>,
    attempt: Option<nat>, retryOf: Option<string>, fingerprint: Option<string>,
    actor: string, tool: string)

  // ---- admission ----

  predicate Truthy(args: Payload, key: string) {
    key in args &&
    match args[key]
    case Null => false
    case Bool(b) => b
    case Int(i) => i != 0
    case Float(r) => r != 0.0
    case Str(s) => s != ""
    case Arr(items) => items != []
    case Obj(fields) => fields != map[]
  }

  predicate IsTrue(args: Payload, key: string) {
    key in args && args[key] == Bool(true)
  }

  /** The call goes to its handler, is answered at once, or escapes as an exception. */
  datatype Admission = Admitted(args: Payload) | Refused(env: Envelope) | Escapes

  function Admit(su: Setup, call: Call): Admission {
    if !su.cfg.actorOk(call.actor) then Refused(Failure(ValidationError, None))
    else if !call.known then Refused(Failure(NotFound, None))
    else if call.isWrite && !IsTrue(call.args, "_allow_no_idempotency") && !Truthy(call.args, "idempotency_key") then
      match DeriveKey(su.cfg.specs, su.toolEvents, su.digest, call.tool, call.args)
      case Err(_) => Escapes
      case Ok(None) => Refused(Failure(ValidationError, None))
      case Ok(Some(key)) => Admitted(call.args["idempotency_key" := Str(key)])
    else Admitted(call.args)
  }

  /** The call asks for a dry run. */
  predicate AsksDryRun(call: Call) {
    "_dry_run" in call.args && call.args["_dry_run"] == Bool(true)
  }

  /** A retryable write that comes without a usable idempotency key. */
  predicate LacksKey(call: Call) {
    && call.isWrite
    && !("_allow_no_idempotency" in call.args && call.args["_allow_no_idempotency"] == Bool(true))
    && ("idempotency_key" in call.args ==>
          call.args["idempotency_key"] in {Null, Bool(false), Int(0), Float(0.0), Str(""), Arr([]), Obj(map[])})
  }

  /** When a call is refused or escapes, and with which arguments its handler runs otherwise: its
      own, but for a derived key where it lacks one. */
  lemma AdmissionIs(su: Setup, call: Call)
    ensures !su.cfg.actorOk(call.actor) ==> Admit(su, call) == Refused(Failure(ValidationError, None))
    ensures su.cfg.actorOk(call.actor) && !call.known ==> Admit(su, call) == Refused(Failure(NotFound, None))
    ensures su.cfg.actorOk(call.actor) && call.known && !LacksKey(call) ==> Admit(su, call) == Admitted(call.args)
    ensures su.cfg.actorOk(call.actor) && call.known && LacksKey(call) && call.tool !in su.toolEvents ==>
              Admit(su, call) == Refused(Failure(ValidationError, None))
    ensures su.cfg.actorOk(call.actor) && call.known && LacksKey(call) && call.tool in su.toolEvents ==>
              var canonical := Canonicalize(su.cfg.specs, su.toolEvents[call.tool], call.args);
              Admit(su, call) == if canonical.Err? then Escapes
                                 else Admitted(call.args["idempotency_key" := Str("auto:" + su.digest(call.tool, canonical.value))])
  {
  }

  // ---- attempts and their trace ----

  function RecordOf(call: Call, env: Envelope, attempt: Option<nat>, retryOf: Option<string>): Record {
    match env
    case Success => Record(call.requestId, true, None, None, attempt, retryOf, None, call.actor, call.tool)
    case Failure(code, reason) => Record(call.requestId, false, Some(code), reason, attempt, retryOf, None, call.actor, call.tool)
  }

  function AttemptRecord(call: Call, results: seq<AttemptResult>, k: nat): seq<Record>
    requires k < |results|
  {
    match results[k]
    case Uncaught => []
    case Returned(env) => [RecordOf(call, env, Some(k + 1), if k == 0 then None else Some(call.requestId))]
  }

  function AttemptTrace(call: Call, results: seq<AttemptResult>): seq<Record> {
    if results == [] then []
    else AttemptTrace(call, results[..|results| - 1]) + AttemptRecord(call, results, |results| - 1)
  }

  /** The records one call leaves: one for a refusal, else one for each caught attempt. */
  function CallTrace(call: Call, refused: Option<Envelope>, results: seq<AttemptResult>): seq<Record> {
    if refused.Some? then [RecordOf(call, refused.value, None, None)] else AttemptTrace(call, results)
  }

  /** The handler's results as `dispatch` would collect them: a second one only after a lock. */
  ghost predicate RetryShape(results: seq<AttemptResult>) {
    |results| <= 2 && (|results| == 2 ==> HitLock(results[0]))
  }

  type Handler = (nat, Payload, bool) -> AttemptResult

  function Attempts(h: Handler, args: Payload, dryRun: bool): seq<AttemptResult> {
    var first := h(1, args, dryRun);
    if HitLock(first) then [first, h(2, args, dryRun)] else [first]
  }

  /** What the attempts of an admitted call add to the trace. */
  lemma AttemptTraceCases(call: Call, results: seq<AttemptResult>)
    requires 0 < |results| <= 2
    ensures AttemptTrace(call, results)
         == AttemptRecord(call, results, 0) + (if |results| == 2 then AttemptRecord(call, results, 1) else [])
  {
    assert results[..1] == [results[0]] && results[..0] == [];
    assert AttemptTrace(call, [results[0]]) == AttemptRecord(call, [results[0]], 0);
  }

  /** A record tells of attempt `k`: its number, its outcome, and for a retry the request retried. */
  predicate TellsOf(r: Record, call: Call, results: seq<AttemptResult>, k: nat)
    requires k < |results|
  {
    && results[k].Returned?
    && r.attempt == Some(k + 1) && r.retryOf == (if k == 0 then None else Some(call.requestId))
    && r.requestId == call.requestId && r.actor == call.actor && r.tool == call.tool
    && r.ok == results[k].env.Success?
    && r.errorCode == (if r.ok then None else Some(results[k].env.code))
    && r.reason == (if r.ok then None else results[k].env.reason)
  }

  predicate NumberedBefore(r: Record, n: nat) {
    r.attempt.Some? && 1 <= r.attempt.value <= n
  }

  /** Every record tells of the attempt it is numbered after, in order of the numbers. */
  predicate TellsOnly(trace: seq<Record>, call: Call, results: seq<AttemptResult>) {
    && (forall r :: r in trace ==> NumberedBefore(r, |results|) && TellsOf(r, call, results, r.attempt.value - 1))
    && (forall i, j :: 0 <= i < j < |trace| ==> trace[i].attempt.value < trace[j].attempt.value)
  }

  ghost predicate TellsAll(trace: seq<Record>, call: Call, results: seq<AttemptResult>) {
    forall k: nat :: k < |results| && results[k].Returned? ==> exists r :: r in trace && TellsOf(r, call, results, k)
  }

  lemma TellsOnlyNext(before: seq<Record>, call: Call, results: seq<AttemptResult>)
    requires results != [] && TellsOnly(before, call, results[..|results| - 1])
    ensures TellsOnly(before + AttemptRecord(call, results, |results| - 1), call, results)
  {
    var last := AttemptRecord(call, results, |results| - 1);
    var trace := before + last;
    forall r | r in trace ensures NumberedBefore(r, |results|) && TellsOf(r, call, results, r.attempt.value - 1) {
      assert r in before || r in last;
    }
    forall i, j | 0 <= i < j < |trace| ensures trace[i].attempt.value < trace[j].attempt.value {
      assert before[i] in before && (j < |before| || trace[j] == last[0]);
    }
  }

  lemma TellsAllNext(before: seq<Record>, call: Call, results: seq<AttemptResult>)
    requires results != [] && TellsAll(before, call, results[..|results| - 1])
    ensures TellsAll(before + AttemptRecord(call, results, |results| - 1), call, results)
  {
    var n := |results| - 1;
    var last := AttemptRecord(call, results, n);
    forall k: nat | k < |results| && results[k].Returned? ensures exists r :: r in before + last && TellsOf(r, call, results, k) {
      if k < n {
        var r :| r in before && TellsOf(r, call, results[..n], k);
        assert r in before + last && TellsOf(r, call, results, k);
      } else {
        assert last[0] in before + last && TellsOf(last[0], call, results, k);
      }
    }
  }

  /** The trace of a call has one record for each attempt that did not escape, in order of the
      attempts' numbers, and nothing else. */
  lemma {:induction false} TraceTellsAttempts(call: Call, results: seq<AttemptResult>)
    ensures TellsOnly(AttemptTrace(call, results), call, results)
    ensures TellsAll(AttemptTrace(call, results), call, results)
    decreases |results|
  {
    if results != [] {
      var before := AttemptTrace(call, results[..|results| - 1]);
      TraceTellsAttempts(call, results[..|results| - 1]);
      TellsOnlyNext(before, call, results);
      TellsAllNext(before, call, results);
    }
  }

  /** A refusal leaves one record, of no attempt. */
  lemma RefusalTells(call: Call, env: Envelope, results: seq<AttemptResult>)
    ensures var trace := CallTrace(call, Some(env), results);
            && |trace| == 1 && trace[0].attempt == None && trace[0].retryOf == None
            && trace[0].requestId == call.requestId && trace[0].actor == call.actor && trace[0].tool == call.tool
            && trace[0].ok == env.Success?
            && trace[0].errorCode == (if env.Success? then None else Some(env.code))
            && trace[0].reason == (if env.Success? then None else env.reason)
  {
  }

  /** The handler's results for a whole call, none when the call is not admitted. */
  function CallResults(su: Setup, call: Call, handler: Handler, flag: bool): (results: seq<AttemptResult>)
    ensures RetryShape(results)
  {
    match Admit(su, call)
    case Admitted(args) => Attempts(handler, args, flag || IsTrue(args, "_dry_run"))
    case _ => []
  }

  /** The lock failure that is retried. */
  predicate LockedOut(r: AttemptResult) {
    r.Returned? && r.env.Failure? && r.env.code == StorageError && r.env.reason == Some("single_writer_lock")
  }

  /** An admitted call runs its handler under the dry-run flag it asks for, or that was set
      before: once, and once more exactly after the lock was hit. */
  lemma ResultsAre(su: Setup, call: Call, handler: Handler, flag: bool)
    requires Admit(su, call).Admitted?
    ensures var args, dryRun := Admit(su, call).args, flag || AsksDryRun(call);
            var first := handler(1, args, dryRun);
            CallResults(su, call, handler, flag) == if LockedOut(first) then [first, handler(2, args, dryRun)] else [first]
  {
    AdmissionIs(su, call);
  }

  /** So a call that asks for a dry run sees nothing of a handler but its dry run. */
  lemma OnlyTheDryRunIsSeen(su: Setup, call: Call, one: Handler, other: Handler, flag: bool)
    requires AsksDryRun(call)
    requires forall k: nat, args: Payload :: one(k, args, true) == other(k, args, true)
    ensures CallResults(su, call, one, flag) == CallResults(su, call, other, flag)
  {
    if Admit(su, call).Admitted? {
      ResultsAre(su, call, one, flag);
      ResultsAre(su, call, other, flag);
    }
  }

  class Dispatcher {
    const su: Setup
    var dryRunFlag: bool
    var trace: seq<Record>

    constructor (su: Setup)
      ensures this.su == su && !dryRunFlag && trace == []
    {
      this.su := su;
      dryRunFlag := false;
      trace := [];
    }

    method Emit(call: Call, env: Envelope, attempt: Option<nat>, retryOf: Option<string>)
      modifies this`trace
      ensures trace == old(trace) + [RecordOf(call, env, attempt, retryOf)]
    {
      trace := trace + [RecordOf(call, env, attempt, retryOf)];
    }

    /** The bounded retry loop. */
    method RunAttempts(call: Call, args: Payload, handler: Handler) returns (r: AttemptResult)
      modifies this`trace
      ensures var results := Attempts(handler, args, dryRunFlag);
              r == results[|results| - 1] && trace == old(trace) + AttemptTrace(call, results)
    {
      ghost var results := Attempts(handler, args, dryRunFlag);
      AttemptTraceCases(call, results);
      var retryOf: Option<string> := None;
      for attempt := 1 to MAX_RETRIES + 2
        invariant attempt <= 2
        invariant attempt == 1 ==> retryOf == None && trace == old(trace)
        invariant attempt == 2 ==> HitLock(results[0]) && retryOf == Some(call.requestId)
                                   && trace == old(trace) + AttemptRecord(call, results, 0)
      {
        r := handler(attempt, args, dryRunFlag);
        if HitLock(r) && attempt <= MAX_RETRIES {
          Emit(call, r.env, Some(attempt), retryOf);
          retryOf := Some(call.requestId);
        } else {
          if r.Returned? {
            Emit(call, r.env, Some(attempt), retryOf);
          }
          return;
        }
      }
      assert false;
    }

    /** The handler runs under the dry-run flag the call asked for, at most twice; the flag is
        back to what it was afterwards, and the trace has gained exactly this call's records. */
    method Dispatch(call: Call, handler: Handler) returns (r: AttemptResult)
      modifies this
      ensures dryRunFlag == old(dryRunFlag)
      ensures var results := CallResults(su, call, handler, old(dryRunFlag));
              match Admit(su, call)
              case Refused(env) => r == Returned(env) && trace == old(trace) + CallTrace(call, Some(env), results)
              case Escapes => r == Uncaught && trace == old(trace)
              case Admitted(_) => r == results[|results| - 1] && trace == old(trace) + CallTrace(call, None, results)
      ensures Admit(su, call).Admitted? ==>
                var args, dryRun := Admit(su, call).args, old(dryRunFlag) || AsksDryRun(call);
                var first := handler(1, args, dryRun);
                r == if LockedOut(first) then handler(2, args, dryRun) else first
    {
      if Admit(su, call).Admitted? {
        ResultsAre(su, call, handler, dryRunFlag);
      }
      var args := call.args;
      if !su.cfg.actorOk(call.actor) {
        Emit(call, Failure(ValidationError, None), None, None);
        return Returned(Failure(ValidationError, None));
      }
      if !call.known {
        Emit(call, Failure(NotFound, None), None, None);
        return Returned(Failure(NotFound, None));
      }
      if call.isWrite && !IsTrue(args, "_allow_no_idempotency") && !Truthy(args, "idempotency_key") {
        var derived := DeriveKey(su.cfg.specs, su.toolEvents, su.digest, call.tool, args);
        if derived.Err? {
          return Uncaught;
        }
        if derived.value.None? {
          Emit(call, Failure(ValidationError, None), None, None);
          return Returned(Failure(ValidationError, None));
        }
        args := args["idempotency_key" := Str(derived.value.value)];
      }
      var token := dryRunFlag;
      if IsTrue(args, "_dry_run") {
        dryRunFlag := true;
      }
      r := RunAttempts(call, args, handler);
      dryRunFlag := token;
    }
  }
}
