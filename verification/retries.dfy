/** What a retried call's reply names (core.py `meta.event_id`, tools/_helpers.py `emit_event`). */
module Retries {
  // `Replies` says the reply is right unless the row it names was rolled back.  Here that is said
  // of the schedule: it cannot happen unless an attempt ended with rows of its own uncommitted;
  // and when it has happened and the retry repeats the write, the reply is right exactly when
  // nobody, or a write under the same key, took the id in between.

  import opened Outcomes
  import opened SemanticKeys
  import opened EventLog
  import opened UnitsOfWork
  import opened Dispatching
  import opened WriteProtocol
  import opened Replies

  // ---- attempts that lose nothing ----

  /** A unit of work of `p` that has appended rows ends without committing them. */
  predicate LosesRows(su: Setup, s: State, a: Action, p: nat) {
    && At(s, p, InTxn) && !At(Next(su, s, a), p, InTxn)
    && s.store.working.events != s.store.committed.events
    && Next(su, s, a).store.committed.events == s.store.committed.events
  }

  predicate LosesRowsAt(su: Setup, init: State, actions: seq<Action>, p: nat, k: int) {
    0 <= k < |actions| && LosesRows(su, Run(su, init, actions[..k]), actions[k], p)
  }

  predicate Kept(s: State, p: nat) {
    p in s.procs && s.procs[p].hint.Some? ==> !s.procs[p].hint.value.lost
  }

  predicate SameHint(a: Option<Hint>, b: Option<Hint>) {
    a.Some? ==> b.Some? && b.value.eventId == a.value.eventId && b.value.request == a.value.request && (a.value.lost ==> b.value.lost)
  }

  /** A hint, once set, stays; it is lost when a unit of work ends with its row uncommitted. */
  lemma HintMoves(su: Setup, s: State, a: Action, p: nat)
    requires p in s.procs
    ensures var s' := Next(su, s, a);
            && p in s'.procs && SameHint(s.procs[p].hint, s'.procs[p].hint)
            && (s.procs[p].hint.None? && s'.procs[p].hint.Some? ==> !s'.procs[p].hint.value.lost)
  {
  }

  lemma HintIsLost(su: Setup, s: State, a: Action, p: nat)
    requires p in s.procs && s.procs[p].hint.Some? && !s.procs[p].hint.value.lost
    requires Next(su, s, a).procs[p].hint.value.lost
    ensures At(s, p, InTxn) && !At(Next(su, s, a), p, InTxn)
    ensures Next(su, s, a).store.committed.events == s.store.committed.events
    ensures s.procs[p].hint.value.eventId > |s.store.committed.events|
  {
  }

  lemma StepKeepsHint(su: Setup, s: State, a: Action, p: nat)
    requires HintInv(su, s) && Kept(s, p) && !LosesRows(su, s, a, p)
    ensures Kept(Next(su, s, a), p)
  {
    if p in s.procs {
      HintMoves(su, s, a, p);
      assert HintOk(su, s, p);
      if s.procs[p].hint.Some? && Next(su, s, a).procs[p].hint.value.lost {
        HintIsLost(su, s, a, p);
      }
    } else {
      NewCallNoHint(su, s, a, p);
    }
  }

  lemma NewCallNoHint(su: Setup, s: State, a: Action, p: nat)
    requires p !in s.procs
    ensures p in Next(su, s, a).procs ==> Next(su, s, a).procs[p].hint.None? && !At(Next(su, s, a), p, InTxn)
  {
  }

  lemma LosesEarlier(su: Setup, init: State, actions: seq<Action>, p: nat, k: int)
    requires actions != [] && LosesRowsAt(su, init, actions[..|actions| - 1], p, k)
    ensures LosesRowsAt(su, init, actions, p, k)
  {
    assert actions[..|actions| - 1][..k] == actions[..k];
  }

  lemma {:induction false} RunKeepsHint(su: Setup, init: State, actions: seq<Action>, p: nat)
    requires HintInv(su, init) && p !in init.procs
    requires forall k :: !LosesRowsAt(su, init, actions, p, k)
    ensures Kept(Run(su, init, actions), p)
    decreases |actions|
  {
    if actions != [] {
      var n := |actions| - 1;
      var before := actions[..n];
      forall k ensures !LosesRowsAt(su, init, before, p, k) {
        if LosesRowsAt(su, init, before, p, k) {
          LosesEarlier(su, init, actions, p, k);
        }
        assert !LosesRowsAt(su, init, actions, p, k);
      }
      RunKeepsHint(su, init, before, p);
      RunKeepsHints(su, init, before);
      LastStep(su, init, actions);
      assert !LosesRowsAt(su, init, actions, p, n);
      StepKeepsHint(su, Run(su, init, before), actions[n], p);
    }
  }

  /** A success that is not a dry run names a committed row that answers the request it was
      written for, if no attempt of the call ended with rows of its own uncommitted: the lock was
      hit before the first row, or after the unit of work had committed. */
  lemma SuccessNamesWhatWasKept(su: Setup, exportOn: bool, tables: map<string, Json>, actions: seq<Action>, p: nat)
    requires forall k :: !LosesRowsAt(su, Init(exportOn, tables), actions, p, k)
    ensures var s := Run(su, Init(exportOn, tables), actions);
            p in s.procs ==>
            var pr := s.procs[p];
            pr.pc.Done? && pr.results != [] && pr.results[|pr.results| - 1] == Returned(Success)
            && !pr.dryRun && pr.hint.Some? ==>
              Names(su.cfg, s.store.committed, pr.hint.value)
  {
    RunKeepsHint(su, Init(exportOn, tables), actions, p);
    SuccessNamesCommittedEvent(su, exportOn, tables, actions, p);
  }

  // ---- a retry that repeats its first write ----

  /** No row before the one the hint names has the key of the hint's request. */
  predicate FirstWithKey(cfg: Config, events: seq<Event>, h: Hint) {
    && 0 < h.eventId && h.eventId - 1 <= |events|
    && var key := AcceptedKey(cfg, h.request);
       key.Ok? && key.value.Some? ==>
         forall j :: 0 <= j < h.eventId - 1 ==> !HasKey(events[j], h.request.eventType, h.request.actor, key.value.value)
  }

  /** Before its first write a call has appended nothing; a hint whose row is not committed names
      the row that came, or would have come, after rows without its key. */
  predicate HintFresh(cfg: Config, s: State, p: nat)
    requires p in s.procs
  {
    var hint := s.procs[p].hint;
    && (hint.None? && At(s, p, InTxn) ==> s.store.working.events == s.store.committed.events)
    && (hint.Some? && (hint.value.lost || hint.value.eventId > |s.store.committed.events|) ==>
          FirstWithKey(cfg, s.store.committed.events, hint.value))
  }

  lemma GrownFirstWithKey(cfg: Config, events: seq<Event>, more: seq<Event>, h: Hint)
    requires FirstWithKey(cfg, events, h) && events <= more
    ensures FirstWithKey(cfg, more, h)
  {
    forall j | 0 <= j < h.eventId - 1 ensures more[j] == events[j] {
    }
  }

  /** The first write of a call names a committed row, or the one after all committed rows. */
  lemma FirstWriteFresh(su: Setup, s: State, p: nat, req: WriteRequest)
    requires LogInv(su, s) && At(s, p, InTxn) && s.store.working.events == s.store.committed.events
    ensures var r := WriteEvent(su.cfg, s.store.working, req).1;
            r.Ok? && r.value.record.id > |s.store.committed.events| ==>
              FirstWithKey(su.cfg, s.store.committed.events, Hint(r.value.record.id, req, false))
  {
    WriteOutcome(su.cfg, s.store.working, req);
  }

  lemma {:induction false} HintStays(su: Setup, s: State, actions: seq<Action>, p: nat)
    requires p in s.procs
    ensures p in Run(su, s, actions).procs && SameHint(s.procs[p].hint, Run(su, s, actions).procs[p].hint)
    decreases |actions|
  {
    if actions != [] {
      HintMoves(su, s, actions[0], p);
      HintStays(su, Next(su, s, actions[0]), actions[1..], p);
    }
  }

  lemma OldHintFresh(su: Setup, s: State, a: Action, p: nat)
    requires LogInv(su, s) && p in s.procs && s.procs[p].hint.Some? && HintFresh(su.cfg, s, p)
    ensures p in Next(su, s, a).procs && HintFresh(su.cfg, Next(su, s, a), p)
  {
    var s' := Next(su, s, a);
    HintMoves(su, s, a, p);
    StepKeepsLog(su, s, a);
    var h, h' := s.procs[p].hint.value, s'.procs[p].hint.value;
    if h'.lost && !h.lost {
      HintIsLost(su, s, a, p);
    }
    if h'.lost || h'.eventId > |s'.store.committed.events| {
      GrownFirstWithKey(su.cfg, s.store.committed.events, s'.store.committed.events, h);
      assert FirstWithKey(su.cfg, s'.store.committed.events, h');
    }
  }

  /** Only a first write sets a hint. */
  lemma NewHint(su: Setup, s: State, a: Action, p: nat)
    requires p in s.procs && s.procs[p].hint.None?
    ensures var hint := Next(su, s, a).procs[p].hint;
            hint.Some? ==>
              && a.Write? && At(s, p, InTxn)
              && Next(su, s, a).store.committed == s.store.committed
              && WriteEvent(su.cfg, s.store.working, a.req).1.Ok?
              && hint == Some(Hint(WriteEvent(su.cfg, s.store.working, a.req).1.value.record.id, a.req, false))
  {
  }

  /** A call without a hint that is in a unit of work has just begun it, or has not moved. */
  lemma NoHintYet(su: Setup, s: State, a: Action, p: nat)
    requires LogInv(su, s) && p in s.procs && s.procs[p].hint.None? && HintFresh(su.cfg, s, p)
    requires Next(su, s, a).procs[p].hint.None? && At(Next(su, s, a), p, InTxn)
    ensures Next(su, s, a).store.working.events == Next(su, s, a).store.committed.events
  {
    if At(s, p, InTxn) {
      assert s.store.writer == Some(p);
    }
  }

  lemma StepFresh(su: Setup, s: State, a: Action, p: nat)
    requires LogInv(su, s) && (p in s.procs ==> HintFresh(su.cfg, s, p))
    ensures p in Next(su, s, a).procs ==> HintFresh(su.cfg, Next(su, s, a), p)
  {
    var s' := Next(su, s, a);
    if p !in s.procs {
      NewCallNoHint(su, s, a, p);
    } else if s.procs[p].hint.Some? {
      OldHintFresh(su, s, a, p);
    } else {
      HintMoves(su, s, a, p);
      NewHint(su, s, a, p);
      if s'.procs[p].hint.Some? {
        FirstWriteFresh(su, s, p, a.req);
      } else if At(s', p, InTxn) {
        NoHintYet(su, s, a, p);
      }
    }
  }

  lemma {:induction false} RunFresh(su: Setup, s: State, actions: seq<Action>, p: nat)
    requires LogInv(su, s) && (p in s.procs ==> HintFresh(su.cfg, s, p))
    ensures p in Run(su, s, actions).procs ==> HintFresh(su.cfg, Run(su, s, actions), p)
    decreases |actions|
  {
    if actions != [] {
      StepFresh(su, s, actions[0], p);
      StepKeepsLog(su, s, actions[0]);
      RunFresh(su, Next(su, s, actions[0]), actions[1..], p);
    }
  }

  predicate SameWrite(a: WriteRequest, b: WriteRequest) {
    && a.eventType == b.eventType && a.actor == b.actor && a.key == b.key
    && a.payload == b.payload && a.allowNoKey == b.allowNoKey
  }

  function KeyOf(cfg: Config, req: WriteRequest): Option<string> {
    match AcceptedKey(cfg, req) case Ok(key) => key case Err(_) => None
  }

  /** The row with the id that the hint names was committed under the key of its request. */
  predicate TakenUnderKey(cfg: Config, events: seq<Event>, h: Hint)
    requires KeyOf(cfg, h.request).Some?
  {
    0 < h.eventId <= |events| && HasKey(events[h.eventId - 1], h.request.eventType, h.request.actor, KeyOf(cfg, h.request).value)
  }

  lemma RepeatedWrite(cfg: Config, db: Db, h: Hint, req: WriteRequest)
    requires WellFormed(cfg, db) && FirstWithKey(cfg, db.events, h)
    requires SameWrite(req, h.request) && KeyOf(cfg, h.request).Some?
    requires WriteEvent(cfg, db, req).1.Ok?
    ensures Names(cfg, WriteEvent(cfg, db, req).0, h) <==> |db.events| < h.eventId || TakenUnderKey(cfg, db.events, h)
  {
    WriteOutcome(cfg, db, req);
    var key := KeyOf(cfg, req).value;
    var i := Find(db.events, req.eventType, req.actor, key);
    var (after, r) := WriteEvent(cfg, db, req);
    assert i >= h.eventId - 1;
    if |db.events| < h.eventId {
      assert i == |db.events| && r.value.record.id == h.eventId;
    } else if TakenUnderKey(cfg, db.events, h) {
      assert i == h.eventId - 1 && r.value.record == db.events[i];
    } else {
      assert after.events[h.eventId - 1] == db.events[h.eventId - 1];
    }
  }

  lemma NamesInGrown(cfg: Config, db: Db, later: Db, h: Hint)
    requires h.eventId <= |db.events| && db.events <= later.events
    ensures Names(cfg, db, h) <==> Names(cfg, later, h)
  {
    if 0 < h.eventId {
      assert later.events[h.eventId - 1] == db.events[h.eventId - 1];
    }
  }

  /** A retry whose first write repeats the keyed write that was rolled back.  Once it commits,
      the reply names its event exactly when, at the retry, nobody had committed a row with the
      named id, or the row with that id is one under the same key. */
  lemma RetryNamesIff(su: Setup, exportOn: bool, tables: map<string, Json>, actions: seq<Action>, p: nat,
                      req: WriteRequest, more: seq<Action>)
    requires var s := Run(su, Init(exportOn, tables), actions);
             && At(s, p, InTxn) && s.store.working.events == s.store.committed.events
             && s.procs[p].hint.Some? && s.procs[p].hint.value.lost
             && SameWrite(req, s.procs[p].hint.value.request) && KeyOf(su.cfg, req).Some?
             && WriteEvent(su.cfg, s.store.working, req).1.Ok?
             && WriteEvent(su.cfg, s.store.working, req).0.events
                <= Run(su, Next(su, s, Write(p, req)), more).store.committed.events
    ensures var s := Run(su, Init(exportOn, tables), actions);
            var h, end := s.procs[p].hint.value, Run(su, Next(su, s, Write(p, req)), more);
            && p in end.procs && end.procs[p].hint == Some(h)
            && (Names(su.cfg, end.store.committed, h)
                <==> |s.store.committed.events| < h.eventId || TakenUnderKey(su.cfg, s.store.committed.events, h))
  {
    var init := Init(exportOn, tables);
    var s := Run(su, init, actions);
    var h := s.procs[p].hint.value;
    RunKeepsLog(su, init, actions);
    RunFresh(su, init, actions, p);
    assert s.store.writer == Some(p);
    RepeatedWrite(su.cfg, s.store.working, h, req);
    WriteOutcome(su.cfg, s.store.working, req);
    HintMoves(su, s, Write(p, req), p);
    HintStays(su, Next(su, s, Write(p, req)), more, p);
    HintNamesWritten(su.cfg, s.store.working, h, req);
    NamesInGrown(su.cfg, WriteEvent(su.cfg, s.store.working, req).0,
                 Run(su, Next(su, s, Write(p, req)), more).store.committed, h);
  }

  lemma HintNamesWritten(cfg: Config, db: Db, h: Hint, req: WriteRequest)
    requires WellFormed(cfg, db) && FirstWithKey(cfg, db.events, h)
    requires SameWrite(req, h.request) && KeyOf(cfg, h.request).Some?
    requires WriteEvent(cfg, db, req).1.Ok?
    ensures h.eventId <= |WriteEvent(cfg, db, req).0.events|
  {
    WriteOutcome(cfg, db, req);
  }
}
