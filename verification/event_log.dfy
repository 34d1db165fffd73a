/** The append-only event log (src/trade_trace/events/log.py and the tables of migration 002). */
module EventLog {
  // `WriteEvent` is what one call of `EventWriter.write` does to the tables the connection sees;
  // the class below performs it in place.

  import opened Outcomes
  import opened Orders
  import opened Outbox
  import opened SemanticKeys

  datatype Subject = Subject(kind: string, id: string)

  /** Who wrote, as far as the caller says. */
  datatype Origin = Origin(
    agentId: Option<string>, modelId: Option<string>, environment: Option<string>, runId: Option<string>)

  /** A row of `events`.  `exportOn` is history kept by the model: whether JSONL export was
      enabled when the row was written. */
  datatype Event = Event(
    id: nat, eventType: string, subject: Subject, payload: Payload, actor: string,
    key: Option<string>, createdAt: string, requestId: string, origin: Origin, exportOn: bool)

  /** `tables` stands for every ledger and projection table that the log does not own. */
  datatype Db = Db(
    events: seq<Event>, outbox: seq<OutboxRow>, exportEnabled: bool, tables: map<string, Json>)

  /** The registry and the two grammars; `cleanKey` trims a key or rejects it. */
  datatype Config = Config(
    specs: Registry, actorOk: string -> bool, cleanKey: string -> Option<string>)

  datatype WriteRequest = WriteRequest(
    eventType: string, subject: Subject, payload: Payload, actor: string, key: Option<string>,
    allowNoKey: bool, requestId: string, origin: Origin, now: string)

  datatype WriteError =
    | UnknownEventType
    | BadActor
    | BadKey
    | MissingKey
    | UncomparablePayload
    | Conflict(originalId: nat)

  /** What `write` returns: the record and its `idempotent_replay` flag. */
  datatype Written = Written(record: Event, replay: bool)

  // ---- lookups ----

  predicate HasKey(e: Event, eventType: string, actor: string, key: string) {
    e.eventType == eventType && e.actor == actor && e.key == Some(key)
  }

  /** The position of the first row with this key, or the number of rows. */
  function Find(events: seq<Event>, eventType: string, actor: string, key: string): (i: nat)
    ensures i <= |events|
    ensures i < |events| ==> HasKey(events[i], eventType, actor, key)
    ensures forall j :: 0 <= j < i ==> !HasKey(events[j], eventType, actor, key)
  {
    if events == [] then 0
    else if HasKey(events[0], eventType, actor, key) then 0
    else 1 + Find(events[1..], eventType, actor, key)
  }

  /** The key a request is stored under, or why it is refused before any lookup. */
  function AcceptedKey(cfg: Config, req: WriteRequest): Result<Option<string>, WriteError> {
    if req.eventType !in cfg.specs then Err(UnknownEventType)
    else if !cfg.actorOk(req.actor) then Err(BadActor)
    else if req.key.Some? && cfg.cleanKey(req.key.value).None? then Err(BadKey)
    else if req.key.None? && !req.allowNoKey then Err(MissingKey)
    else Ok(if req.key.Some? then cfg.cleanKey(req.key.value) else None)
  }

  function NewRow(db: Db, req: WriteRequest, key: Option<string>): Event {
    Event(|db.events| + 1, req.eventType, req.subject, req.payload, req.actor, key, req.now,
          req.requestId, req.origin, db.exportEnabled)
  }

  function AppendRow(db: Db, row: Event): Db {
    db.(events := db.events + [row],
        outbox := if db.exportEnabled
                  then db.outbox + [Queued(|db.outbox| + 1, row.id)]
                  else db.outbox)
  }

  function WriteEvent(cfg: Config, db: Db, req: WriteRequest): (Db, Result<Written, WriteError>) {
    match AcceptedKey(cfg, req)
    case Err(e) => (db, Err(e))
    case Ok(key) =>
      var i := if key.Some? then Find(db.events, req.eventType, req.actor, key.value) else |db.events|;
      if Canonicalize(cfg.specs, req.eventType, req.payload).Err? then (db, Err(UncomparablePayload))
      else if i < |db.events| then
        if Equivalent(cfg.specs, req.eventType, db.events[i].payload, req.payload)
        then (db, Ok(Written(db.events[i], true)))
        else (db, Err(Conflict(db.events[i].id)))
      else
        var row := NewRow(db, req, key);
        (AppendRow(db, row), Ok(Written(row, false)))
  }

  // ---- what every reachable log satisfies ----

  function QueuedIds(events: seq<Event>): seq<nat> {
    if events == [] then []
    else
      var last := events[|events| - 1];
      QueuedIds(events[..|events| - 1]) + (if last.exportOn then [last.id] else [])
  }

  function OutboxIds(outbox: seq<OutboxRow>): seq<nat> {
    if outbox == [] then [] else OutboxIds(outbox[..|outbox| - 1]) + [outbox[|outbox| - 1].eventId]
  }

  ghost predicate UniqueKeys(events: seq<Event>) {
    forall i, j :: 0 <= i < j < |events| && events[i].key.Some? ==>
      !HasKey(events[j], events[i].eventType, events[i].actor, events[i].key.value)
  }

  /** Row ids are dense, keys are unique, stored payloads compare, and the outbox holds one row,
      in order, for each event written while export was on. */
  ghost predicate WellFormed(cfg: Config, db: Db) {
    && (forall i :: 0 <= i < |db.events| ==> db.events[i].id == i + 1)
    && (forall i :: 0 <= i < |db.events| ==>
          Canonicalize(cfg.specs, db.events[i].eventType, db.events[i].payload).Ok?)
    && UniqueKeys(db.events)
    && OutboxIds(db.outbox) == QueuedIds(db.events)
  }

  /** A row answers a request: same type, actor and key, and an equivalent payload. */
  ghost predicate Answers(cfg: Config, row: Event, req: WriteRequest) {
    && row.eventType == req.eventType
    && row.actor == req.actor
    && AcceptedKey(cfg, req) == Ok(row.key)
    && Equivalent(cfg.specs, req.eventType, row.payload, req.payload)
  }

  lemma AppendKeepsUnique(events: seq<Event>, row: Event)
    requires UniqueKeys(events)
    requires row.key.Some? ==> forall e :: e in events ==> !HasKey(e, row.eventType, row.actor, row.key.value)
    ensures UniqueKeys(events + [row])
  {
    var more := events + [row];
    forall i, j | 0 <= i < j < |more| && more[i].key.Some?
      ensures !HasKey(more[j], more[i].eventType, more[i].actor, more[i].key.value)
    {
      assert more[i] in events;
    }
  }

  lemma WriteKeepsWellFormed(cfg: Config, db: Db, req: WriteRequest)
    requires WellFormed(cfg, db)
    ensures WellFormed(cfg, WriteEvent(cfg, db, req).0)
  {
    var db' := WriteEvent(cfg, db, req).0;
    if db' != db {
      var row := db'.events[|db.events|];
      assert db'.events[..|db'.events| - 1] == db.events;
      AppendKeepsUnique(db.events, row);
      if db.exportEnabled {
        assert db'.outbox[..|db'.outbox| - 1] == db.outbox;
      }
    }
  }

  lemma AppendQueues(db: Db, row: Event)
    ensures OutboxIds(AppendRow(db, row).outbox) == OutboxIds(db.outbox) + (if db.exportEnabled then [row.id] else [])
  {
    if db.exportEnabled {
      var more := AppendRow(db, row).outbox;
      assert more[..|more| - 1] == db.outbox;
    }
  }

  /** A write that finds a row returns it or conflicts with it. */
  lemma FoundOutcome(cfg: Config, db: Db, req: WriteRequest, i: nat)
    requires WellFormed(cfg, db) && i < |db.events|
    requires AcceptedKey(cfg, req) == Ok(db.events[i].key) && db.events[i].key.Some?
    requires i == Find(db.events, req.eventType, req.actor, db.events[i].key.value)
    requires Canonicalize(cfg.specs, req.eventType, req.payload).Ok?
    ensures var row := db.events[i];
            && row.id == i + 1 && row.eventType == req.eventType && row.actor == req.actor
            && WriteEvent(cfg, db, req) == (db, if Answers(cfg, row, req) then Ok(Written(row, true)) else Err(Conflict(row.id)))
            && (Answers(cfg, row, req) <==> Equivalent(cfg.specs, req.eventType, row.payload, req.payload))
  {
  }

  /** One write either leaves the tables alone or appends one row, with one outbox row exactly
      when export is on; a success returns a stored row that answers the request. */
  lemma WriteOutcome(cfg: Config, db: Db, req: WriteRequest)
    requires WellFormed(cfg, db)
    ensures var (db', r) := WriteEvent(cfg, db, req);
            && (r.Err? || r.value.replay ==> db' == db)
            && (r.Ok? && !r.value.replay ==>
                  && db'.events == db.events + [r.value.record]
                  && OutboxIds(db'.outbox) == OutboxIds(db.outbox) + (if db.exportEnabled then [r.value.record.id] else [])
                  && db'.tables == db.tables && db'.exportEnabled == db.exportEnabled)
            && (r.Ok? ==> 0 < r.value.record.id <= |db'.events|
                          && db'.events[r.value.record.id - 1] == r.value.record
                          && Answers(cfg, r.value.record, req))
            && (r.Err? && r.error.Conflict? ==>
                  0 < r.error.originalId <= |db.events|
                  && var old_ := db.events[r.error.originalId - 1];
                     && old_.eventType == req.eventType && old_.actor == req.actor
                     && AcceptedKey(cfg, req) == Ok(old_.key)
                     && !Equivalent(cfg.specs, req.eventType, old_.payload, req.payload))
  {
    var accepted := AcceptedKey(cfg, req);
    if accepted.Ok? && Canonicalize(cfg.specs, req.eventType, req.payload).Ok? {
      var key := accepted.value;
      var i := if key.Some? then Find(db.events, req.eventType, req.actor, key.value) else |db.events|;
      if i < |db.events| {
        FoundOutcome(cfg, db, req, i);
      } else {
        AppendQueues(db, NewRow(db, req, key));
      }
    }
  }

  /** The columns of a fresh row, one by one. */
  predicate Records(cfg: Config, db: Db, req: WriteRequest, row: Event) {
    && row.id == |db.events| + 1
    && row.eventType == req.eventType && row.subject == req.subject && row.payload == req.payload
    && row.actor == req.actor && row.key == (if req.key.None? then None else cfg.cleanKey(req.key.value))
    && row.createdAt == req.now && row.requestId == req.requestId && row.origin == req.origin
    && row.exportOn == db.exportEnabled
  }

  /** A fresh write stores what it was asked to, all of it, and queues it when export is on. */
  lemma FreshRowIs(cfg: Config, db: Db, req: WriteRequest)
    requires WriteEvent(cfg, db, req).1.Ok? && !WriteEvent(cfg, db, req).1.value.replay
    ensures var (db', r) := WriteEvent(cfg, db, req);
            && Records(cfg, db, req, r.value.record)
            && db'.events == db.events + [r.value.record]
            && db'.outbox == db.outbox + (if db.exportEnabled
                                          then [OutboxRow(|db.outbox| + 1, r.value.record.id, "jsonl", Pending, 0, None, None)] else [])
  {
  }

  lemma FreshOutcome(cfg: Config, db: Db, req: WriteRequest)
    ensures var (after, r) := WriteEvent(cfg, db, req);
            r.Ok? && !r.value.replay ==> Records(cfg, db, req, r.value.record) && after.events == db.events + [r.value.record]
  {
    if WriteEvent(cfg, db, req).1.Ok? && !WriteEvent(cfg, db, req).1.value.replay {
      FreshRowIs(cfg, db, req);
    }
  }

  /** The request passes every check that precedes the lookup. */
  predicate Acceptable(cfg: Config, req: WriteRequest) {
    && req.eventType in cfg.specs && cfg.actorOk(req.actor)
    && (if req.key.Some? then cfg.cleanKey(req.key.value).Some? else req.allowNoKey)
  }

  /** No row has the request's type, actor and key; none ever does without a key. */
  predicate KeyIsFree(cfg: Config, db: Db, req: WriteRequest) {
    req.key.Some? ==>
      forall e :: e in db.events ==> !(e.eventType == req.eventType && e.actor == req.actor && e.key == cfg.cleanKey(req.key.value))
  }

  /** When a write appends, and which error stops it before the lookup. */
  lemma WritesFreshIff(cfg: Config, db: Db, req: WriteRequest)
    ensures var r := WriteEvent(cfg, db, req).1;
            && (r.Ok? && !r.value.replay <==>
                  Acceptable(cfg, req) && KeyIsFree(cfg, db, req) && Canonicalize(cfg.specs, req.eventType, req.payload).Ok?)
            && (r == Err(UnknownEventType) <==> req.eventType !in cfg.specs)
            && (r == Err(BadActor) <==> req.eventType in cfg.specs && !cfg.actorOk(req.actor))
            && (r == Err(BadKey) <==> req.eventType in cfg.specs && cfg.actorOk(req.actor)
                                      && req.key.Some? && cfg.cleanKey(req.key.value).None?)
            && (r == Err(MissingKey) <==> req.eventType in cfg.specs && cfg.actorOk(req.actor) && req.key.None? && !req.allowNoKey)
  {
    if Acceptable(cfg, req) && req.key.Some? {
      var key := cfg.cleanKey(req.key.value);
      var i := Find(db.events, req.eventType, req.actor, key.value);
      if i == |db.events| {
        assert KeyIsFree(cfg, db, req);
      } else {
        assert db.events[i] in db.events;
      }
    }
  }

  /** Once a keyed write has succeeded, any later write under the same key in any longer log
      returns that very row when the payload is equivalent, and conflicts when it is not. */
  lemma ReplayOrConflict(cfg: Config, db: Db, first: WriteRequest, later: Db, second: WriteRequest)
    requires WellFormed(cfg, db) && WellFormed(cfg, later)
    requires WriteEvent(cfg, db, first).1.Ok?
    requires WriteEvent(cfg, db, first).0.events <= later.events
    requires second.eventType == first.eventType && second.actor == first.actor
    requires AcceptedKey(cfg, second) == AcceptedKey(cfg, first) && AcceptedKey(cfg, first).value.Some?
    requires Canonicalize(cfg.specs, second.eventType, second.payload).Ok?
    ensures WriteEvent(cfg, later, second)
         == (var row := WriteEvent(cfg, db, first).1.value.record;
             (later, if Equivalent(cfg.specs, first.eventType, row.payload, second.payload)
                     then Ok(Written(row, true)) else Err(Conflict(row.id))))
  {
    WriteOutcome(cfg, db, first);
    var row := WriteEvent(cfg, db, first).1.value.record;
    var i := Find(later.events, second.eventType, second.actor, row.key.value);
    assert later.events[row.id - 1] == row;
    assert i <= row.id - 1;
    if i < row.id - 1 {
      assert HasKey(later.events[row.id - 1], later.events[i].eventType, later.events[i].actor, later.events[i].key.value);
    }
  }

  /** Auto-derived keys: a repeat of a call whose payload is equivalent is always a replay. */
  lemma DerivedKeyReplays(cfg: Config, toolEvents: map<string, string>, digest: (string, Payload) -> string,
                          tool: string, db: Db, first: WriteRequest, later: Db, second: WriteRequest)
    requires WellFormed(cfg, db) && WellFormed(cfg, later)
    requires tool in toolEvents && first.eventType == second.eventType == toolEvents[tool]
    requires second.actor == first.actor
    requires DeriveKey(cfg.specs, toolEvents, digest, tool, first.payload) == Ok(first.key)
    requires DeriveKey(cfg.specs, toolEvents, digest, tool, second.payload) == Ok(second.key)
    requires Equivalent(cfg.specs, first.eventType, first.payload, second.payload)
    requires WriteEvent(cfg, db, first).1.Ok?
    requires WriteEvent(cfg, db, first).0.events <= later.events
    ensures first.key == second.key
    ensures WriteEvent(cfg, later, second) == (later, Ok(Written(WriteEvent(cfg, db, first).1.value.record, true)))
  {
    WriteOutcome(cfg, db, first);
    ReplayOrConflict(cfg, db, first, later, second);
  }

  // ---- the same write, in place ----

  /** A connection's view of the tables inside its transaction. */
  class Connection {
    var db: Db

    constructor (db: Db)
      ensures this.db == db
    {
      this.db := db;
    }
  }

  class EventWriter {
    const conn: Connection
    const cfg: Config

    constructor (conn: Connection, cfg: Config)
      ensures this.conn == conn && this.cfg == cfg
    {
      this.conn := conn;
      this.cfg := cfg;
    }

    method FindExisting(eventType: string, actor: string, key: string) returns (found: Option<Event>)
      ensures found == var i := Find(conn.db.events, eventType, actor, key);
                       if i < |conn.db.events| then Some(conn.db.events[i]) else None
    {
      var i := Find(conn.db.events, eventType, actor, key);
      if i < |conn.db.events| {
        return Some(conn.db.events[i]);
      }
      return None;
    }

    method Write(req: WriteRequest) returns (r: Result<Written, WriteError>)
      requires WellFormed(cfg, conn.db)
      modifies conn
      ensures (conn.db, r) == WriteEvent(cfg, old(conn.db), req)
      ensures WellFormed(cfg, conn.db)
      ensures r.Ok? && !r.value.replay ==>
                Records(cfg, old(conn.db), req, r.value.record) && conn.db.events == old(conn.db.events) + [r.value.record]
    {
      WriteKeepsWellFormed(cfg, conn.db, req);
      FreshOutcome(cfg, conn.db, req);
      if req.eventType !in cfg.specs {
        return Err(UnknownEventType);
      }
      if !cfg.actorOk(req.actor) {
        return Err(BadActor);
      }
      var key := req.key;
      if key.Some? {
        key := cfg.cleanKey(key.value);
        if key.None? {
          return Err(BadKey);
        }
      }
      if key.None? && !req.allowNoKey {
        return Err(MissingKey);
      }
      if key.Some? {
        var existing := FindExisting(req.eventType, req.actor, key.value);
        if existing.Some? {
          var verdict := PayloadsEquivalent(cfg.specs, req.eventType, existing.value.payload, req.payload);
          if verdict.Err? {
            return Err(UncomparablePayload);
          }
          if !verdict.value.0 {
            return Err(Conflict(existing.value.id));
          }
          return Ok(Written(existing.value, true));
        }
      }
      if Canonicalize(cfg.specs, req.eventType, req.payload).Err? {
        return Err(UncomparablePayload);
      }
      var eventId := |conn.db.events| + 1;
      var row := Event(eventId, req.eventType, req.subject, req.payload, req.actor, key, req.now,
                       req.requestId, req.origin, conn.db.exportEnabled);
      conn.db := conn.db.(events := conn.db.events + [row]);
      if conn.db.exportEnabled {
        conn.db := conn.db.(outbox := conn.db.outbox + [Queued(|conn.db.outbox| + 1, eventId)]);
      }
      return Ok(Written(row, false));
    }
  }
}
