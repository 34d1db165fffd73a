/** One SQLite transaction per unit of work (src/trade_trace/events/unit_of_work.py).

    The journal file has one writer lock, taken up front by `BEGIN IMMEDIATE`.  Leaving the
    block runs the registered projection updaters and then commits, or rolls back under the
    dry-run flag; an exception on the way rolls back. */
module UnitsOfWork {
  import opened Outcomes
  import opened SemanticKeys
  import opened EventLog

  /** The journal file and the tables as its current writer sees them. */
  datatype Store = Store(committed: Db, writer: Option<nat>, working: Db)

  /** `None` when the updater raises. */
  type Updater = map<string, Json> -> Option<map<string, Json>>

  function RunUpdaters(tables: map<string, Json>, updaters: seq<Updater>): Option<map<string, Json>>
    decreases |updaters|
  {
    if updaters == [] then Some(tables)
    else
      match updaters[0](tables)
      case None => None
      case Some(next) => RunUpdaters(next, updaters[1..])
  }

  /** Each updater, in order of registration, turned one stage into the next. */
  predicate AreStages(stages: seq<map<string, Json>>, tables: map<string, Json>, updaters: seq<Updater>) {
    && 0 < |stages| <= |updaters| + 1 && stages[0] == tables
    && forall i :: 0 <= i < |stages| - 1 ==> updaters[i](stages[i]) == Some(stages[i + 1])
  }

  /** The updaters run one after the other, each on what the ones before it made of the tables,
      up to the first that raises. */
  lemma {:induction false} UpdatersRunInOrder(tables: map<string, Json>, updaters: seq<Updater>) returns (stages: seq<map<string, Json>>)
    ensures AreStages(stages, tables, updaters)
    ensures RunUpdaters(tables, updaters).Some? <==> |stages| == |updaters| + 1
    ensures RunUpdaters(tables, updaters).Some? ==> RunUpdaters(tables, updaters).value == stages[|updaters|]
    ensures RunUpdaters(tables, updaters).None? ==> updaters[|stages| - 1](stages[|stages| - 1]) == None
    decreases |updaters|
  {
    stages := [tables];
    if updaters != [] && updaters[0](tables).Some? {
      var rest := UpdatersRunInOrder(updaters[0](tables).value, updaters[1..]);
      stages := [tables] + rest;
      forall i | 0 <= i < |stages| - 1 ensures updaters[i](stages[i]) == Some(stages[i + 1]) {
        assert i > 0 ==> updaters[i] == updaters[1..][i - 1];
      }
    }
  }

  /** `BEGIN IMMEDIATE`; false when another connection holds the lock past the busy timeout. */
  function BeginTxn(st: Store, me: nat): (Store, bool) {
    if st.writer.Some? then (st, false)
    else (Store(st.committed, Some(me), st.committed), true)
  }

  function RollbackTxn(st: Store): Store {
    Store(st.committed, None, st.committed)
  }

  /** Leaving the block; true when it raises.  `commitFails` says whether a COMMIT would raise. */
  function ExitTxn(st: Store, updaters: seq<Updater>, raised: bool, dryRun: bool, commitFails: bool): (Store, bool) {
    if raised then (RollbackTxn(st), true)
    else
      match RunUpdaters(st.working.tables, updaters)
      case None => (RollbackTxn(st), true)
      case Some(tables) =>
        if dryRun then (RollbackTxn(st), false)
        else if commitFails then (RollbackTxn(st), true)
        else
          var db := st.working.(tables := tables);
          (Store(db, None, db), false)
  }

  /** Leaving the block always frees the lock and leaves one set of tables to everybody.  They are
      the working tables, log and outbox included, as the updaters left them, exactly when nothing
      raised and it was no dry run, and else what they were before; only a dry run does not raise
      without committing. */
  lemma ExitIs(st: Store, updaters: seq<Updater>, raised: bool, dryRun: bool, commitFails: bool)
    ensures var (after, raises) := ExitTxn(st, updaters, raised, dryRun, commitFails);
            var updated := RunUpdaters(st.working.tables, updaters);
            && after.writer == None && after.working == after.committed
            && (raises <==> raised || updated.None? || (commitFails && !dryRun))
            && (raises || dryRun ==> after.committed == st.committed)
            && (!raises && !dryRun ==>
                  && after.committed.events == st.working.events && after.committed.outbox == st.working.outbox
                  && after.committed.exportEnabled == st.working.exportEnabled && after.committed.tables == updated.value)
  {
  }

  /** The database file shared by every connection. */
  class JournalFile {
    var committed: Db
    var writer: Option<nat>

    constructor (db: Db)
      ensures committed == db && writer == None
    {
      committed, writer := db, None;
    }
  }

  class UnitOfWork {
    const file: JournalFile
    const conn: Connection
    const eventWriter: EventWriter
    const me: nat
    var projections: seq<Updater>

    constructor (file: JournalFile, conn: Connection, cfg: Config, me: nat)
      ensures this.file == file && this.conn == conn && this.me == me
      ensures eventWriter.conn == conn && eventWriter.cfg == cfg && projections == []
    {
      this.file, this.conn, this.me := file, conn, me;
      this.eventWriter := new EventWriter(conn, cfg);
      projections := [];
    }

    /** The shared store as seen while this unit of work is the one running. */
    function State(): Store
      reads file, conn
    {
      Store(file.committed, file.writer, conn.db)
    }

    method RegisterProjection(updater: Updater)
      modifies this
      ensures projections == old(projections) + [updater]
    {
      projections := projections + [updater];
    }

    /** `__enter__`. */
    method Enter() returns (ok: bool)
      modifies file, conn
      ensures (State(), ok) == BeginTxn(old(State()), me)
    {
      if file.writer.Some? {
        return false;
      }
      file.writer := Some(me);
      conn.db := file.committed;
      return true;
    }

    method Rollback()
      modifies file, conn
      ensures State() == RollbackTxn(old(State()))
    {
      conn.db := file.committed;
      file.writer := None;
    }

    /** `_commit`, up to the exception that `__exit__` turns into a rollback. */
    method Commit(dryRun: bool, commitFails: bool) returns (raised: bool)
      modifies file, conn
      ensures raised <==> RunUpdaters(old(conn.db.tables), projections).None? || (!dryRun && commitFails)
      ensures !raised ==> State() == ExitTxn(old(State()), projections, false, dryRun, commitFails).0
      ensures raised ==> file.committed == old(file.committed)
    {
      for i := 0 to |projections|
        invariant unchanged(file)
        invariant conn.db == old(conn.db).(tables := conn.db.tables)
        invariant RunUpdaters(conn.db.tables, projections[i..]) == RunUpdaters(old(conn.db.tables), projections)
      {
        var next := projections[i](conn.db.tables);
        assert projections[i..][1..] == projections[i + 1..];
        if next.None? {
          return true;
        }
        conn.db := conn.db.(tables := next.value);
      }
      if dryRun {
        Rollback();
      } else if commitFails {
        return true;
      } else {
        file.committed := conn.db;
        file.writer := None;
      }
      return false;
    }

    /** `__exit__`: the tables end as the specification says, whatever raised. */
    method Exit(excRaised: bool, dryRun: bool, commitFails: bool) returns (raised: bool)
      modifies file, conn
      ensures (State(), raised) == ExitTxn(old(State()), projections, excRaised, dryRun, commitFails)
    {
      if excRaised {
        Rollback();
        return true;
      }
      raised := Commit(dryRun, commitFails);
      if raised {
        Rollback();
      }
    }
  }
}
