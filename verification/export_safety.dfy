/** What the exporter keeps over whole runs, with a crash possible between any two steps. */
module ExportSafety {
  import opened Outcomes
  import opened Orders
  import opened Outbox
  import opened SemanticKeys
  import opened ExportPaths
  import opened Exporting

  // ---- the invariant ----

  ghost predicate HasFile(cal: Calendar, w: World, id: nat) {
    var file := FileOf(cal, w.events, id);
    file.Some? && file.value.0 in w.files && w.files[file.value.0] == Whole(file.value.1)
  }

  ghost predicate IsFileOf(cal: Calendar, w: World, p: Path, id: nat) {
    HasFile(cal, w, id) && FileOf(cal, w.events, id).value.0 == p
  }

  ghost predicate UniqueEvents(events: seq<StoredEvent>) {
    forall i, j :: 0 <= i < j < |events| ==> events[i].id != events[j].id
  }

  ghost predicate UniqueRows(outbox: seq<OutboxRow>) {
    forall i, j :: 0 <= i < j < |outbox| ==> outbox[i].id != outbox[j].id
  }

  /** Every file is debris or the whole line of an event. */
  ghost predicate FilesGood(cal: Calendar, w: World) {
    forall p :: p in w.files && !IsTmp(p) ==> exists id :: IsFileOf(cal, w, p, id)
  }

  ghost predicate RowGood(cal: Calendar, w: World, row: OutboxRow) {
    row.kind == JSONL && row.state.Exported? ==> HasFile(cal, w, row.eventId)
  }

  /** Every exported row has its file. */
  ghost predicate RowsGood(cal: Calendar, w: World) {
    forall row :: row in w.outbox ==> RowGood(cal, w, row)
  }

  ghost predicate Good(cal: Calendar, w: World) {
    UniqueEvents(w.events) && UniqueRows(w.outbox) && FilesGood(cal, w) && RowsGood(cal, w)
  }

  /** A committed file holds the line of exactly one event. */
  lemma CommittedFileIsOneEvent(cal: Calendar, w: World, p: Path)
    requires Good(cal, w) && p in w.files && !IsTmp(p)
    ensures exists id :: IsFileOf(cal, w, p, id) && forall other :: IsFileOf(cal, w, p, other) ==> other == id
  {
    var id :| IsFileOf(cal, w, p, id);
    forall other | IsFileOf(cal, w, p, other) ensures other == id {
      FilesAreDistinct(cal, w.events, id, other);
    }
  }

  /** The committed file of an event, said without the exporter: in the directory of its day,
      under its name, one whole line that tells it. */
  ghost predicate Committed(cal: Calendar, w: World, e: StoredEvent) {
    && cal(e.createdAt).Some?
    && var p := Path(cal(e.createdAt).value, FileName(e.eventType, e.id));
       p in w.files && w.files[p].Whole? && Tells(w.files[p].line, e)
  }

  /** An event that can be exported: its payload is an object and its time has a day. */
  ghost predicate Exportable(cal: Calendar, e: StoredEvent) {
    e.payload.Decoded? && e.payload.json.Obj? && cal(e.createdAt).Some?
  }

  lemma FindIn(events: seq<StoredEvent>, e: StoredEvent)
    requires UniqueEvents(events) && e in events
    ensures Find(events, e.id) == Some(e)
  {
    FindFacts(events, e.id);
    var found := Find(events, e.id).value;
    var i :| 0 <= i < |events| && events[i] == e;
    var j :| 0 <= j < |events| && events[j] == found;
  }

  lemma CommittedIff(cal: Calendar, w: World, e: StoredEvent)
    requires UniqueEvents(w.events) && e in w.events
    ensures HasFile(cal, w, e.id) <==> Committed(cal, w, e)
    ensures FileOf(cal, w.events, e.id).Some? <==> Exportable(cal, e)
  {
    FindIn(w.events, e);
    LineTells(e);
  }

  /** Every committed file is that of one recorded event, and tells it. */
  lemma CommittedFileTells(cal: Calendar, w: World, p: Path)
    requires Good(cal, w) && p in w.files && !IsTmp(p)
    ensures exists e :: e in w.events && Committed(cal, w, e) && p == Path(cal(e.createdAt).value, FileName(e.eventType, e.id))
  {
    var id :| IsFileOf(cal, w, p, id);
    FindFacts(w.events, id);
    var e := Find(w.events, id).value;
    CommittedIff(cal, w, e);
  }

  // ---- what one step of a drain does ----

  /** Files that other events own, and the row's own file if there, are as before. */
  ghost predicate CommittedKept(before: World, after: World) {
    forall p :: p in before.files && !IsTmp(p) ==> p in after.files && after.files[p] == before.files[p]
  }

  lemma WriteLineEffect(files: map<Path, Content>, final: Path, line: Line, fault: Fault)
    requires !IsTmp(final) && IsTmp(TmpOf(final))
    ensures var (after, verdict) := WriteLine(files, final, line, fault);
            && (forall p :: !IsTmp(p) && p != final ==> (p in after <==> p in files) && (p in files ==> after[p] == files[p]))
            && ((final in after && after[final] == Whole(line)) || ((final in after <==> final in files) && (final in files ==> after[final] == files[final])))
            && (verdict.Done? ==> final in after && after[final] == Whole(line) && TmpOf(final) !in after)
            && verdict == (if fault.NoFault? then Done else if fault.CrashAt? || fault.at.Marking? then Died else Refused(IoError))
  {
  }

  /** A row that is done has committed the file that tells its event. */
  lemma DoneCommits(cal: Calendar, w: World, row: OutboxRow, fault: Fault, e: StoredEvent)
    requires UniqueEvents(w.events) && e in w.events && e.id == row.eventId
    requires DrainRow(cal, w, row, fault).1.Done?
    ensures Committed(cal, DrainRow(cal, w, row, fault).0, e)
  {
    FindIn(w.events, e);
    LineTells(e);
    FilesAreDistinct(cal, w.events, row.eventId, row.eventId);
    var file := FileOf(cal, w.events, row.eventId).value;
    WriteLineEffect(w.files, file.0, file.1, fault);
  }

  lemma FileIsOwn(cal: Calendar, w: World, id: nat)
    requires FilesGood(cal, w) && FileOf(cal, w.events, id).Some? && FileOf(cal, w.events, id).value.0 in w.files
    ensures HasFile(cal, w, id)
  {
    var p := FileOf(cal, w.events, id).value.0;
    FilesAreDistinct(cal, w.events, id, id);
    var other :| IsFileOf(cal, w, p, other);
    FilesAreDistinct(cal, w.events, id, other);
  }

  lemma OtherFiles(cal: Calendar, w: World, row: OutboxRow, fault: Fault, id: nat)
    requires id != row.eventId
    ensures HasFile(cal, DrainRow(cal, w, row, fault).0, id) <==> HasFile(cal, w, id)
  {
    var file := FileOf(cal, w.events, row.eventId);
    if file.Some? && FileOf(cal, w.events, id).Some? {
      FilesAreDistinct(cal, w.events, row.eventId, row.eventId);
      FilesAreDistinct(cal, w.events, id, row.eventId);
      WriteLineEffect(w.files, file.value.0, file.value.1, fault);
    }
  }

  lemma OwnFile(cal: Calendar, w: World, row: OutboxRow, fault: Fault)
    requires FilesGood(cal, w)
    ensures var (after, verdict) := DrainRow(cal, w, row, fault);
            && after.events == w.events && CommittedKept(w, after)
            && (verdict.Done? ==> HasFile(cal, after, row.eventId))
            && (HasFile(cal, w, row.eventId) ==> HasFile(cal, after, row.eventId))
  {
    var file := FileOf(cal, w.events, row.eventId);
    if file.Some? {
      FilesAreDistinct(cal, w.events, row.eventId, row.eventId);
      WriteLineEffect(w.files, file.value.0, file.value.1, fault);
      if file.value.0 in w.files {
        FileIsOwn(cal, w, row.eventId);
      }
    }
  }

  /** The files after one row: nothing committed is lost or altered, and at most this row's
      event gains its file. */
  lemma RowFiles(cal: Calendar, w: World, row: OutboxRow, fault: Fault)
    requires FilesGood(cal, w)
    ensures var (after, verdict) := DrainRow(cal, w, row, fault);
            && after.events == w.events && CommittedKept(w, after)
            && (verdict.Done? ==> HasFile(cal, after, row.eventId))
    ensures forall id :: id != row.eventId ==> (HasFile(cal, DrainRow(cal, w, row, fault).0, id) <==> HasFile(cal, w, id))
    ensures HasFile(cal, w, row.eventId) ==> HasFile(cal, DrainRow(cal, w, row, fault).0, row.eventId)
  {
    OwnFile(cal, w, row, fault);
    forall id | id != row.eventId
      ensures HasFile(cal, DrainRow(cal, w, row, fault).0, id) <==> HasFile(cal, w, id)
    {
      OtherFiles(cal, w, row, fault, id);
    }
  }

  lemma RowFilesGood(cal: Calendar, w: World, row: OutboxRow, fault: Fault)
    requires FilesGood(cal, w)
    ensures FilesGood(cal, DrainRow(cal, w, row, fault).0)
  {
    var after := DrainRow(cal, w, row, fault).0;
    RowFiles(cal, w, row, fault);
    var file := FileOf(cal, w.events, row.eventId);
    if file.Some? {
      FilesAreDistinct(cal, w.events, row.eventId, row.eventId);
      WriteLineEffect(w.files, file.value.0, file.value.1, fault);
    }
    forall p | p in after.files && !IsTmp(p) ensures exists id :: IsFileOf(cal, after, p, id) {
      if p in w.files {
        var id :| IsFileOf(cal, w, p, id);
        assert IsFileOf(cal, after, p, id);
      } else {
        assert IsFileOf(cal, after, p, row.eventId);
      }
    }
  }

  /** An update never changes which rows there are. */
  ghost predicate SameRows(a: seq<OutboxRow>, b: seq<OutboxRow>) {
    |a| == |b| && forall k :: 0 <= k < |a| ==> a[k].id == b[k].id && a[k].eventId == b[k].eventId && a[k].kind == b[k].kind
  }

  /** `row`, as it was when the queue was read, is a row of this outbox. */
  ghost predicate Listed(outbox: seq<OutboxRow>, row: OutboxRow) {
    exists k :: 0 <= k < |outbox| && outbox[k].id == row.id && outbox[k].eventId == row.eventId && outbox[k].kind == row.kind
  }

  lemma ListedSameRows(a: seq<OutboxRow>, b: seq<OutboxRow>, row: OutboxRow)
    requires SameRows(a, b) && Listed(a, row)
    ensures Listed(b, row)
  {
    var k :| 0 <= k < |a| && a[k].id == row.id && a[k].eventId == row.eventId && a[k].kind == row.kind;
    assert b[k].id == row.id;
  }

  /** One row's update: only rows with its id change, and they become exported only if the
      file was written. */
  lemma RowOutbox(cal: Calendar, w: World, row: OutboxRow, fault: Fault)
    ensures SameRows(w.outbox, DrainRow(cal, w, row, fault).0.outbox)
    ensures var (after, verdict) := DrainRow(cal, w, row, fault);
            forall i :: 0 <= i < |w.outbox| ==>
              after.outbox[i] == w.outbox[i] || (w.outbox[i].id == row.id && (after.outbox[i].state.Exported? ==> verdict.Done?))
  {
  }

  lemma RowKeepsRowsGood(cal: Calendar, w: World, after: World, row: OutboxRow, done: bool)
    requires UniqueRows(w.outbox) && RowsGood(cal, w) && Listed(w.outbox, row)
    requires SameRows(w.outbox, after.outbox)
    requires forall i :: 0 <= i < |w.outbox| ==>
               after.outbox[i] == w.outbox[i] || (w.outbox[i].id == row.id && (after.outbox[i].state.Exported? ==> done))
    requires done ==> HasFile(cal, after, row.eventId)
    requires forall id :: HasFile(cal, w, id) ==> HasFile(cal, after, id)
    ensures RowsGood(cal, after)
  {
    var k :| 0 <= k < |w.outbox| && w.outbox[k].id == row.id && w.outbox[k].eventId == row.eventId;
    forall r | r in after.outbox ensures RowGood(cal, after, r) {
      var i :| 0 <= i < |after.outbox| && after.outbox[i] == r;
      assert RowGood(cal, w, w.outbox[i]);
      assert w.outbox[i].id == row.id ==> i == k;
    }
  }

  lemma RowKeepsGood(cal: Calendar, w: World, row: OutboxRow, fault: Fault)
    requires Good(cal, w) && Listed(w.outbox, row)
    ensures Good(cal, DrainRow(cal, w, row, fault).0)
    ensures SameRows(w.outbox, DrainRow(cal, w, row, fault).0.outbox)
  {
    var (after, verdict) := DrainRow(cal, w, row, fault);
    RowFiles(cal, w, row, fault);
    RowFilesGood(cal, w, row, fault);
    RowOutbox(cal, w, row, fault);
    RowKeepsRowsGood(cal, w, after, row, verdict.Done?);
    assert UniqueRows(after.outbox) by {
      forall i, j | 0 <= i < j < |after.outbox| ensures after.outbox[i].id != after.outbox[j].id {
        assert w.outbox[i].id != w.outbox[j].id;
      }
    }
  }

  // ---- whole drains ----

  ghost predicate Queued(w: World, id: nat) {
    exists k :: 0 <= k < |w.outbox| && w.outbox[k].eventId == id && w.outbox[k].kind == JSONL
  }

  /** The event has its file or is exportable and on the queue: it will have one. */
  ghost predicate Owed(cal: Calendar, w: World, id: nat) {
    HasFile(cal, w, id) || (FileOf(cal, w.events, id).Some? && Queued(w, id))
  }

  /** One world is a later stage of a drain of the other. */
  ghost predicate Drained(cal: Calendar, before: World, after: World) {
    && Good(cal, after) && after.events == before.events
    && SameRows(before.outbox, after.outbox) && CommittedKept(before, after)
    && (forall id :: HasFile(cal, before, id) ==> HasFile(cal, after, id))
    && (forall id :: HasFile(cal, after, id) ==> Owed(cal, before, id))
  }

  ghost predicate AllQueued(w: World, rows: seq<OutboxRow>) {
    forall row :: row in rows ==> Listed(w.outbox, row) && row.kind == JSONL
  }

  lemma RowDrained(cal: Calendar, w: World, row: OutboxRow, fault: Fault)
    requires Good(cal, w) && Listed(w.outbox, row) && row.kind == JSONL
    ensures Drained(cal, w, DrainRow(cal, w, row, fault).0)
  {
    RowFiles(cal, w, row, fault);
    RowKeepsGood(cal, w, row, fault);
    assert Queued(w, row.eventId);
    var after := DrainRow(cal, w, row, fault).0;
    forall id | HasFile(cal, after, id) ensures Owed(cal, w, id) {
    }
  }

  lemma QueuedSameRows(a: World, b: World, id: nat)
    requires SameRows(a.outbox, b.outbox)
    ensures Queued(a, id) <==> Queued(b, id)
  {
    if Queued(a, id) {
      var k :| 0 <= k < |a.outbox| && a.outbox[k].eventId == id && a.outbox[k].kind == JSONL;
      assert b.outbox[k].eventId == id;
    }
    if Queued(b, id) {
      var k :| 0 <= k < |b.outbox| && b.outbox[k].eventId == id && b.outbox[k].kind == JSONL;
      assert a.outbox[k].eventId == id;
    }
  }

  lemma DrainedThen(cal: Calendar, a: World, b: World, c: World)
    requires Drained(cal, a, b) && Drained(cal, b, c)
    ensures Drained(cal, a, c)
  {
    forall id | HasFile(cal, c, id) ensures Owed(cal, a, id) {
      assert Owed(cal, b, id);
      QueuedSameRows(a, b, id);
    }
  }

  lemma {:induction false} DrainToDrained(cal: Calendar, w: World, rows: seq<OutboxRow>, faults: Faults, n: nat)
    requires n <= |rows| && Good(cal, w) && AllQueued(w, rows)
    ensures Drained(cal, w, DrainTo(cal, w, rows, faults, n).world)
  {
    if n > 0 {
      DrainToDrained(cal, w, rows, faults, n - 1);
      var before := DrainTo(cal, w, rows, faults, n - 1);
      if !before.died {
        ListedSameRows(w.outbox, before.world.outbox, rows[n - 1]);
        RowDrained(cal, before.world, rows[n - 1], faults(n - 1));
        DrainedThen(cal, w, before.world, DrainRow(cal, before.world, rows[n - 1], faults(n - 1)).0);
      }
    }
  }

  lemma SweepIsHarmless(cal: Calendar, w: World, aged: set<Path>)
    requires Good(cal, w)
    ensures Drained(cal, w, w.(files := Swept(w.files, aged)))
  {
    var swept := w.(files := Swept(w.files, aged));
    forall id ensures HasFile(cal, swept, id) <==> HasFile(cal, w, id) {
      if FileOf(cal, w.events, id).Some? {
        FilesAreDistinct(cal, w.events, id, id);
      }
    }
    forall p | p in swept.files && !IsTmp(p) ensures exists id :: IsFileOf(cal, swept, p, id) {
      var id :| IsFileOf(cal, w, p, id);
      assert IsFileOf(cal, swept, p, id);
    }
    forall row | row in w.outbox ensures RowGood(cal, swept, row) {
      assert RowGood(cal, w, row);
    }
  }

  lemma QueueIsListed(w: World)
    ensures AllQueued(w, Queue(w.outbox))
  {
    QueueMembers(w.outbox);
    forall row | row in Queue(w.outbox) ensures Listed(w.outbox, row) {
      var k :| 0 <= k < |w.outbox| && w.outbox[k] == row;
    }
  }

  /** Whatever goes wrong during a drain: the invariant holds, committed files are untouched,
      no row appears or disappears, and only queued events gain a file. */
  lemma DrainIsSafe(cal: Calendar, w: World, aged: set<Path>, faults: Faults)
    requires Good(cal, w)
    ensures Drained(cal, w, Drain(cal, w, aged, faults).world)
  {
    var swept := w.(files := Swept(w.files, aged));
    SweepIsHarmless(cal, w, aged);
    QueueIsListed(swept);
    DrainToDrained(cal, swept, Queue(w.outbox), faults, |Queue(w.outbox)|);
    DrainedThen(cal, w, swept, Drain(cal, w, aged, faults).world);
  }

  // ---- runs ----

  /** `Commit` is any transaction of a writer; `Rewind` re-marks rows pending, as restoring a
      backup does. */
  datatype Step =
    | RunDrain(aged: set<Path>, faults: Faults)
    | Commit(event: StoredEvent, queued: Option<OutboxRow>)
    | Rewind(ids: set<nat>)

  ghost predicate Enabled(w: World, step: Step) {
    match step
    case RunDrain(_, _) => true
    case Rewind(_) => true
    case Commit(event, queued) =>
      (forall e :: e in w.events ==> e.id != event.id)
      && (queued.Some? ==> queued.value.state.Pending? && forall r :: r in w.outbox ==> r.id != queued.value.id)
  }

  ghost function Apply(cal: Calendar, w: World, step: Step): World {
    match step
    case RunDrain(aged, faults) => Drain(cal, w, aged, faults).world
    case Commit(event, queued) =>
      w.(events := w.events + [event], outbox := if queued.Some? then w.outbox + [queued.value] else w.outbox)
    case Rewind(ids) => w.(outbox := Rewound(w.outbox, ids))
  }

  function Rewound(outbox: seq<OutboxRow>, ids: set<nat>): (r: seq<OutboxRow>)
    ensures |r| == |outbox|
    ensures forall i :: 0 <= i < |r| ==> r[i] == if outbox[i].id in ids then outbox[i].(state := Pending) else outbox[i]
  {
    seq(|outbox|, i requires 0 <= i < |outbox| => if outbox[i].id in ids then outbox[i].(state := Pending) else outbox[i])
  }

  ghost predicate IsRun(cal: Calendar, w: World, steps: seq<Step>)
    decreases |steps|
  {
    steps == [] || (Enabled(w, steps[0]) && IsRun(cal, Apply(cal, w, steps[0]), steps[1..]))
  }

  ghost function After(cal: Calendar, w: World, steps: seq<Step>): World
    decreases |steps|
  {
    if steps == [] then w else After(cal, Apply(cal, w, steps[0]), steps[1..])
  }

  lemma CommitKeepsFiles(cal: Calendar, w: World, event: StoredEvent, id: nat)
    requires forall e :: e in w.events ==> e.id != event.id
    requires HasFile(cal, w, id)
    ensures HasFile(cal, w.(events := w.events + [event]), id)
  {
    FindAppend(w.events, event, id);
  }

  lemma CommitIsSafe(cal: Calendar, w: World, event: StoredEvent, queued: Option<OutboxRow>)
    requires Good(cal, w) && Enabled(w, Commit(event, queued))
    ensures Good(cal, Apply(cal, w, Commit(event, queued)))
  {
    var after := Apply(cal, w, Commit(event, queued));
    forall id | HasFile(cal, w, id) ensures HasFile(cal, after, id) {
      CommitKeepsFiles(cal, w, event, id);
    }
    forall p | p in after.files && !IsTmp(p) ensures exists id :: IsFileOf(cal, after, p, id) {
      var id :| IsFileOf(cal, w, p, id);
      FindAppend(w.events, event, id);
      assert IsFileOf(cal, after, p, id);
    }
    forall row | row in after.outbox ensures RowGood(cal, after, row) {
      assert row in w.outbox ==> RowGood(cal, w, row);
    }
  }

  lemma RewindIsSafe(cal: Calendar, w: World, ids: set<nat>)
    requires Good(cal, w)
    ensures Good(cal, w.(outbox := Rewound(w.outbox, ids)))
  {
    var after := w.(outbox := Rewound(w.outbox, ids));
    forall p | p in after.files && !IsTmp(p) ensures exists id :: IsFileOf(cal, after, p, id) {
      var id :| IsFileOf(cal, w, p, id);
      assert IsFileOf(cal, after, p, id);
    }
    forall row | row in after.outbox ensures RowGood(cal, after, row) {
      var i :| 0 <= i < |after.outbox| && after.outbox[i] == row;
      assert RowGood(cal, w, w.outbox[i]);
    }
  }

  /** The safety of the exporter.  In every run of drains - each free to crash anywhere -
      commits and restores: every committed file is the whole line of exactly one event, every
      exported row has its file, and a committed file is never lost or changed. */
  lemma {:induction false} RunIsSafe(cal: Calendar, w: World, steps: seq<Step>)
    requires Good(cal, w) && IsRun(cal, w, steps)
    ensures Good(cal, After(cal, w, steps)) && CommittedKept(w, After(cal, w, steps))
    decreases |steps|
  {
    if steps != [] {
      var next := Apply(cal, w, steps[0]);
      match steps[0] {
        case RunDrain(aged, faults) => DrainIsSafe(cal, w, aged, faults);
        case Commit(event, queued) => CommitIsSafe(cal, w, event, queued);
        case Rewind(ids) => RewindIsSafe(cal, w, ids);
      }
      RunIsSafe(cal, next, steps[1..]);
    }
  }

  // ---- a drain in which nothing goes wrong ----

  /** What a row comes to: exported with its file, or failed with the reason. */
  ghost predicate Settled(cal: Calendar, w: World, row: OutboxRow) {
    row.state == if FileOf(cal, w.events, row.eventId).Some? then Exported else Failed
  }

  ghost predicate SettledBut(cal: Calendar, w: World, rest: seq<OutboxRow>) {
    forall row :: row in w.outbox && row.kind == JSONL ==> Settled(cal, w, row) || exists r :: r in rest && r.id == row.id
  }

  /** A row without faults is settled, whatever state it was in; other rows stay. */
  lemma CleanRowEffect(cal: Calendar, w: World, row: OutboxRow, i: nat)
    requires i < |w.outbox| && (w.outbox[i].id == row.id ==> w.outbox[i].eventId == row.eventId)
    ensures var (after, verdict) := DrainRow(cal, w, row, NoFault);
            && !verdict.Died? && |after.outbox| == |w.outbox| && after.events == w.events
            && after.outbox[i].id == w.outbox[i].id && after.outbox[i].kind == w.outbox[i].kind
            && (if w.outbox[i].id == row.id then Settled(cal, after, after.outbox[i]) else after.outbox[i] == w.outbox[i])
  {
  }

  lemma CleanRowSettles(cal: Calendar, w: World, row: OutboxRow, rest: seq<OutboxRow>)
    requires UniqueRows(w.outbox) && Listed(w.outbox, row)
    requires SettledBut(cal, w, [row] + rest)
    ensures SettledBut(cal, DrainRow(cal, w, row, NoFault).0, rest)
    ensures !DrainRow(cal, w, row, NoFault).1.Died?
  {
    var after := DrainRow(cal, w, row, NoFault).0;
    var at :| 0 <= at < |w.outbox| && w.outbox[at].id == row.id && w.outbox[at].eventId == row.eventId;
    CleanRowEffect(cal, w, row, at);
    forall r | r in after.outbox && r.kind == JSONL
      ensures Settled(cal, after, r) || exists other :: other in rest && other.id == r.id
    {
      var i :| 0 <= i < |after.outbox| && after.outbox[i] == r;
      assert w.outbox[i].id == row.id ==> i == at;
      CleanRowEffect(cal, w, row, i);
      StillOwed(cal, w, row, rest, i);
    }
  }

  lemma StillOwed(cal: Calendar, w: World, row: OutboxRow, rest: seq<OutboxRow>, i: nat)
    requires i < |w.outbox| && w.outbox[i].kind == JSONL && SettledBut(cal, w, [row] + rest)
    ensures w.outbox[i].id == row.id || Settled(cal, w, w.outbox[i]) || exists other :: other in rest && other.id == w.outbox[i].id
  {
    assert w.outbox[i] in w.outbox;
    if !Settled(cal, w, w.outbox[i]) {
      var other :| other in [row] + rest && other.id == w.outbox[i].id;
    }
  }

  lemma CleanStep(cal: Calendar, w: World, rows: seq<OutboxRow>, n: nat)
    requires 0 < n <= |rows| && !DrainTo(cal, w, rows, CLEAN, n - 1).died
    ensures var row := DrainRow(cal, DrainTo(cal, w, rows, CLEAN, n - 1).world, rows[n - 1], NoFault);
            DrainTo(cal, w, rows, CLEAN, n).world == row.0 && DrainTo(cal, w, rows, CLEAN, n).died == row.1.Died?
  {
  }

  ghost predicate CleanTo(cal: Calendar, w: World, rows: seq<OutboxRow>, n: nat)
    requires n <= |rows|
  {
    var end := DrainTo(cal, w, rows, CLEAN, n);
    !end.died && SettledBut(cal, end.world, rows[n..])
  }

  lemma CleanToStep(cal: Calendar, w: World, rows: seq<OutboxRow>, n: nat)
    requires 0 < n <= |rows| && Good(cal, w) && AllQueued(w, rows) && CleanTo(cal, w, rows, n - 1)
    ensures CleanTo(cal, w, rows, n)
  {
    DrainToDrained(cal, w, rows, CLEAN, n - 1);
    CleanStepSettles(cal, w, DrainTo(cal, w, rows, CLEAN, n - 1).world, rows, n);
    CleanStep(cal, w, rows, n);
  }

  lemma {:induction false} CleanDrainSettles(cal: Calendar, w: World, rows: seq<OutboxRow>, n: nat)
    requires n <= |rows| && Good(cal, w) && AllQueued(w, rows) && CleanTo(cal, w, rows, 0)
    ensures CleanTo(cal, w, rows, n)
  {
    if n > 0 {
      CleanDrainSettles(cal, w, rows, n - 1);
      CleanToStep(cal, w, rows, n);
    }
  }

  lemma CleanStepSettles(cal: Calendar, w: World, before: World, rows: seq<OutboxRow>, n: nat)
    requires 0 < n <= |rows| && AllQueued(w, rows) && Drained(cal, w, before) && SettledBut(cal, before, rows[n - 1..])
    ensures SettledBut(cal, DrainRow(cal, before, rows[n - 1], NoFault).0, rows[n..])
    ensures !DrainRow(cal, before, rows[n - 1], NoFault).1.Died?
  {
    ListedSameRows(w.outbox, before.outbox, rows[n - 1]);
    assert rows[n - 1..] == [rows[n - 1]] + rows[n..];
    CleanRowSettles(cal, before, rows[n - 1], rows[n..]);
  }

  /** After a drain without faults every row is settled: exportable events are exported, with
      their file, and only the others are marked failed. */
  lemma CleanDrainCompletes(cal: Calendar, w: World, aged: set<Path>)
    requires Good(cal, w)
    ensures var end := Drain(cal, w, aged, CLEAN);
            !end.died && forall row :: row in end.world.outbox && row.kind == JSONL ==> Settled(cal, end.world, row)
  {
    var swept, rows := w.(files := Swept(w.files, aged)), Queue(w.outbox);
    SweepIsHarmless(cal, w, aged);
    QueueIsListed(swept);
    QueueMembers(w.outbox);
    forall row | row in w.outbox && row.kind == JSONL
      ensures Settled(cal, swept, row) || exists r :: r in rows && r.id == row.id
    {
      assert RowGood(cal, w, row);
      assert !Drainable(row) ==> row.state.Exported?;
    }
    assert rows[0..] == rows;
    assert CleanTo(cal, swept, rows, 0);
    CleanDrainSettles(cal, swept, rows, |rows|);
    assert rows[|rows|..] == [];
  }

  /** Then exactly the events that were owed a file have one. */
  lemma CleanDrainPays(cal: Calendar, w: World, aged: set<Path>, id: nat)
    requires Good(cal, w)
    ensures HasFile(cal, Drain(cal, w, aged, CLEAN).world, id) <==> Owed(cal, w, id)
  {
    var end := Drain(cal, w, aged, CLEAN).world;
    DrainIsSafe(cal, w, aged, CLEAN);
    CleanDrainCompletes(cal, w, aged);
    if FileOf(cal, w.events, id).Some? && Queued(w, id) {
      QueuedSameRows(w, end, id);
      var k :| 0 <= k < |end.outbox| && end.outbox[k].eventId == id && end.outbox[k].kind == JSONL;
      assert end.outbox[k] in end.outbox;
      assert RowGood(cal, end, end.outbox[k]) && Settled(cal, end, end.outbox[k]);
    }
  }

  /** The same for an event, without the exporter: after a drain without faults its file is there
      exactly if it was there before, or the event can be exported and is queued. */
  lemma CleanDrainCommits(cal: Calendar, w: World, aged: set<Path>, e: StoredEvent)
    requires Good(cal, w) && e in w.events
    ensures Committed(cal, Drain(cal, w, aged, CLEAN).world, e)
       <==> Committed(cal, w, e)
            || (Exportable(cal, e) && exists row :: row in w.outbox && row.eventId == e.id && row.kind == "jsonl")
  {
    DrainIsSafe(cal, w, aged, CLEAN);
    CleanDrainPays(cal, w, aged, e.id);
    CommittedIff(cal, w, e);
    CommittedIff(cal, Drain(cal, w, aged, CLEAN).world, e);
    if row :| row in w.outbox && row.eventId == e.id && row.kind == "jsonl" {
      var k :| 0 <= k < |w.outbox| && w.outbox[k] == row;
      assert Queued(w, e.id);
    }
    if Queued(w, e.id) {
      var k :| 0 <= k < |w.outbox| && w.outbox[k].eventId == e.id && w.outbox[k].kind == JSONL;
      assert w.outbox[k] in w.outbox;
    }
  }

  ghost predicate OnDisk(cal: Calendar, p: Progress) {
    forall id :: id in p.exported ==> HasFile(cal, p.world, id)
  }

  lemma ReportStep(cal: Calendar, w: World, exported: seq<nat>, row: OutboxRow, fault: Fault)
    requires FilesGood(cal, w) && OnDisk(cal, Progress(w, exported, false))
    ensures var (after, verdict) := DrainRow(cal, w, row, fault);
            OnDisk(cal, Progress(after, if verdict.Done? then exported + [row.eventId] else exported, verdict.Died?))
  {
    RowFiles(cal, w, row, fault);
    var (after, verdict) := DrainRow(cal, w, row, fault);
    forall id | id in exported || (verdict.Done? && id == row.eventId) ensures HasFile(cal, after, id) {
      assert id in exported ==> HasFile(cal, w, id);
      assert id == row.eventId || (HasFile(cal, after, id) <==> HasFile(cal, w, id));
    }
  }

  /** One row takes a drain from one stage to the next. */
  ghost predicate IsNext(cal: Calendar, before: Progress, next: Progress, row: OutboxRow, fault: Fault) {
    next == if before.died then before
            else var (after, verdict) := DrainRow(cal, before.world, row, fault);
                 Progress(after, if verdict.Done? then before.exported + [row.eventId] else before.exported, verdict.Died?)
  }

  lemma NextProgress(cal: Calendar, w: World, rows: seq<OutboxRow>, faults: Faults, n: nat)
    requires n < |rows|
    ensures IsNext(cal, DrainTo(cal, w, rows, faults, n), DrainTo(cal, w, rows, faults, n + 1), rows[n], faults(n))
  {
  }

  lemma StillGood(cal: Calendar, w: World, rows: seq<OutboxRow>, faults: Faults, n: nat)
    requires n <= |rows| && Good(cal, w) && AllQueued(w, rows)
    ensures FilesGood(cal, DrainTo(cal, w, rows, faults, n).world)
  {
    DrainToDrained(cal, w, rows, faults, n);
  }

  lemma ReportNext(cal: Calendar, before: Progress, next: Progress, row: OutboxRow, fault: Fault)
    requires FilesGood(cal, before.world) && OnDisk(cal, before) && IsNext(cal, before, next, row, fault)
    ensures OnDisk(cal, next)
  {
    if !before.died {
      ReportStep(cal, before.world, before.exported, row, fault);
    }
  }

  ghost predicate StageOk(cal: Calendar, stages: seq<Progress>, rows: seq<OutboxRow>, faults: Faults, k: nat)
    requires k < |rows| && |stages| == |rows| + 1
  {
    FilesGood(cal, stages[k].world) && IsNext(cal, stages[k], stages[k + 1], rows[k], faults(k))
  }

  lemma {:induction false} ReportedStages(cal: Calendar, stages: seq<Progress>, rows: seq<OutboxRow>, faults: Faults, n: nat)
    requires n < |stages| == |rows| + 1 && OnDisk(cal, stages[0])
    requires forall k :: 0 <= k < |rows| ==> StageOk(cal, stages, rows, faults, k)
    ensures OnDisk(cal, stages[n])
  {
    if n > 0 {
      ReportedStages(cal, stages, rows, faults, n - 1);
      assert StageOk(cal, stages, rows, faults, n - 1);
      ReportNext(cal, stages[n - 1], stages[n], rows[n - 1], faults(n - 1));
    }
  }

  lemma StageIsOk(cal: Calendar, w: World, rows: seq<OutboxRow>, faults: Faults, stages: seq<Progress>, k: nat)
    requires Good(cal, w) && AllQueued(w, rows) && k < |rows| && |stages| == |rows| + 1
    requires stages[k] == DrainTo(cal, w, rows, faults, k) && stages[k + 1] == DrainTo(cal, w, rows, faults, k + 1)
    ensures StageOk(cal, stages, rows, faults, k)
  {
    StillGood(cal, w, rows, faults, k);
    NextProgress(cal, w, rows, faults, k);
  }

  lemma StagesAre(cal: Calendar, w: World, rows: seq<OutboxRow>, faults: Faults) returns (stages: seq<Progress>)
    requires Good(cal, w) && AllQueued(w, rows)
    ensures |stages| == |rows| + 1 && stages[0] == Progress(w, [], false) && stages[|rows|] == DrainTo(cal, w, rows, faults, |rows|)
    ensures forall k :: 0 <= k < |rows| ==> StageOk(cal, stages, rows, faults, k)
  {
    stages := seq(|rows| + 1, k requires 0 <= k <= |rows| => DrainTo(cal, w, rows, faults, k));
    forall k | 0 <= k < |rows| ensures StageOk(cal, stages, rows, faults, k) {
      StageIsOk(cal, w, rows, faults, stages, k);
    }
  }

  lemma ReportedTo(cal: Calendar, w: World, rows: seq<OutboxRow>, faults: Faults)
    requires Good(cal, w) && AllQueued(w, rows)
    ensures OnDisk(cal, DrainTo(cal, w, rows, faults, |rows|))
  {
    var stages := StagesAre(cal, w, rows, faults);
    ReportedStages(cal, stages, rows, faults, |rows|);
  }

  /** What a drain reports as exported is on disk, whatever else went wrong. */
  lemma ReportedIsOnDisk(cal: Calendar, w: World, aged: set<Path>, faults: Faults, e: StoredEvent)
    requires Good(cal, w) && e in w.events && e.id in Drain(cal, w, aged, faults).exported
    ensures Committed(cal, Drain(cal, w, aged, faults).world, e)
  {
    var swept := w.(files := Swept(w.files, aged));
    SweepIsHarmless(cal, w, aged);
    QueueIsListed(swept);
    ReportedTo(cal, swept, Queue(w.outbox), faults);
    DrainIsSafe(cal, w, aged, faults);
    CommittedIff(cal, Drain(cal, w, aged, faults).world, e);
  }

  /** The rows of the queue that a drain without faults exports, in order. */
  ghost function ExportableIds(cal: Calendar, events: seq<StoredEvent>, rows: seq<OutboxRow>): seq<nat> {
    if rows == [] then []
    else
      var last := rows[|rows| - 1];
      ExportableIds(cal, events, rows[..|rows| - 1])
      + (if exists e :: e in events && e.id == last.eventId && Exportable(cal, e) then [last.eventId] else [])
  }

  lemma ExportableIff(cal: Calendar, w: World, row: OutboxRow)
    requires UniqueEvents(w.events)
    ensures DrainRow(cal, w, row, NoFault).1.Done? <==> exists e :: e in w.events && e.id == row.eventId && Exportable(cal, e)
  {
    FindFacts(w.events, row.eventId);
    if e :| e in w.events && e.id == row.eventId && Exportable(cal, e) {
      FindIn(w.events, e);
      LineTells(e);
    }
    if Find(w.events, row.eventId).Some? {
      LineTells(Find(w.events, row.eventId).value);
    }
  }

  lemma {:induction false} CleanDrainReportsTo(cal: Calendar, w: World, rows: seq<OutboxRow>, n: nat)
    requires n <= |rows| && UniqueEvents(w.events)
    ensures var end := DrainTo(cal, w, rows, CLEAN, n);
            !end.died && end.world.events == w.events && end.exported == ExportableIds(cal, w.events, rows[..n])
  {
    if n > 0 {
      CleanDrainReportsTo(cal, w, rows, n - 1);
      var before := DrainTo(cal, w, rows, CLEAN, n - 1).world;
      ExportableIff(cal, before, rows[n - 1]);
      FailsIff(cal, before, rows[n - 1]);
      assert rows[..n][..n - 1] == rows[..n - 1];
    }
  }

  /** A drain without faults reports exactly the exportable events of its queue, in queue order. */
  lemma CleanDrainReports(cal: Calendar, w: World, aged: set<Path>)
    requires UniqueEvents(w.events)
    ensures Drain(cal, w, aged, CLEAN).exported == ExportableIds(cal, w.events, Queue(w.outbox))
  {
    var rows := Queue(w.outbox);
    CleanDrainReportsTo(cal, w.(files := Swept(w.files, aged)), rows, |rows|);
    assert rows[..|rows|] == rows;
  }

  ghost predicate SameCommitted(a: World, b: World) {
    forall p :: !IsTmp(p) ==> (p in a.files <==> p in b.files) && (p in a.files ==> a.files[p] == b.files[p])
  }

  lemma SameFilesSameCommitted(cal: Calendar, a: World, b: World)
    requires Good(cal, a) && Good(cal, b) && a.events == b.events
    requires forall id :: HasFile(cal, a, id) <==> HasFile(cal, b, id)
    ensures SameCommitted(a, b)
  {
    forall p | !IsTmp(p) ensures (p in a.files <==> p in b.files) && (p in a.files ==> a.files[p] == b.files[p]) {
      if p in a.files {
        var id :| IsFileOf(cal, a, p, id);
        assert HasFile(cal, b, id);
      }
      if p in b.files {
        var id :| IsFileOf(cal, b, p, id);
        assert HasFile(cal, a, id);
      }
    }
  }

  /** Crashes leave no trace: a drain that failed anywhere, followed by a clean one, commits
      exactly the files a single clean drain would have. */
  lemma CrashIsInvisible(cal: Calendar, w: World, aged: set<Path>, faults: Faults, again: set<Path>)
    requires Good(cal, w)
    ensures SameCommitted(Drain(cal, Drain(cal, w, aged, faults).world, again, CLEAN).world,
                          Drain(cal, w, aged, CLEAN).world)
  {
    var crashed := Drain(cal, w, aged, faults).world;
    DrainIsSafe(cal, w, aged, faults);
    DrainIsSafe(cal, crashed, again, CLEAN);
    DrainIsSafe(cal, w, aged, CLEAN);
    forall id ensures HasFile(cal, Drain(cal, crashed, again, CLEAN).world, id)
                 <==> HasFile(cal, Drain(cal, w, aged, CLEAN).world, id)
    {
      CleanDrainPays(cal, crashed, again, id);
      CleanDrainPays(cal, w, aged, id);
      QueuedSameRows(w, crashed, id);
    }
    SameFilesSameCommitted(cal, Drain(cal, crashed, again, CLEAN).world, Drain(cal, w, aged, CLEAN).world);
  }

  // ---- what a later drain reports ----

  lemma UnexportableRow(cal: Calendar, w: World, row: OutboxRow, fault: Fault)
    requires FileOf(cal, w.events, row.eventId).None?
    ensures !DrainRow(cal, w, row, fault).1.Done? && DrainRow(cal, w, row, fault).0.files == w.files
    ensures DrainRow(cal, w, row, fault).0.events == w.events
  {
  }

  lemma {:induction false} UnexportableExportsNothing(cal: Calendar, w: World, rows: seq<OutboxRow>, faults: Faults, n: nat)
    requires n <= |rows| && forall row :: row in rows ==> FileOf(cal, w.events, row.eventId).None?
    ensures var end := DrainTo(cal, w, rows, faults, n); end.exported == [] && end.world.files == w.files
    ensures DrainTo(cal, w, rows, faults, n).world.events == w.events
  {
    if n > 0 {
      UnexportableExportsNothing(cal, w, rows, faults, n - 1);
      assert rows[n - 1] in rows;
      UnexportableRow(cal, DrainTo(cal, w, rows, faults, n - 1).world, rows[n - 1], faults(n - 1));
    }
  }

  /** A drain after a clean drain exports nothing and commits nothing. */
  lemma SecondDrainExportsNothing(cal: Calendar, w: World, aged: set<Path>, again: set<Path>, faults: Faults)
    requires Good(cal, w)
    ensures var first := Drain(cal, w, aged, CLEAN).world;
            var second := Drain(cal, first, again, faults);
            second.exported == [] && second.world.files == Swept(first.files, again)
  {
    var first := Drain(cal, w, aged, CLEAN).world;
    CleanDrainCompletes(cal, w, aged);
    QueueMembers(first.outbox);
    var rows := Queue(first.outbox);
    assert forall row :: row in rows ==> FileOf(cal, first.events, row.eventId).None?;
    UnexportableExportsNothing(cal, first.(files := Swept(first.files, again)), rows, faults, |rows|);
  }
}
