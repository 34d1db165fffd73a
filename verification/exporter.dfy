/** The outbox exporter (src/trade_trace/exporter.py, `EventRecord.to_jsonl_line`). */
module Exporting {
  // A drain walks the unexported outbox rows; for each it writes the event's line to a temporary
  // file, renames it into place and marks the row, every `UPDATE` being its own transaction.  A
  // `Fault` lets any of those steps raise `OSError` or end the process.

  import opened Outcomes
  import opened Orders
  import opened Outbox
  import opened SemanticKeys
  import opened Decimals
  import opened ExportPaths

  /** The decoded payload, or text that is not JSON. */
  datatype StoredPayload = Undecodable | Decoded(json: Json)

  datatype StoredEvent = StoredEvent(
    id: nat, eventType: string, actor: string, createdAt: string, payload: StoredPayload)

  /** `dir` is the date bucket under the export root. */
  datatype Path = Path(dir: string, name: string)

  datatype Line = Line(
    tool: string, args: Payload, eventId: nat, eventType: string, actor: string, createdAt: string)

  datatype Content = Whole(line: Line) | Partial

  datatype World = World(events: seq<StoredEvent>, outbox: seq<OutboxRow>, files: map<Path, Content>)

  /** `datetime.fromisoformat` as far as it is used: the YYYY/MM/DD bucket, or a rejection. */
  type Calendar = string -> Option<string>

  // ---- the line and the file of an event ----

  const TOOLS: map<string, string> := map[
    "venue.created" := "venue.add",
    "instrument.created" := "instrument.add",
    "snapshot.added" := "snapshot.add",
    "thesis.created" := "thesis.add",
    "source.added" := "source.add",
    "decision.created" := "decision.add",
    "outcome.recorded" := "resolution.add",
    "forecast.created" := "forecast.add",
    "forecast.superseded" := "forecast.supersede",
    "forecast.anchored_to_snapshot" := "forecast.anchor_to_snapshot",
    "market.bound" := "market.bind",
    "memory_node.retained" := "memory.retain",
    "strategy.created" := "strategy.upsert",
    "strategy.updated" := "strategy.update",
    "playbook.created" := "playbook.upsert",
    "playbook.proposed_version" := "playbook.propose_version"]

  function ToolFor(eventType: string, args: Payload): string {
    if eventType == "source.attached" then
      if "target_kind" in args
         && args["target_kind"] in {Str("thesis"), Str("decision"), Str("forecast"), Str("memory_node")}
      then "source.attach_to_" + args["target_kind"].s
      else eventType
    else if eventType in TOOLS then TOOLS[eventType]
    else eventType
  }

  function WithoutTransportKeys(payload: Payload): Payload {
    map k | k in payload && !(k != "" && k[0] == '_') :: payload[k]
  }

  function LineOf(e: StoredEvent): Option<Line> {
    if e.payload.Decoded? && e.payload.json.Obj? then
      var args := WithoutTransportKeys(e.payload.json.fields);
      Some(Line(ToolFor(e.eventType, args), args, e.id, e.eventType, e.actor, e.createdAt))
    else None
  }

  // ---- what a line tells the importer ----

  /** Transport metadata, which the importer ignores. */
  predicate IsTransport(key: string) {
    |key| > 0 && key[0] == '_'
  }

  /** The tool that replays an event of this type: an attached source by what it was attached to,
      the mapped types by their tool, every other type by its own name. */
  predicate Replays(tool: string, e: StoredEvent, args: Payload) {
    if e.eventType == "source.attached" then
      if "target_kind" in args && args["target_kind"] == Str("thesis") then tool == "source.attach_to_thesis"
      else if "target_kind" in args && args["target_kind"] == Str("decision") then tool == "source.attach_to_decision"
      else if "target_kind" in args && args["target_kind"] == Str("forecast") then tool == "source.attach_to_forecast"
      else if "target_kind" in args && args["target_kind"] == Str("memory_node") then tool == "source.attach_to_memory_node"
      else tool == "source.attached"
    else if e.eventType in TOOLS then tool == TOOLS[e.eventType]
    else tool == e.eventType
  }

  predicate WritesItsType(eventType: string) {
    eventType in TOOLS && PrimaryEvent(TOOLS[eventType]) == Some(eventType)
  }

  lemma MarketTools()
    ensures WritesItsType("venue.created") && WritesItsType("instrument.created") && WritesItsType("snapshot.added")
  {
  }

  lemma IdeaTools()
    ensures WritesItsType("thesis.created") && WritesItsType("source.added") && WritesItsType("decision.created")
  {
  }

  lemma ForecastTools()
    ensures WritesItsType("outcome.recorded") && WritesItsType("forecast.created") && WritesItsType("forecast.superseded")
  {
  }

  lemma StrategyTools()
    ensures WritesItsType("market.bound") && WritesItsType("memory_node.retained") && WritesItsType("strategy.created")
  {
  }

  lemma PlaybookTools()
    ensures WritesItsType("strategy.updated") && WritesItsType("playbook.created") && WritesItsType("playbook.proposed_version")
  {
  }

  lemma MappedTypes(eventType: string)
    requires eventType in TOOLS && eventType != "forecast.anchored_to_snapshot"
    ensures eventType in {"venue.created", "instrument.created", "snapshot.added", "thesis.created", "source.added", "decision.created", "outcome.recorded", "forecast.created"}
         || eventType in {"forecast.superseded", "market.bound", "memory_node.retained", "strategy.created", "strategy.updated", "playbook.created", "playbook.proposed_version"}
  {
  }

  /** Replaying the line of a mapped type writes an event of that type again - but for anchored
      forecasts, whose tool has no primary event - so no two mapped types share a tool. */
  lemma MappedToolWritesTheType(eventType: string)
    requires eventType in TOOLS && eventType != "forecast.anchored_to_snapshot"
    ensures WritesItsType(eventType)
  {
    MappedTypes(eventType);
    MarketTools();
    IdeaTools();
    ForecastTools();
    StrategyTools();
    PlaybookTools();
  }

  lemma ToolsAreDistinct(one: string, other: string)
    requires one in TOOLS && other in TOOLS && TOOLS[one] == TOOLS[other]
    ensures one == other
  {
    if one != "forecast.anchored_to_snapshot" && other != "forecast.anchored_to_snapshot" {
      MappedToolWritesTheType(one);
      MappedToolWritesTheType(other);
    }
  }

  /** Resolving the tool of a line again, as the importer does, changes nothing. */
  lemma ToolResolvesToItself(eventType: string)
    requires eventType in TOOLS
    ensures TOOLS[eventType] !in TOOLS
  {
  }

  /** The line is the event's: its payload without transport keys, and its own columns. */
  ghost predicate Tells(l: Line, e: StoredEvent) {
    && e.payload.Decoded? && e.payload.json.Obj?
    && (forall k :: k in l.args <==> k in e.payload.json.fields && !IsTransport(k))
    && (forall k :: k in l.args ==> l.args[k] == e.payload.json.fields[k])
    && Replays(l.tool, e, l.args)
    && l.eventId == e.id && l.eventType == e.eventType && l.actor == e.actor && l.createdAt == e.createdAt
  }

  /** An event has a line exactly when its payload is an object; it tells the event, and no other
      line does. */
  lemma LineTells(e: StoredEvent)
    ensures LineOf(e).Some? <==> e.payload.Decoded? && e.payload.json.Obj?
    ensures forall l :: Tells(l, e) <==> LineOf(e) == Some(l)
  {
    if LineOf(e).Some? {
      var line := LineOf(e).value;
      ToolReplays(e, line.args);
      forall l | Tells(l, e) ensures l == line {
        assert l.args == line.args;
      }
    }
  }

  lemma ToolReplays(e: StoredEvent, args: Payload)
    ensures forall tool :: Replays(tool, e, args) <==> tool == ToolFor(e.eventType, args)
  {
    if e.eventType == "source.attached" {
      AttachedTo(args);
    }
  }

  lemma AttachedTo(args: Payload)
    ensures var target := if "target_kind" in args then args["target_kind"] else Null;
            ToolFor("source.attached", args)
            == if target == Str("thesis") then "source.attach_to_thesis"
               else if target == Str("decision") then "source.attach_to_decision"
               else if target == Str("forecast") then "source.attach_to_forecast"
               else if target == Str("memory_node") then "source.attach_to_memory_node"
               else "source.attached"
  {
  }

  function Find(events: seq<StoredEvent>, id: nat): Option<StoredEvent> {
    if events == [] then None
    else if events[0].id == id then Some(events[0])
    else Find(events[1..], id)
  }

  lemma {:induction false} FindFacts(events: seq<StoredEvent>, id: nat)
    ensures Find(events, id).Some? ==> Find(events, id).value.id == id && Find(events, id).value in events
    ensures Find(events, id).None? <==> forall e :: e in events ==> e.id != id
  {
    if events != [] {
      FindFacts(events[1..], id);
      assert events == [events[0]] + events[1..];
    }
  }

  lemma {:induction false} FindAppend(events: seq<StoredEvent>, e: StoredEvent, id: nat)
    ensures Find(events + [e], id) == if Find(events, id).Some? then Find(events, id) else if e.id == id then Some(e) else None
  {
    if events == [] {
      assert events + [e] == [e] && Find([e][1..], id) == None;
    } else {
      assert (events + [e])[1..] == events[1..] + [e];
      FindAppend(events[1..], e, id);
    }
  }

  /** The committed path and line of an event, when it can be exported at all. */
  function FileOf(cal: Calendar, events: seq<StoredEvent>, id: nat): Option<(Path, Line)> {
    match Find(events, id)
    case None => None
    case Some(e) =>
      if LineOf(e).None? || cal(e.createdAt).None? then None
      else Some((Path(cal(e.createdAt).value, FileName(e.eventType, e.id)), LineOf(e).value))
  }

  function TmpOf(p: Path): Path {
    p.(name := p.name + ".tmp")
  }

  /** What the orphan sweep looks for. */
  predicate IsTmp(p: Path) {
    |p.name| >= |TMP_SUFFIX| && p.name[|p.name| - |TMP_SUFFIX|..] == TMP_SUFFIX
  }

  /** No committed file is taken for a temporary, and every temporary is. */
  lemma TmpFacts(dir: string, eventType: string, id: nat)
    ensures !IsTmp(Path(dir, FileName(eventType, id)))
    ensures IsTmp(TmpOf(Path(dir, FileName(eventType, id))))
  {
    var name := FileName(eventType, id);
    var tmp := name + ".tmp";
    var head := SafeEventType(eventType) + "-" + Decimal(id);
    assert name == head + FINAL_SUFFIX && tmp == head + TMP_SUFFIX;
    assert tmp[|tmp| - |TMP_SUFFIX|..] == TMP_SUFFIX;
    if |name| >= |TMP_SUFFIX| {
      assert name[|name| - |TMP_SUFFIX|..][|TMP_SUFFIX| - 1] == name[|name| - 1];
    }
    assert name[|name| - 1] == 'l' && TMP_SUFFIX[|TMP_SUFFIX| - 1] == 'p';
  }

  /** Distinct events have distinct files. */
  lemma FilesAreDistinct(cal: Calendar, events: seq<StoredEvent>, i: nat, j: nat)
    requires FileOf(cal, events, i).Some?
    ensures !IsTmp(FileOf(cal, events, i).value.0) && IsTmp(TmpOf(FileOf(cal, events, i).value.0))
    ensures FileOf(cal, events, j).Some? && FileOf(cal, events, j).value.0 == FileOf(cal, events, i).value.0 ==> i == j
  {
    FindFacts(events, i);
    FindFacts(events, j);
    var e := Find(events, i).value;
    TmpFacts(cal(e.createdAt).value, e.eventType, e.id);
    if FileOf(cal, events, j).Some? && FileOf(cal, events, j).value.0 == FileOf(cal, events, i).value.0 {
      var f := Find(events, j).value;
      NameNamesTheEvent(e.eventType, e.id, f.eventType, f.id);
    }
  }

  // ---- one row ----

  datatype Stage = Opening | Writing | Replacing | Marking

  /** What goes wrong while a row is processed. */
  datatype Fault = NoFault | IoFault(at: Stage) | CrashAt(at: Stage)

  /** `Died` ends the drain: the process is gone, or an error left the loop. */
  datatype Verdict = Done | Refused(error: ExportError) | Died

  function WriteLine(files: map<Path, Content>, final: Path, line: Line, fault: Fault): (map<Path, Content>, Verdict) {
    var failed := if fault.CrashAt? then Died else Refused(IoError);
    if fault.NoFault? then ((files - {TmpOf(final)})[final := Whole(line)], Done)
    else
      match fault.at
      case Opening => (files, failed)
      case Writing => (files[TmpOf(final) := Partial], failed)
      case Replacing => (files[TmpOf(final) := Whole(line)], failed)
      case Marking => ((files - {TmpOf(final)})[final := Whole(line)], Died)
  }

  function WhyNot(events: seq<StoredEvent>, id: nat): ExportError {
    match Find(events, id)
    case None => EventMissing
    case Some(e) =>
      if e.payload.Undecodable? then DecodeError else if !e.payload.json.Obj? then NotAnObject else IoError
  }

  datatype Change = ToExported(at: string) | ToFailed(error: ExportError)

  function Changed(row: OutboxRow, change: Change): OutboxRow {
    match change
    case ToExported(at) => row.(state := Exported, exportedAt := Some(at), attempts := row.attempts + 1, error := None)
    case ToFailed(error) => row.(state := Failed, attempts := row.attempts + 1, error := Some(error))
  }

  /** `UPDATE outbox ... WHERE id = ?`. */
  function Update(outbox: seq<OutboxRow>, id: nat, change: Change): (r: seq<OutboxRow>)
    ensures |r| == |outbox|
    ensures forall i :: 0 <= i < |r| ==> r[i] == if outbox[i].id == id then Changed(outbox[i], change) else outbox[i]
  {
    seq(|outbox|, i requires 0 <= i < |outbox| => if outbox[i].id == id then Changed(outbox[i], change) else outbox[i])
  }

  function CreatedAt(events: seq<StoredEvent>, id: nat): string {
    match Find(events, id) case None => "" case Some(e) => e.createdAt
  }

  function Settle(w: World, row: OutboxRow, files: map<Path, Content>, verdict: Verdict): (World, Verdict) {
    match verdict
    case Died => (w.(files := files), Died)
    case Refused(error) => (w.(files := files, outbox := Update(w.outbox, row.id, ToFailed(error))), verdict)
    case Done => (w.(files := files, outbox := Update(w.outbox, row.id, ToExported(CreatedAt(w.events, row.eventId)))), Done)
  }

  function DrainRow(cal: Calendar, w: World, row: OutboxRow, fault: Fault): (World, Verdict) {
    match FileOf(cal, w.events, row.eventId)
    case None => Settle(w, row, w.files, if fault.CrashAt? then Died else Refused(WhyNot(w.events, row.eventId)))
    case Some(file) =>
      var (files, verdict) := WriteLine(w.files, file.0, file.1, fault);
      Settle(w, row, files, verdict)
  }

  /** Why a row of the queue fails when nothing else goes wrong. */
  ghost predicate FailsFor(cal: Calendar, events: seq<StoredEvent>, id: nat, error: ExportError) {
    match error
    case EventMissing => forall e :: e in events ==> e.id != id
    case DecodeError => exists e :: e in events && e.id == id && e.payload.Undecodable?
    case NotAnObject => exists e :: e in events && e.id == id && e.payload.Decoded? && !e.payload.json.Obj?
    case IoError => exists e :: e in events && e.id == id && e.payload.Decoded? && e.payload.json.Obj? && cal(e.createdAt).None?
  }

  /** The `UPDATE` of a row: exported with the event's own time, failed with the reason, or
      untouched when the process died; other rows stay. */
  lemma RowUpdate(cal: Calendar, w: World, row: OutboxRow, fault: Fault, i: nat)
    requires i < |w.outbox|
    ensures var (after, verdict) := DrainRow(cal, w, row, fault);
            var was := w.outbox[i];
            && |after.outbox| == |w.outbox|
            && after.outbox[i].id == was.id && after.outbox[i].eventId == was.eventId && after.outbox[i].kind == was.kind
            && (was.id != row.id || verdict.Died? ==> after.outbox[i] == was)
            && (was.id == row.id && !verdict.Died? ==> after.outbox[i].attempts == was.attempts + 1)
            && (was.id == row.id && verdict.Refused? ==>
                  && after.outbox[i].state == Failed && after.outbox[i].error == Some(verdict.error)
                  && after.outbox[i].exportedAt == was.exportedAt)
            && (was.id == row.id && verdict.Done? ==>
                  && after.outbox[i].state == Exported && after.outbox[i].error == None
                  && exists e :: e in w.events && e.id == row.eventId && after.outbox[i].exportedAt == Some(e.createdAt))
  {
    FindFacts(w.events, row.eventId);
  }

  /** Without a fault a row fails exactly for one of the four reasons. */
  lemma FailsIff(cal: Calendar, w: World, row: OutboxRow)
    ensures var verdict := DrainRow(cal, w, row, NoFault).1;
            && !verdict.Died?
            && (verdict.Refused? ==> FailsFor(cal, w.events, row.eventId, verdict.error))
            && (verdict.Done? ==> exists e :: e in w.events && e.id == row.eventId && e.payload.Decoded? && e.payload.json.Obj?
                                              && cal(e.createdAt).Some?)
  {
    FindFacts(w.events, row.eventId);
  }

  // ---- a drain ----

  predicate Drainable(row: OutboxRow) {
    row.kind == JSONL && (row.state.Pending? || row.state.Failed?)
  }

  /** `ORDER BY event_id, id`. */
  predicate QueueLeq(a: OutboxRow, b: OutboxRow) {
    a.eventId < b.eventId || (a.eventId == b.eventId && a.id <= b.id)
  }

  function Queue(outbox: seq<OutboxRow>): seq<OutboxRow> {
    SortBy(Filter(outbox, Drainable), QueueLeq)
  }

  /** The queue is the JSONL rows not yet exported, by event and then by row. */
  lemma QueueIs(outbox: seq<OutboxRow>)
    ensures forall row :: multiset(Queue(outbox))[row] == if row.kind == "jsonl" && row.state != Exported then multiset(outbox)[row] else 0
    ensures var q := Queue(outbox);
            forall i, j :: 0 <= i < j < |q| ==> q[i].eventId < q[j].eventId || (q[i].eventId == q[j].eventId && q[i].id <= q[j].id)
  {
    var kept := Filter(outbox, Drainable);
    assert TotalPreorder(QueueLeq);
    SortBySorts(kept, QueueLeq);
    forall row ensures multiset(Queue(outbox))[row] == if row.kind == "jsonl" && row.state != Exported then multiset(outbox)[row] else 0 {
      FilterMultiset(outbox, Drainable, row);
    }
    var q := Queue(outbox);
    forall i, j | 0 <= i < j < |q| ensures q[i].eventId < q[j].eventId || (q[i].eventId == q[j].eventId && q[i].id <= q[j].id) {
      assert QueueLeq(q[i], q[j]);
    }
  }

  lemma QueueMembers(outbox: seq<OutboxRow>)
    ensures forall row :: row in Queue(outbox) <==> row in outbox && Drainable(row)
  {
    SameMembers(Queue(outbox), Filter(outbox, Drainable));
  }

  datatype Progress = Progress(world: World, exported: seq<nat>, died: bool)

  type Faults = nat -> Fault

  const CLEAN: Faults := (i: nat) => NoFault

  function DrainTo(cal: Calendar, w: World, rows: seq<OutboxRow>, faults: Faults, n: nat): Progress
    requires n <= |rows|
  {
    if n == 0 then Progress(w, [], false)
    else
      var before := DrainTo(cal, w, rows, faults, n - 1);
      if before.died then before
      else
        var (world, verdict) := DrainRow(cal, before.world, rows[n - 1], faults(n - 1));
        Progress(world, if verdict.Done? then before.exported + [rows[n - 1].eventId] else before.exported, verdict.Died?)
  }

  /** The sweep removes some temporary files: those older than an hour. */
  function Swept(files: map<Path, Content>, aged: set<Path>): map<Path, Content> {
    map p | p in files && !(p in aged && IsTmp(p)) :: files[p]
  }

  /** The sweep takes exactly the temporaries that are old enough, and changes no other file. */
  lemma SweepTakes(files: map<Path, Content>, aged: set<Path>, p: Path)
    ensures p in Swept(files, aged) <==>
              p in files && !(p in aged && exists k: nat :: k <= |p.name| && p.name == p.name[..k] + ".jsonl.tmp")
    ensures p in Swept(files, aged) ==> Swept(files, aged)[p] == files[p]
  {
    if k: nat :| k <= |p.name| && p.name == p.name[..k] + ".jsonl.tmp" {
      assert |p.name| == k + 10 && p.name[k..] == ".jsonl.tmp";
    }
    if IsTmp(p) {
      assert p.name == p.name[..|p.name| - 10] + ".jsonl.tmp";
    }
  }

  function Drain(cal: Calendar, w: World, aged: set<Path>, faults: Faults): Progress {
    var rows := Queue(w.outbox);
    DrainTo(cal, w.(files := Swept(w.files, aged)), rows, faults, |rows|)
  }

  lemma DiedStep(cal: Calendar, w: World, rows: seq<OutboxRow>, faults: Faults, n: nat)
    requires 0 < n <= |rows| && DrainTo(cal, w, rows, faults, n - 1).died
    ensures DrainTo(cal, w, rows, faults, n) == DrainTo(cal, w, rows, faults, n - 1)
  {
  }

  ghost predicate DeadStays(stages: seq<Progress>, k: nat)
    requires k + 1 < |stages|
  {
    stages[k].died ==> stages[k + 1] == stages[k]
  }

  lemma {:induction false} DeadFromThen(stages: seq<Progress>, i: nat, n: nat)
    requires i <= n < |stages| && stages[i].died
    requires forall k :: 0 <= k < |stages| - 1 ==> DeadStays(stages, k)
    ensures stages[n] == stages[i]
    decreases n
  {
    if i < n {
      DeadFromThen(stages, i, n - 1);
      assert DeadStays(stages, n - 1);
    }
  }

  lemma DiedStays(cal: Calendar, w: World, rows: seq<OutboxRow>, faults: Faults, i: nat, n: nat, end: Progress)
    requires i <= n <= |rows| && end.died && DrainTo(cal, w, rows, faults, i) == end
    ensures DrainTo(cal, w, rows, faults, n) == end
  {
    var stages := seq(|rows| + 1, k requires 0 <= k <= |rows| => DrainTo(cal, w, rows, faults, k));
    forall k | 0 <= k < |stages| - 1 ensures DeadStays(stages, k) {
      if stages[k].died {
        DiedStep(cal, w, rows, faults, k + 1);
      }
    }
    DeadFromThen(stages, i, n);
  }

  class Exporter {
    const cal: Calendar
    var events: seq<StoredEvent>
    var outbox: seq<OutboxRow>
    var files: map<Path, Content>

    constructor (cal: Calendar, w: World)
      ensures this.cal == cal && Now() == w
    {
      this.cal, events, outbox, files := cal, w.events, w.outbox, w.files;
    }

    function Now(): World reads this {
      World(events, outbox, files)
    }

    /** `write_jsonl_line_atomic`: open a temporary, write, rename. */
    method WriteJsonlLineAtomic(final: Path, line: Line, fault: Fault) returns (verdict: Verdict)
      modifies this`files
      ensures (files, verdict) == WriteLine(old(files), final, line, fault)
    {
      var tmp := TmpOf(final);
      var failed := if fault.CrashAt? then Died else Refused(IoError);
      if !fault.NoFault? && fault.at.Opening? {
        return failed;
      }
      files := files[tmp := Partial];
      if !fault.NoFault? && fault.at.Writing? {
        return failed;
      }
      files := files[tmp := Whole(line)];
      assert files == old(files)[tmp := Whole(line)];
      if !fault.NoFault? && fault.at.Replacing? {
        return failed;
      }
      ghost var before := old(files);
      files := (files - {tmp})[final := files[tmp]];
      assert files == (before - {tmp})[final := Whole(line)];
      return if fault.NoFault? then Done else Died;
    }

    method UpdateRow(id: nat, change: Change)
      modifies this`outbox
      ensures outbox == Update(old(outbox), id, change)
    {
      ghost var before := outbox;
      for i := 0 to |outbox|
        invariant |outbox| == |before|
        invariant forall k :: 0 <= k < |before| ==>
                    outbox[k] == if k < i && before[k].id == id then Changed(before[k], change) else before[k]
      {
        if outbox[i].id == id {
          outbox := outbox[i := Changed(outbox[i], change)];
        }
      }
    }

    /** The body of the loop. */
    method ExportRow(row: OutboxRow, fault: Fault) returns (verdict: Verdict)
      modifies this`outbox, this`files
      ensures (Now(), verdict) == DrainRow(cal, old(Now()), row, fault)
    {
      var event := Find(events, row.eventId);
      FindFacts(events, row.eventId);
      if event.None? || LineOf(event.value).None? {
        if fault.CrashAt? {
          return Died;
        }
        verdict := Refused(WhyNot(events, row.eventId));
      } else {
        var bucket := cal(event.value.createdAt);
        if bucket.None? {
          if fault.CrashAt? {
            return Died;
          }
          verdict := Refused(IoError);
        } else {
          verdict := WriteJsonlLineAtomic(Path(bucket.value, FileName(event.value.eventType, event.value.id)),
                                          LineOf(event.value).value, fault);
        }
      }
      match verdict
      case Died =>
      case Refused(error) => UpdateRow(row.id, ToFailed(error));
      case Done => UpdateRow(row.id, ToExported(event.value.createdAt));
    }

    /** `drain_outbox`. */
    method DrainOutbox(aged: set<Path>, faults: Faults) returns (exported: seq<nat>, died: bool)
      modifies this`outbox, this`files
      ensures Progress(Now(), exported, died) == Drain(cal, old(Now()), aged, faults)
    {
      files := Swept(files, aged);
      ghost var start := Now();
      var rows := Queue(outbox);
      exported := [];
      for i := 0 to |rows|
        invariant DrainTo(cal, start, rows, faults, i) == Progress(Now(), exported, false)
      {
        var verdict := ExportRow(rows[i], faults(i));
        if verdict.Died? {
          DiedStays(cal, start, rows, faults, i + 1, |rows|, Progress(Now(), exported, true));
          return exported, true;
        }
        if verdict.Done? {
          exported := exported + [rows[i].eventId];
        }
      }
      died := false;
    }
  }
}
