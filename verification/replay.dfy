/** Replay cases (src/trade_trace/reports/replay.py): which rows are selected as of a moment, and
    the context each case shows. */
module Replay {
  // Two kinds of row carry a validity window, theses and forecasts; both are `Artifact`s, whose
  // `parent` is the instrument of a thesis and the thesis of a forecast; only a thesis has a
  // `strategyId`, a forecast is filtered by its thesis's.  `body` stands for the columns that are
  // only copied.

  import opened Outcomes
  import opened Orders
  import opened Text

  datatype Validity = Validity(from: Option<string>, to: Option<string>, invalidatedAt: Option<string>)

  datatype Artifact = Artifact(
    id: string, createdAt: string, validity: Validity, parent: string, strategyId: Option<string>,
    actors: map<string, string>, body: string)

  datatype Decision = Decision(
    id: string, createdAt: string, decisionType: string, instrumentId: string, thesisId: Option<string>,
    forecastId: Option<string>, snapshotId: Option<string>, strategyId: Option<string>, actors: map<string, string>)

  datatype Instrument = Instrument(id: string, createdAt: string, symbol: Option<string>, body: string)
  datatype Snapshot = Snapshot(id: string, createdAt: string, body: string)
  datatype Source = Source(id: string, createdAt: string, sensitive: bool, body: string)
  datatype Edge = Edge(createdAt: string, sourceKind: string, sourceId: string, targetKind: string, targetId: string)
  datatype Recall = Recall(id: string, createdAt: string)

  datatype Journal = Journal(
    decisions: seq<Decision>, theses: seq<Artifact>, forecasts: seq<Artifact>, instruments: seq<Instrument>,
    snapshots: seq<Snapshot>, sources: seq<Source>, edges: seq<Edge>, recalls: seq<Recall>)

  // ---- validity ----

  /** SQL's three truth values. */
  datatype Truth = Yes | No | Unknown

  function And(a: Truth, b: Truth): Truth {
    if a.No? || b.No? then No else if a.Yes? && b.Yes? then Yes else Unknown
  }

  function Or(a: Truth, b: Truth): Truth {
    if a.Yes? || b.Yes? then Yes else if a.No? && b.No? then No else Unknown
  }

  function TruthOf(b: bool): Truth { if b then Yes else No }

  /** A comparison with NULL is unknown. */
  function Compare(a: Option<string>, b: Option<string>, holds: (string, string) -> bool): Truth {
    if a.None? || b.None? then Unknown else TruthOf(holds(a.value, b.value))
  }

  function IsNull(a: Option<string>): Truth { TruthOf(a.None?) }

  /** `_validity_clause`. */
  function SqlValid(a: Artifact, asOf: string): Truth {
    And(And(And(Compare(Some(a.createdAt), Some(asOf), StrLeq),
                Or(IsNull(a.validity.from), Compare(a.validity.from, Some(asOf), StrLeq))),
            Or(IsNull(a.validity.to), Compare(Some(asOf), a.validity.to, StrLt))),
        Or(IsNull(a.validity.invalidatedAt), Compare(Some(asOf), a.validity.invalidatedAt, StrLt)))
  }

  /** `_valid_at_as_of`. */
  predicate ValidAt(a: Artifact, asOf: string) {
    && StrLeq(a.createdAt, asOf)
    && (a.validity.from.None? || StrLeq(a.validity.from.value, asOf))
    && (a.validity.to.None? || StrLt(asOf, a.validity.to.value))
    && (a.validity.invalidatedAt.None? || StrLt(asOf, a.validity.invalidatedAt.value))
  }

  /** The WHERE clause and the Python check select the same rows. */
  lemma ClauseIsCheck(a: Artifact, asOf: string)
    ensures SqlValid(a, asOf).Yes? <==> ValidAt(a, asOf)
    ensures !SqlValid(a, asOf).Unknown?
  {
  }

  // ---- lookups ----

  /** The first row that satisfies `p`, in physical order. */
  function First<T>(rows: seq<T>, p: T -> bool): (r: Option<T>)
    ensures r.Some? ==> r.value in rows && p(r.value)
    ensures r.None? <==> forall x :: x in rows ==> !p(x)
  {
    if rows == [] then None
    else
      assert rows == [rows[0]] + rows[1..];
      if p(rows[0]) then Some(rows[0]) else First(rows[1..], p)
  }

  function ArtifactIs(id: string): Artifact -> bool { (a: Artifact) => a.id == id }
  function SnapshotSeen(id: string, asOf: string): Snapshot -> bool { (s: Snapshot) => s.id == id && StrLeq(s.createdAt, asOf) }
  function InstrumentIs(id: string): Instrument -> bool { (i: Instrument) => i.id == id }
  function InstrumentSeen(id: string, asOf: string): Instrument -> bool { (i: Instrument) => i.id == id && StrLeq(i.createdAt, asOf) }
  function ArtifactSeen(id: string, asOf: string): Artifact -> bool { (a: Artifact) => a.id == id && StrLeq(a.createdAt, asOf) }
  function RecallIs(id: string): Recall -> bool { (r: Recall) => r.id == id }
  function DecisionSeen(id: string, asOf: string): Decision -> bool { (d: Decision) => d.id == id && StrLeq(d.createdAt, asOf) }

  /** A query that joins each forecast with its thesis, both valid. */
  function ForecastValid(id: string, theses: seq<Artifact>, asOf: string): Artifact -> bool {
    (f: Artifact) => f.id == id && ForecastJoins(f, theses, asOf)
  }

  predicate ForecastJoins(f: Artifact, theses: seq<Artifact>, asOf: string) {
    && SqlValid(f, asOf).Yes?
    && var t := First(theses, ArtifactIs(f.parent));
       t.Some? && SqlValid(t.value, asOf).Yes?
  }

  // ---- selection ----

  datatype Kind = DecisionCase | ForecastCase | RecallCase

  function KindName(k: Kind): string {
    match k case DecisionCase => "decision" case ForecastCase => "forecast" case RecallCase => "recall_event"
  }

  function KindNamed(name: string): Option<Kind> {
    if name == "decision" then Some(DecisionCase)
    else if name == "forecast" then Some(ForecastCase)
    else if name == "recall_event" then Some(RecallCase)
    else None
  }

  /** The kinds and their names, one for one. */
  lemma KindsAreNamed(k: Kind, name: string)
    ensures KindNamed(name) == Some(k) <==> name == KindName(k)
    ensures KindNamed(name).Some? <==> name in {"decision", "forecast", "recall_event"}
    ensures KindName(DecisionCase) == "decision" && KindName(ForecastCase) == "forecast" && KindName(RecallCase) == "recall_event"
  {
  }

  /** What a case reads from its own row. */
  datatype Refs = Refs(instrumentId: Option<string>, thesisId: Option<string>, forecastId: Option<string>, snapshotId: Option<string>)

  datatype Item = Item(kind: Kind, id: string, createdAt: string, refs: Option<Refs>)

  function DecisionItem(d: Decision): Item {
    Item(DecisionCase, d.id, d.createdAt, Some(Refs(Some(d.instrumentId), d.thesisId, d.forecastId, d.snapshotId)))
  }

  function ForecastItem(f: Artifact): Item {
    Item(ForecastCase, f.id, f.createdAt, Some(Refs(None, Some(f.parent), Some(f.id), None)))
  }

  /** An empty list of allowed values is no filter. */
  datatype CaseFilter = CaseFilter(
    createdAtGte: Option<string>, createdAtLt: Option<string>, actors: map<string, seq<string>>,
    instrumentIds: seq<string>, symbols: seq<string>, strategyIds: seq<string>,
    decisionGiven: bool, decisionTypes: seq<string>, hasForecast: Option<bool>)

  datatype Ref = Ref(kind: string, id: string)

  datatype Selection = Selection(sourceRefs: seq<Ref>, caseIds: seq<string>, maxCases: int, filter: CaseFilter)

  datatype SelectionError =
    | BadMaxCases
    | BadCaseId
    | BothRefsAndIds
    | BadKind
    | RecallMissing
    | RecallTooLate

  predicate Allowed(values: seq<string>, column: Option<string>) {
    values == [] || (column.Some? && column.value in values)
  }

  predicate ActorsAllowed(filter: CaseFilter, actors: map<string, string>) {
    forall k :: k in filter.actors.Keys ==> Allowed(filter.actors[k], if k in actors then Some(actors[k]) else None)
  }

  predicate InWindow(filter: CaseFilter, createdAt: string) {
    && (filter.createdAtGte.Some? ==> StrLeq(filter.createdAtGte.value, createdAt))
    && (filter.createdAtLt.Some? ==> StrLt(createdAt, filter.createdAtLt.value))
  }

  function SymbolOf(j: Journal, instrumentId: string): Option<string> {
    match First(j.instruments, InstrumentIs(instrumentId)) case None => None case Some(i) => i.symbol
  }

  predicate DecisionMatches(j: Journal, filter: CaseFilter, asOf: string, d: Decision) {
    && StrLeq(d.createdAt, asOf)
    && InWindow(filter, d.createdAt)
    && ActorsAllowed(filter, d.actors)
    && Allowed(filter.instrumentIds, Some(d.instrumentId))
    && Allowed(filter.symbols, SymbolOf(j, d.instrumentId))
    && Allowed(filter.strategyIds, d.strategyId)
    && Allowed(filter.decisionTypes, Some(d.decisionType))
    && (filter.hasForecast.Some? ==> filter.hasForecast.value == d.forecastId.Some?)
  }

  predicate ForecastMatches(j: Journal, filter: CaseFilter, asOf: string, ids: seq<string>, f: Artifact) {
    && ForecastJoins(f, j.theses, asOf)
    && var t := First(j.theses, ArtifactIs(f.parent)).value;
       && First(j.instruments, InstrumentIs(t.parent)).Some?
       && InWindow(filter, f.createdAt)
       && ActorsAllowed(filter, f.actors)
       && Allowed(filter.instrumentIds, Some(t.parent))
       && Allowed(filter.symbols, SymbolOf(j, t.parent))
       && Allowed(filter.strategyIds, t.strategyId)
       && (filter.decisionGiven ==> f.id in ids)
  }

  function MatchingDecisions(j: Journal, filter: CaseFilter, asOf: string, rows: seq<Decision>): seq<Item> {
    if rows == [] then []
    else if DecisionMatches(j, filter, asOf, rows[0])
    then [DecisionItem(rows[0])] + MatchingDecisions(j, filter, asOf, rows[1..])
    else MatchingDecisions(j, filter, asOf, rows[1..])
  }

  function MatchingForecasts(j: Journal, filter: CaseFilter, asOf: string, ids: seq<string>, rows: seq<Artifact>): seq<Item> {
    if rows == [] then []
    else if ForecastMatches(j, filter, asOf, ids, rows[0])
    then [ForecastItem(rows[0])] + MatchingForecasts(j, filter, asOf, ids, rows[1..])
    else MatchingForecasts(j, filter, asOf, ids, rows[1..])
  }

  /** `(created_at, kind, id)`. */
  predicate CaseLeq(a: Item, b: Item) {
    if a.createdAt != b.createdAt then StrLt(a.createdAt, b.createdAt)
    else if a.kind != b.kind then StrLt(KindName(a.kind), KindName(b.kind))
    else StrLeq(a.id, b.id)
  }

  function Take<T>(s: seq<T>, n: int): seq<T>
    requires n >= 0
  {
    if |s| <= n then s else s[..n]
  }

  function ForecastIds(items: seq<Item>): seq<string> {
    if items == [] then []
    else
      var id := if items[0].refs.Some? then items[0].refs.value.forecastId else None;
      (if id.Some? && id.value != "" then [id.value] else []) + ForecastIds(items[1..])
  }

  /** Decisions first; forecasts fill what is left. */
  function ByFilter(j: Journal, filter: CaseFilter, asOf: string, maxCases: nat): seq<Item> {
    var decisions := Take(SortBy(MatchingDecisions(j, filter, asOf, j.decisions), CaseLeq), maxCases);
    if |decisions| < maxCases then
      decisions + Take(SortBy(MatchingForecasts(j, filter, asOf, ForecastIds(decisions), j.forecasts), CaseLeq), maxCases - |decisions|)
    else decisions
  }

  /** One explicit reference: an item, nothing, or a rejection. */
  function ByRef(j: Journal, ref: Ref, asOf: string): Result<seq<Item>, SelectionError> {
    match KindNamed(ref.kind)
    case None => Err(BadKind)
    case Some(RecallCase) =>
      var row := First(j.recalls, RecallIs(ref.id));
      if row.None? then Err(RecallMissing)
      else if StrLt(asOf, row.value.createdAt) then Err(RecallTooLate)
      else Ok([Item(RecallCase, ref.id, row.value.createdAt, None)])
    case Some(ForecastCase) =>
      var row := First(j.forecasts, ForecastValid(ref.id, j.theses, asOf));
      Ok(if row.None? then [] else [ForecastItem(row.value)])
    case Some(DecisionCase) =>
      var row := First(j.decisions, DecisionSeen(ref.id, asOf));
      Ok(if row.None? then [] else [DecisionItem(row.value)])
  }

  function ByRefs(j: Journal, refs: seq<Ref>, asOf: string): Result<seq<Item>, SelectionError> {
    if refs == [] then Ok([])
    else
      match ByRefs(j, refs[..|refs| - 1], asOf)
      case Err(e) => Err(e)
      case Ok(before) =>
        match ByRef(j, refs[|refs| - 1], asOf)
        case Err(e) => Err(e)
        case Ok(more) => Ok(before + more)
  }

  // ---- case ids ----

  /** The truncated digest that ends a case id; hexadecimal. */
  type Suffix = (string, string, string, string) -> string

  function CaseId(suffix: Suffix, kind: string, id: string, asOf: string, mode: string): string {
    Join(["derived", kind, id, "replay", "v0", suffix(kind, id, asOf, mode)], ':')
  }

  /** The text of a case id. */
  lemma CaseIdReads(suffix: Suffix, kind: string, id: string, asOf: string, mode: string)
    ensures CaseId(suffix, kind, id, asOf, mode) == "derived:" + kind + ":" + id + ":replay:v0:" + suffix(kind, id, asOf, mode)
  {
    var parts := ["derived", kind, id, "replay", "v0", suffix(kind, id, asOf, mode)];
    var end := suffix(kind, id, asOf, mode);
    assert parts[5..] == [end] && parts[4..][1..] == parts[5..] && parts[3..][1..] == parts[4..];
    assert parts[2..][1..] == parts[3..] && parts[1..][1..] == parts[2..];
    assert Join(parts[4..], ':') == "v0:" + end;
    assert Join(parts[3..], ':') == "replay:v0:" + end;
    assert Join(parts[2..], ':') == id + ":replay:v0:" + end;
    assert Join(parts[1..], ':') == kind + ":" + id + ":replay:v0:" + end;
  }

  function ParseCaseId(suffix: Suffix, cid: string, asOf: string, mode: string): Option<Ref> {
    var parts := Split(cid, ':');
    if |parts| != 6 || parts[0] != "derived" || parts[3] != "replay" || parts[4] != "v0" then None
    else if KindNamed(parts[1]).None? || cid != CaseId(suffix, parts[1], parts[2], asOf, mode) then None
    else Some(Ref(parts[1], parts[2]))
  }

  ghost predicate NoColons(suffix: Suffix) {
    forall a, b, c, d :: ':' !in suffix(a, b, c, d)
  }

  /** Parsing a case id is the inverse of printing one, for exactly the ids without a colon. */
  lemma ParseIffPrinted(suffix: Suffix, cid: string, kind: string, id: string, asOf: string, mode: string)
    requires NoColons(suffix)
    ensures ParseCaseId(suffix, cid, asOf, mode) == Some(Ref(kind, id))
       <==> KindNamed(kind).Some? && ':' !in id && cid == CaseId(suffix, kind, id, asOf, mode)
  {
    var parts := ["derived", kind, id, "replay", "v0", suffix(kind, id, asOf, mode)];
    if KindNamed(kind).Some? && ':' !in id {
      assert ':' !in suffix(kind, id, asOf, mode);
      SplitOfJoin(parts, ':');
    }
  }

  function RefsOf(suffix: Suffix, cids: seq<string>, asOf: string, mode: string): Option<seq<Ref>> {
    if cids == [] then Some([])
    else
      var before := RefsOf(suffix, cids[..|cids| - 1], asOf, mode);
      var last := ParseCaseId(suffix, cids[|cids| - 1], asOf, mode);
      if before.None? || last.None? then None else Some(before.value + [last.value])
  }

  /** `_selection_refs_from_case_ids`. */
  method SelectionRefsFromCaseIds(suffix: Suffix, cids: seq<string>, asOf: string, mode: string)
    returns (r: Option<seq<Ref>>)
    ensures r == RefsOf(suffix, cids, asOf, mode)
  {
    var refs := [];
    for i := 0 to |cids|
      invariant RefsOf(suffix, cids[..i], asOf, mode) == Some(refs)
    {
      assert cids[..i + 1][..i] == cids[..i];
      var ref := ParseCaseId(suffix, cids[i], asOf, mode);
      if ref.None? {
        NoRefsAfter(suffix, cids, asOf, mode, i + 1);
        return None;
      }
      refs := refs + [ref.value];
    }
    assert cids[..|cids|] == cids;
    return Some(refs);
  }

  lemma {:induction false} NoRefsAfter(suffix: Suffix, cids: seq<string>, asOf: string, mode: string, i: nat)
    requires i <= |cids| && RefsOf(suffix, cids[..i], asOf, mode) == None
    ensures RefsOf(suffix, cids, asOf, mode) == None
    decreases |cids| - i
  {
    if i == |cids| {
      assert cids[..i] == cids;
    } else {
      assert cids[..i + 1][..i] == cids[..i];
      NoRefsAfter(suffix, cids, asOf, mode, i + 1);
    }
  }

  // ---- the whole selection ----

  /** The references a request names, before they are looked up. */
  function NamedRefs(suffix: Suffix, sel: Selection, asOf: string, mode: string): Result<seq<Ref>, SelectionError> {
    if sel.sourceRefs != [] then
      if sel.caseIds != [] then Err(BothRefsAndIds) else Ok(sel.sourceRefs)
    else
      var refs := RefsOf(suffix, sel.caseIds, asOf, mode);
      if refs.None? then Err(BadCaseId) else Ok(refs.value)
  }

  function Select(j: Journal, suffix: Suffix, sel: Selection, asOf: string, mode: string): Result<seq<Item>, SelectionError> {
    if sel.maxCases < 1 then Err(BadMaxCases)
    else
      match NamedRefs(suffix, sel, asOf, mode)
      case Err(e) => Err(e)
      case Ok(refs) =>
        if refs == [] then Ok(Take(SortBy(ByFilter(j, sel.filter, asOf, sel.maxCases), CaseLeq), sel.maxCases))
        else
          match ByRefs(j, refs, asOf)
          case Err(e) => Err(e)
          case Ok(items) => Ok(Take(SortBy(items, CaseLeq), sel.maxCases))
  }

  /** `_rows_for_selection`. */
  method RowsForSelection(j: Journal, suffix: Suffix, sel: Selection, asOf: string, mode: string)
    returns (r: Result<seq<Item>, SelectionError>)
    ensures r == Select(j, suffix, sel, asOf, mode)
  {
    if sel.maxCases < 1 {
      return Err(BadMaxCases);
    }
    var refs := sel.sourceRefs;
    if refs == [] {
      var named := SelectionRefsFromCaseIds(suffix, sel.caseIds, asOf, mode);
      if named.None? {
        return Err(BadCaseId);
      }
      refs := named.value;
    }
    if refs != [] && sel.sourceRefs != [] && sel.caseIds != [] {
      return Err(BothRefsAndIds);
    }
    var items := ItemsForRefs(j, refs, asOf);
    if items.Err? {
      return Err(items.error);
    }
    var selected := items.value;
    if refs == [] {
      selected := ByFilter(j, sel.filter, asOf, sel.maxCases);
    }
    return Ok(Take(SortBy(selected, CaseLeq), sel.maxCases));
  }

  /** The loop over explicit references. */
  method ItemsForRefs(j: Journal, refs: seq<Ref>, asOf: string) returns (r: Result<seq<Item>, SelectionError>)
    ensures r == ByRefs(j, refs, asOf)
  {
    var selected: seq<Item> := [];
    for i := 0 to |refs|
      invariant ByRefs(j, refs[..i], asOf) == Ok(selected)
    {
      assert refs[..i + 1][..i] == refs[..i];
      var found := ByRef(j, refs[i], asOf);
      if found.Err? {
        RejectedAfter(j, refs, asOf, i + 1);
        return Err(found.error);
      }
      selected := selected + found.value;
    }
    assert refs[..|refs|] == refs;
    return Ok(selected);
  }

  lemma {:induction false} RejectedAfter(j: Journal, refs: seq<Ref>, asOf: string, i: nat)
    requires i <= |refs| && ByRefs(j, refs[..i], asOf).Err?
    ensures ByRefs(j, refs, asOf) == ByRefs(j, refs[..i], asOf)
    decreases |refs| - i
  {
    if i == |refs| {
      assert refs[..i] == refs;
    } else {
      assert refs[..i + 1][..i] == refs[..i];
      RejectedAfter(j, refs, asOf, i + 1);
    }
  }

  // ---- one case ----

  /** What a case shows of a thesis or forecast. */
  datatype Shown = Shown(id: string, createdAt: string, validity: Validity, parent: string, body: string)

  datatype Context = Context(
    instrument: Option<Instrument>, snapshots: seq<Snapshot>, theses: seq<Shown>, forecasts: seq<Shown>, sources: seq<Source>)

  datatype Case = Case(caseId: string, kind: Kind, sourceId: string, context: Context, caveats: seq<string>)

  function Show(a: Artifact): Shown {
    Shown(a.id, a.createdAt, a.validity, a.parent, a.body)
  }

  /** Falsy ids are not looked up. */
  function Present(id: Option<string>): Option<string> {
    if id.Some? && id.value != "" then id else None
  }

  function CaseInstrumentId(j: Journal, item: Item, refs: Refs): Option<string> {
    var t := if Present(refs.thesisId).Some? then First(j.theses, ArtifactIs(refs.thesisId.value)) else None;
    if t.Some? && item.kind.ForecastCase? then Some(t.value.parent) else refs.instrumentId
  }

  function ThesisSection(j: Journal, refs: Refs, asOf: string): (seq<Shown>, seq<string>) {
    if Present(refs.thesisId).None? then ([], [])
    else
      var t := First(j.theses, ArtifactSeen(refs.thesisId.value, asOf));
      if t.None? then ([], [])
      else if ValidAt(t.value, asOf) then ([Show(t.value)], [])
      else ([], ["thesis_not_valid_at_as_of_excluded"])
  }

  function ForecastSection(j: Journal, refs: Refs, asOf: string): (seq<Shown>, seq<string>) {
    if Present(refs.forecastId).None? then ([], [])
    else
      var f := First(j.forecasts, ArtifactSeen(refs.forecastId.value, asOf));
      if f.None? then ([], [])
      else
        var linked := if f.value.parent != "" then First(j.theses, ArtifactSeen(f.value.parent, asOf)) else None;
        var linkedValid := linked.None? || ValidAt(linked.value, asOf);
        if ValidAt(f.value, asOf) && linkedValid then ([Show(f.value)], [])
        else if ValidAt(f.value, asOf) then ([], ["forecast_linked_thesis_not_valid_at_as_of_excluded"])
        else ([], ["forecast_not_valid_at_as_of_excluded"])
  }

  predicate Links(e: Edge, s: Source, kind: string, id: string) {
    (e.sourceKind == "source" && e.sourceId == s.id && e.targetKind == kind && e.targetId == id)
    || (e.targetKind == "source" && e.targetId == s.id && e.sourceKind == kind && e.sourceId == id)
  }

  function LinkedSource(edges: seq<Edge>, kind: string, id: string, asOf: string): Source -> bool {
    (s: Source) => StrLeq(s.createdAt, asOf) && exists e :: e in edges && StrLeq(e.createdAt, asOf) && Links(e, s, kind, id)
  }

  predicate SourceLeq(a: Source, b: Source) {
    if a.createdAt != b.createdAt then StrLt(a.createdAt, b.createdAt) else StrLeq(a.id, b.id)
  }

  function NotSensitive(): Source -> bool { (s: Source) => !s.sensitive }

  function SourcesOf(j: Journal, kind: string, id: Option<string>, asOf: string, limit: nat): seq<Source> {
    if Present(id).None? then []
    else Filter(Take(SortBy(Filter(j.sources, LinkedSource(j.edges, kind, id.value, asOf)), SourceLeq), limit), NotSensitive())
  }

  const EMPTY := Context(None, [], [], [], [])

  function ContextOf(j: Journal, item: Item, refs: Refs, asOf: string, mode: string, limit: nat): (Context, seq<string>) {
    var instrumentId := Present(CaseInstrumentId(j, item, refs));
    var (theses, thesisCaveats) := ThesisSection(j, refs, asOf);
    var (forecasts, forecastCaveats) := ForecastSection(j, refs, asOf);
    var snapshot := if item.kind.DecisionCase? && Present(refs.snapshotId).Some?
                    then First(j.snapshots, SnapshotSeen(refs.snapshotId.value, asOf)) else None;
    (Context(
       if instrumentId.None? then None else First(j.instruments, InstrumentSeen(instrumentId.value, asOf)),
       if snapshot.None? then [] else [snapshot.value],
       theses,
       if item.kind.ForecastCase? && mode == "forecast_only" then [] else forecasts,
       SourcesOf(j, KindName(item.kind), Some(item.id), asOf, limit)
       + SourcesOf(j, "forecast", refs.forecastId, asOf, limit)
       + SourcesOf(j, "thesis", refs.thesisId, asOf, limit)),
     thesisCaveats + forecastCaveats)
  }

  /** `_case`, without the evaluator's labels and the list of exclusions. */
  function CaseOf(j: Journal, suffix: Suffix, item: Item, asOf: string, mode: string, limit: nat): Case {
    var (context, caveats) := if item.refs.None? then (EMPTY, ["recall_event_context_summary_unavailable_v0"])
                              else ContextOf(j, item, item.refs.value, asOf, mode, limit);
    Case(CaseId(suffix, KindName(item.kind), item.id, asOf, mode), item.kind, item.id, context, caveats)
  }

  function CasesOf(j: Journal, suffix: Suffix, items: seq<Item>, asOf: string, mode: string, limit: nat): seq<Case> {
    if items == [] then []
    else CasesOf(j, suffix, items[..|items| - 1], asOf, mode, limit) + [CaseOf(j, suffix, items[|items| - 1], asOf, mode, limit)]
  }

  function Cases(j: Journal, suffix: Suffix, sel: Selection, asOf: string, mode: string, limit: nat): Result<seq<Case>, SelectionError> {
    match Select(j, suffix, sel, asOf, mode)
    case Err(e) => Err(e)
    case Ok(items) => Ok(CasesOf(j, suffix, items, asOf, mode, limit))
  }

  /** The loop of `export_case_bundle`. */
  method ExportCases(j: Journal, suffix: Suffix, sel: Selection, asOf: string, mode: string, limit: nat)
    returns (r: Result<seq<Case>, SelectionError>)
    ensures r == Cases(j, suffix, sel, asOf, mode, limit)
  {
    var items := RowsForSelection(j, suffix, sel, asOf, mode);
    if items.Err? {
      return Err(items.error);
    }
    var cases := [];
    for i := 0 to |items.value|
      invariant cases == CasesOf(j, suffix, items.value[..i], asOf, mode, limit)
    {
      assert items.value[..i + 1][..i] == items.value[..i];
      cases := cases + [CaseOf(j, suffix, items.value[i], asOf, mode, limit)];
    }
    assert items.value[..|items.value|] == items.value;
    return Ok(cases);
  }
}
