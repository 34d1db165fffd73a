/** What a replay case shows (src/trade_trace/reports/replay.py, `_case`). */
module CaseContexts {
  // Said row by row, without the lookups: a case shows a thesis, forecast, snapshot or instrument
  // exactly when it names it and it was recorded, and in force, at that moment.

  import opened Outcomes
  import opened Orders
  import opened Replay
  import opened Selections

  ghost predicate OneOfEach(j: Journal) {
    && OneInstrumentEach(j) && OneThesisEach(j)
    && (forall a, b :: a in j.forecasts && b in j.forecasts && a.id == b.id ==> a == b)
    && (forall a, b :: a in j.snapshots && b in j.snapshots && a.id == b.id ==> a == b)
  }

  /** The id is given and not empty. */
  predicate Gives(id: Option<string>, value: string) {
    id == Some(value) && value != ""
  }

  // ---- theses ----

  predicate IsShown(s: Shown, a: Artifact) {
    s.id == a.id && s.createdAt == a.createdAt && s.validity == a.validity && s.parent == a.parent && s.body == a.body
  }

  ghost predicate ShowsThesis(j: Journal, refs: Refs, asOf: string, s: Shown) {
    exists t :: t in j.theses && Gives(refs.thesisId, t.id) && InForce(t, asOf) && IsShown(s, t)
  }

  ghost predicate ThesisStale(j: Journal, refs: Refs, asOf: string) {
    exists t :: t in j.theses && Gives(refs.thesisId, t.id) && Recorded(t.createdAt, asOf) && !InForce(t, asOf)
  }

  lemma ThesisSectionIs(j: Journal, refs: Refs, asOf: string)
    requires OneOfEach(j)
    ensures var (shown, caveats) := ThesisSection(j, refs, asOf);
            && |shown| <= 1 && (forall s :: s in shown <==> ShowsThesis(j, refs, asOf, s))
            && caveats == (if ThesisStale(j, refs, asOf) then ["thesis_not_valid_at_as_of_excluded"] else [])
  {
    if Present(refs.thesisId).Some? {
      var t := First(j.theses, ArtifactSeen(refs.thesisId.value, asOf));
      forall other | other in j.theses && other.id == refs.thesisId.value && Recorded(other.createdAt, asOf) ensures t == Some(other) {
        assert ArtifactSeen(refs.thesisId.value, asOf)(other);
      }
      if t.Some? {
        InForceIff(t.value, asOf);
        forall s ensures IsShown(s, t.value) <==> s == Show(t.value) {
        }
      }
    }
  }

  // ---- forecasts ----

  /** No thesis recorded by then is out of force. */
  ghost predicate NotStale(j: Journal, id: string, asOf: string) {
    forall t :: t in j.theses && t.id == id && id != "" && Recorded(t.createdAt, asOf) ==> InForce(t, asOf)
  }

  ghost predicate ShowsForecast(j: Journal, refs: Refs, asOf: string, s: Shown) {
    exists f :: f in j.forecasts && Gives(refs.forecastId, f.id) && InForce(f, asOf) && NotStale(j, f.parent, asOf) && IsShown(s, f)
  }

  ghost predicate ForecastOf(j: Journal, refs: Refs, asOf: string, f: Artifact) {
    f in j.forecasts && Gives(refs.forecastId, f.id) && Recorded(f.createdAt, asOf)
  }

  lemma ForecastSectionIs(j: Journal, refs: Refs, asOf: string)
    requires OneOfEach(j)
    ensures var (shown, caveats) := ForecastSection(j, refs, asOf);
            && |shown| <= 1 && (forall s :: s in shown <==> ShowsForecast(j, refs, asOf, s))
            && (forall f :: ForecastOf(j, refs, asOf, f) ==>
                  caveats == (if !InForce(f, asOf) then ["forecast_not_valid_at_as_of_excluded"]
                              else if !NotStale(j, f.parent, asOf) then ["forecast_linked_thesis_not_valid_at_as_of_excluded"]
                              else []))
            && ((forall f :: !ForecastOf(j, refs, asOf, f)) ==> caveats == [])
  {
    if Present(refs.forecastId).Some? {
      var found := First(j.forecasts, ArtifactSeen(refs.forecastId.value, asOf));
      forall f | ForecastOf(j, refs, asOf, f) ensures found == Some(f) {
        assert ArtifactSeen(refs.forecastId.value, asOf)(f);
      }
      if found.Some? {
        var f := found.value;
        assert ForecastOf(j, refs, asOf, f);
        InForceIff(f, asOf);
        NotStaleIff(j, f.parent, asOf);
        forall s ensures IsShown(s, f) <==> s == Show(f) {
        }
      }
    }
  }

  lemma NotStaleIff(j: Journal, id: string, asOf: string)
    requires OneThesisEach(j)
    ensures var t := if id != "" then First(j.theses, ArtifactSeen(id, asOf)) else None;
            NotStale(j, id, asOf) <==> t.None? || ValidAt(t.value, asOf)
  {
    var t := First(j.theses, ArtifactSeen(id, asOf));
    if t.Some? {
      InForceIff(t.value, asOf);
    }
    forall other | other in j.theses && other.id == id && Recorded(other.createdAt, asOf) ensures t == Some(other) {
      assert ArtifactSeen(id, asOf)(other);
    }
  }

  // ---- sources ----

  /** An edge recorded by then links the source, itself recorded, with the row. */
  ghost predicate Cites(j: Journal, s: Source, kind: string, id: string, asOf: string) {
    && Recorded(s.createdAt, asOf)
    && exists e :: e in j.edges && Recorded(e.createdAt, asOf)
         && ((e.sourceKind == "source" && e.sourceId == s.id && e.targetKind == kind && e.targetId == id)
             || (e.targetKind == "source" && e.targetId == s.id && e.sourceKind == kind && e.sourceId == id))
  }

  predicate NoLaterThan(a: Source, b: Source) {
    StrLt(a.createdAt, b.createdAt) || (a.createdAt == b.createdAt && (a.id == b.id || StrLt(a.id, b.id)))
  }

  /** `top` is the oldest `limit` of the cited sources. */
  ghost predicate IsOldestCited(j: Journal, top: seq<Source>, kind: string, id: string, asOf: string, limit: nat) {
    && |top| <= limit && (forall a, b :: 0 <= a < b < |top| ==> NoLaterThan(top[a], top[b]))
    && (forall s :: s in top ==> s in j.sources && Cites(j, s, kind, id, asOf))
    && (forall s :: s in j.sources && Cites(j, s, kind, id, asOf) && s !in top ==>
          |top| == limit && forall t :: t in top ==> NoLaterThan(t, s))
  }

  lemma CitesIff(j: Journal, s: Source, kind: string, id: string, asOf: string)
    ensures LinkedSource(j.edges, kind, id, asOf)(s) <==> Cites(j, s, kind, id, asOf)
  {
    if LinkedSource(j.edges, kind, id, asOf)(s) {
      var e :| e in j.edges && StrLeq(e.createdAt, asOf) && Links(e, s, kind, id);
      assert Recorded(e.createdAt, asOf);
    }
    if Cites(j, s, kind, id, asOf) {
      var e :| e in j.edges && Recorded(e.createdAt, asOf)
        && ((e.sourceKind == "source" && e.sourceId == s.id && e.targetKind == kind && e.targetId == id)
            || (e.targetKind == "source" && e.targetId == s.id && e.sourceKind == kind && e.sourceId == id));
      assert Links(e, s, kind, id) && StrLeq(e.createdAt, asOf);
    }
  }

  lemma SourceLeqOrder()
    ensures TotalPreorder(SourceLeq)
  {
    forall a, b ensures SourceLeq(a, b) || SourceLeq(b, a) {
      StrTotal(a.createdAt, b.createdAt);
      StrTotal(a.id, b.id);
    }
    forall a, b, c | SourceLeq(a, b) && SourceLeq(b, c) ensures SourceLeq(a, c) {
      Chain(a.createdAt, b.createdAt, c.createdAt);
      Chain(a.id, b.id, c.id);
    }
  }

  /** The sources shown are the oldest cited ones, and of those the ones that are not sensitive:
      a sensitive one takes up room. */
  lemma SourcesAre(j: Journal, kind: string, id: string, asOf: string, limit: nat) returns (top: seq<Source>)
    requires id != ""
    ensures IsOldestCited(j, top, kind, id, asOf, limit)
    ensures forall s :: s in SourcesOf(j, kind, Some(id), asOf, limit) <==> s in top && !s.sensitive
    ensures SourcesOf(j, kind, Some(id), asOf, limit) == Filter(top, NotSensitive())
  {
    var cited := Filter(j.sources, LinkedSource(j.edges, kind, id, asOf));
    var sorted := SortBy(cited, SourceLeq);
    top := Take(sorted, limit);
    SourceLeqOrder();
    SortBySorts(cited, SourceLeq);
    SameMembers(sorted, cited);
    forall s ensures s in cited <==> s in j.sources && Cites(j, s, kind, id, asOf) {
      CitesIff(j, s, kind, id, asOf);
    }
    forall a, b | 0 <= a < b < |sorted| ensures NoLaterThan(sorted[a], sorted[b]) {
      assert SourceLeq(sorted[a], sorted[b]);
    }
    assert forall i :: 0 <= i < |top| ==> top[i] == sorted[i] && top[i] in top && top[i] in sorted;
    forall s | s in cited && s !in top ensures |top| == limit && forall t :: t in top ==> NoLaterThan(t, s) {
      assert s in sorted;
      var k :| 0 <= k < |sorted| && sorted[k] == s;
    }
  }

  // ---- the whole case ----

  /** The instrument a case is about: a forecast's is its thesis's, if that is on record. */
  ghost predicate IsAbout(j: Journal, item: Item, refs: Refs, id: Option<string>) {
    if item.kind == ForecastCase && exists t :: t in j.theses && Gives(refs.thesisId, t.id)
    then exists t :: t in j.theses && Gives(refs.thesisId, t.id) && id == Some(t.parent)
    else id == refs.instrumentId
  }

  lemma AboutIs(j: Journal, item: Item, refs: Refs)
    requires OneOfEach(j)
    ensures IsAbout(j, item, refs, CaseInstrumentId(j, item, refs))
  {
    if t :| t in j.theses && Gives(refs.thesisId, t.id) {
      ThesisFound(j, t.id, t);
    }
  }

  ghost predicate ShowsInstrument(j: Journal, id: Option<string>, asOf: string, i: Instrument) {
    i in j.instruments && Gives(id, i.id) && Recorded(i.createdAt, asOf)
  }

  ghost predicate ShowsSnapshot(j: Journal, item: Item, refs: Refs, asOf: string, s: Snapshot) {
    item.kind == DecisionCase && s in j.snapshots && Gives(refs.snapshotId, s.id) && Recorded(s.createdAt, asOf)
  }

  lemma LookupsAre(j: Journal, item: Item, refs: Refs, asOf: string, mode: string, limit: nat)
    requires OneOfEach(j)
    ensures var c := ContextOf(j, item, refs, asOf, mode, limit).0;
            && (forall i :: c.instrument == Some(i) <==> ShowsInstrument(j, CaseInstrumentId(j, item, refs), asOf, i))
            && |c.snapshots| <= 1 && (forall s :: s in c.snapshots <==> ShowsSnapshot(j, item, refs, asOf, s))
  {
    var about := CaseInstrumentId(j, item, refs);
    if Present(about).Some? {
      forall i | ShowsInstrument(j, about, asOf, i) ensures First(j.instruments, InstrumentSeen(about.value, asOf)) == Some(i) {
        assert InstrumentSeen(about.value, asOf)(i);
      }
    }
    if Present(refs.snapshotId).Some? {
      forall s | s in j.snapshots && Gives(refs.snapshotId, s.id) && Recorded(s.createdAt, asOf)
        ensures First(j.snapshots, SnapshotSeen(refs.snapshotId.value, asOf)) == Some(s)
      {
        assert SnapshotSeen(refs.snapshotId.value, asOf)(s);
      }
    }
  }

  /** What a case shows: the instrument it is about, a decision's snapshot, the thesis and the
      forecast it names as far as they were in force, the sources cited by the row itself, its
      forecast and its thesis, and a caveat for each row kept back.  A blind forecast case does not
      show its forecast. */
  lemma ContextIs(j: Journal, item: Item, refs: Refs, asOf: string, mode: string, limit: nat)
    requires OneOfEach(j)
    ensures var (c, caveats) := ContextOf(j, item, refs, asOf, mode, limit);
            && (exists id :: IsAbout(j, item, refs, id) && forall i :: c.instrument == Some(i) <==> ShowsInstrument(j, id, asOf, i))
            && |c.snapshots| <= 1 && (forall s :: s in c.snapshots <==> ShowsSnapshot(j, item, refs, asOf, s))
            && |c.theses| <= 1 && (forall s :: s in c.theses <==> ShowsThesis(j, refs, asOf, s))
            && |c.forecasts| <= 1
            && (forall s :: s in c.forecasts <==>
                  ShowsForecast(j, refs, asOf, s) && !(item.kind == ForecastCase && mode == "forecast_only"))
            && c.sources == SourcesOf(j, KindName(item.kind), Some(item.id), asOf, limit)
                            + SourcesOf(j, "forecast", refs.forecastId, asOf, limit) + SourcesOf(j, "thesis", refs.thesisId, asOf, limit)
            && caveats == ThesisSection(j, refs, asOf).1 + ForecastSection(j, refs, asOf).1
  {
    AboutIs(j, item, refs);
    LookupsAre(j, item, refs, asOf, mode, limit);
    ThesisSectionIs(j, refs, asOf);
    ForecastSectionIs(j, refs, asOf);
  }

  /** A case is named after its row, moment and mode, and shows its context; a recall event has none. */
  lemma CaseIs(j: Journal, suffix: Suffix, item: Item, asOf: string, mode: string, limit: nat)
    ensures var c := CaseOf(j, suffix, item, asOf, mode, limit);
            && c.caseId == "derived:" + KindName(item.kind) + ":" + item.id + ":replay:v0:" + suffix(KindName(item.kind), item.id, asOf, mode)
            && c.kind == item.kind && c.sourceId == item.id
            && (item.refs.Some? ==> (c.context, c.caveats) == ContextOf(j, item, item.refs.value, asOf, mode, limit))
            && (item.refs.None? ==> c.context == Context(None, [], [], [], []) && c.caveats == ["recall_event_context_summary_unavailable_v0"])
  {
    CaseIdReads(suffix, KindName(item.kind), item.id, asOf, mode);
  }

  /** The id of a case, given back as a request, names its row again, if that has no colon. */
  lemma CaseIdNamesRow(j: Journal, suffix: Suffix, item: Item, asOf: string, mode: string, limit: nat)
    requires NoColons(suffix) && ':' !in item.id
    ensures ParseCaseId(suffix, CaseOf(j, suffix, item, asOf, mode, limit).caseId, asOf, mode) == Some(Ref(KindName(item.kind), item.id))
  {
    KindsAreNamed(item.kind, KindName(item.kind));
    ParseIffPrinted(suffix, CaseId(suffix, KindName(item.kind), item.id, asOf, mode), KindName(item.kind), item.id, asOf, mode);
  }

  /** One case for each selected item, in order. */
  lemma {:induction false} CasesAre(j: Journal, suffix: Suffix, items: seq<Item>, asOf: string, mode: string, limit: nat)
    ensures var cases := CasesOf(j, suffix, items, asOf, mode, limit);
            |cases| == |items| && forall k :: 0 <= k < |items| ==> cases[k] == CaseOf(j, suffix, items[k], asOf, mode, limit)
    decreases |items|
  {
    if items != [] {
      CasesAre(j, suffix, items[..|items| - 1], asOf, mode, limit);
    }
  }

  /** The answer to a request is the cases of what it selects. */
  lemma AnswerIs(j: Journal, suffix: Suffix, sel: Selection, asOf: string, mode: string, limit: nat)
    ensures var items, cases := Select(j, suffix, sel, asOf, mode), Cases(j, suffix, sel, asOf, mode, limit);
            && (items.Err? ==> cases == Err(items.error))
            && (items.Ok? ==>
                  && cases.Ok? && |cases.value| == |items.value|
                  && forall k :: 0 <= k < |items.value| ==> cases.value[k] == CaseOf(j, suffix, items.value[k], asOf, mode, limit))
  {
    if Select(j, suffix, sel, asOf, mode).Ok? {
      CasesAre(j, suffix, Select(j, suffix, sel, asOf, mode).value, asOf, mode, limit);
    }
  }
}
