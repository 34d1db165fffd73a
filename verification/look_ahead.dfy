/** Replay cases do not look ahead. */
module LookAhead {
  // `AsOfView` is the journal as it stood at a moment: later rows removed, and ends of validity
  // that had not come yet forgotten.  But for the ends of validity that a case echoes as they are
  // on record now, the cases of a journal are the cases of its view, so two journals that stood
  // alike at `asOf` yield the same cases whatever happened since.  When the whole answer is the
  // view's, echoed ends and reasons of rejection included, is characterised exactly.

  import opened Outcomes
  import opened Orders
  import opened Text
  import opened Replay

  // ---- the journal as it stood ----

  function EndAsOf(end: Option<string>, asOf: string): Option<string> {
    if end.Some? && StrLeq(end.value, asOf) then end else None
  }

  function Mask(a: Artifact, asOf: string): Artifact {
    a.(validity := a.validity.(to := EndAsOf(a.validity.to, asOf),
                               invalidatedAt := EndAsOf(a.validity.invalidatedAt, asOf)))
  }

  function SeenArtifacts(rows: seq<Artifact>, asOf: string): seq<Artifact> {
    if rows == [] then []
    else if StrLeq(rows[0].createdAt, asOf) then [Mask(rows[0], asOf)] + SeenArtifacts(rows[1..], asOf)
    else SeenArtifacts(rows[1..], asOf)
  }

  function DecisionAt(asOf: string): Decision -> bool { (d: Decision) => StrLeq(d.createdAt, asOf) }
  function InstrumentAt(asOf: string): Instrument -> bool { (i: Instrument) => StrLeq(i.createdAt, asOf) }
  function SnapshotAt(asOf: string): Snapshot -> bool { (s: Snapshot) => StrLeq(s.createdAt, asOf) }
  function SourceAt(asOf: string): Source -> bool { (s: Source) => StrLeq(s.createdAt, asOf) }
  function EdgeAt(asOf: string): Edge -> bool { (e: Edge) => StrLeq(e.createdAt, asOf) }
  function RecallAt(asOf: string): Recall -> bool { (r: Recall) => StrLeq(r.createdAt, asOf) }

  function AsOfView(j: Journal, asOf: string): Journal {
    Journal(Filter(j.decisions, DecisionAt(asOf)), SeenArtifacts(j.theses, asOf), SeenArtifacts(j.forecasts, asOf),
            Filter(j.instruments, InstrumentAt(asOf)), Filter(j.snapshots, SnapshotAt(asOf)),
            Filter(j.sources, SourceAt(asOf)), Filter(j.edges, EdgeAt(asOf)), Filter(j.recalls, RecallAt(asOf)))
  }

  // ---- what the database guarantees ----

  ghost predicate PrimaryKeys(j: Journal) {
    && (forall a, b :: a in j.theses && b in j.theses && a.id == b.id ==> a == b)
    && (forall a, b :: a in j.instruments && b in j.instruments && a.id == b.id ==> a == b)
    && (forall a, b :: a in j.recalls && b in j.recalls && a.id == b.id ==> a == b)
  }

  predicate InstrumentKnown(j: Journal, id: string, asOf: string) {
    var i := First(j.instruments, InstrumentIs(id));
    i.None? || StrLeq(i.value.createdAt, asOf)
  }

  predicate ThesisKnown(j: Journal, id: string, asOf: string) {
    var t := First(j.theses, ArtifactIs(id));
    t.None? || StrLeq(t.value.createdAt, asOf)
  }

  /** Foreign keys point backwards, as far as a selection by filter follows them: the symbol of
      a recorded decision's instrument, and the instrument of a recorded thesis. */
  ghost predicate RefersBack(j: Journal, filter: CaseFilter, asOf: string) {
    && (filter.symbols != [] ==>
          forall d :: d in j.decisions && StrLeq(d.createdAt, asOf) ==> InstrumentKnown(j, d.instrumentId, asOf))
    && (forall t :: t in j.theses && StrLeq(t.createdAt, asOf) ==> InstrumentKnown(j, t.parent, asOf))
  }

  ghost predicate Consistent(j: Journal, sel: Selection, asOf: string) {
    PrimaryKeys(j) && (sel.sourceRefs == [] && sel.caseIds == [] ==> RefersBack(j, sel.filter, asOf))
  }

  // ---- lookups in the view ----

  lemma {:induction false} FirstOfFilter<T(!new)>(rows: seq<T>, keep: T -> bool, p: T -> bool, q: T -> bool)
    requires forall x :: x in rows ==> (q(x) <==> keep(x) && p(x))
    ensures First(Filter(rows, keep), p) == First(rows, q)
  {
    if rows != [] {
      FirstOfFilter(rows[1..], keep, p, q);
      assert rows[0] in rows;
    }
  }

  lemma {:induction false} FilterOfFilter<T(!new)>(rows: seq<T>, keep: T -> bool, p: T -> bool, q: T -> bool)
    requires forall x :: x in rows ==> (q(x) <==> keep(x) && p(x))
    ensures Filter(Filter(rows, keep), p) == Filter(rows, q)
  {
    if rows != [] {
      FilterOfFilter(rows[1..], keep, p, q);
      assert rows[0] in rows;
    }
  }

  function Masked(a: Option<Artifact>, asOf: string): Option<Artifact> {
    if a.None? then None else Some(Mask(a.value, asOf))
  }

  lemma {:induction false} FirstOfSeen(rows: seq<Artifact>, asOf: string, p: Artifact -> bool, q: Artifact -> bool)
    requires forall a :: a in rows ==> (q(a) <==> StrLeq(a.createdAt, asOf) && p(Mask(a, asOf)))
    ensures First(SeenArtifacts(rows, asOf), p) == Masked(First(rows, q), asOf)
  {
    if rows != [] {
      FirstOfSeen(rows[1..], asOf, p, q);
      assert rows[0] in rows;
    }
  }

  /** A lookup without a cutoff finds in the view what it found, if that was recorded. */
  lemma ThesisById(j: Journal, id: string, asOf: string)
    requires PrimaryKeys(j)
    ensures var t := First(j.theses, ArtifactIs(id));
            First(AsOfView(j, asOf).theses, ArtifactIs(id))
            == if t.Some? && StrLeq(t.value.createdAt, asOf) then Masked(t, asOf) else None
  {
    var t := First(j.theses, ArtifactIs(id));
    FirstOfSeen(j.theses, asOf, ArtifactIs(id), ArtifactSeen(id, asOf));
    var s := First(j.theses, ArtifactSeen(id, asOf));
    if t.Some? && s.Some? {
      assert t.value.id == s.value.id;
    }
  }

  lemma InstrumentById(j: Journal, id: string, asOf: string)
    requires PrimaryKeys(j) && InstrumentKnown(j, id, asOf)
    ensures First(AsOfView(j, asOf).instruments, InstrumentIs(id)) == First(j.instruments, InstrumentIs(id))
  {
    var i := First(j.instruments, InstrumentIs(id));
    FirstOfFilter(j.instruments, InstrumentAt(asOf), InstrumentIs(id), InstrumentSeen(id, asOf));
    var s := First(j.instruments, InstrumentSeen(id, asOf));
    if i.Some? && s.Some? {
      assert i.value.id == s.value.id;
    }
  }

  /** Validity at `asOf` does not see later ends. */
  lemma MaskKeepsValidity(a: Artifact, asOf: string)
    ensures ValidAt(Mask(a, asOf), asOf) <==> ValidAt(a, asOf)
    ensures SqlValid(Mask(a, asOf), asOf).Yes? <==> SqlValid(a, asOf).Yes?
  {
    ClauseIsCheck(a, asOf);
    ClauseIsCheck(Mask(a, asOf), asOf);
    EndsLater(a.validity.to, asOf);
    EndsLater(a.validity.invalidatedAt, asOf);
  }

  lemma EndsLater(end: Option<string>, asOf: string)
    ensures end.Some? ==> (StrLt(asOf, end.value) <==> !StrLeq(end.value, asOf))
  {
    if end.Some? {
      StrTotal(asOf, end.value);
      StrAsymmetric(asOf, end.value);
    }
  }

  // ---- selection ----

  lemma JoinsInView(j: Journal, f: Artifact, asOf: string)
    requires PrimaryKeys(j) && StrLeq(f.createdAt, asOf)
    ensures ForecastJoins(Mask(f, asOf), AsOfView(j, asOf).theses, asOf) <==> ForecastJoins(f, j.theses, asOf)
  {
    MaskKeepsValidity(f, asOf);
    ThesisById(j, f.parent, asOf);
    var t := First(j.theses, ArtifactIs(f.parent));
    if t.Some? {
      MaskKeepsValidity(t.value, asOf);
      ClauseIsCheck(t.value, asOf);
    }
  }

  lemma DecisionMatchInView(j: Journal, filter: CaseFilter, asOf: string, d: Decision)
    requires PrimaryKeys(j) && RefersBack(j, filter, asOf) && d in j.decisions && StrLeq(d.createdAt, asOf)
    ensures DecisionMatches(AsOfView(j, asOf), filter, asOf, d) <==> DecisionMatches(j, filter, asOf, d)
  {
    if filter.symbols != [] {
      InstrumentById(j, d.instrumentId, asOf);
    }
  }

  lemma ForecastMatchInView(j: Journal, filter: CaseFilter, asOf: string, ids: seq<string>, f: Artifact)
    requires PrimaryKeys(j) && RefersBack(j, filter, asOf) && StrLeq(f.createdAt, asOf)
    ensures ForecastMatches(AsOfView(j, asOf), filter, asOf, ids, Mask(f, asOf)) <==> ForecastMatches(j, filter, asOf, ids, f)
  {
    JoinsInView(j, f, asOf);
    if ForecastJoins(f, j.theses, asOf) {
      var t := First(j.theses, ArtifactIs(f.parent)).value;
      ClauseIsCheck(t, asOf);
      ThesisById(j, f.parent, asOf);
      InstrumentById(j, t.parent, asOf);
    }
  }

  lemma {:induction false} MatchingDecisionsInView(j: Journal, filter: CaseFilter, asOf: string, rows: seq<Decision>)
    requires PrimaryKeys(j) && RefersBack(j, filter, asOf) && forall d :: d in rows ==> d in j.decisions
    ensures MatchingDecisions(AsOfView(j, asOf), filter, asOf, Filter(rows, DecisionAt(asOf)))
         == MatchingDecisions(j, filter, asOf, rows)
  {
    if rows != [] {
      MatchingDecisionsInView(j, filter, asOf, rows[1..]);
      assert rows[0] in rows;
      if StrLeq(rows[0].createdAt, asOf) {
        DecisionMatchInView(j, filter, asOf, rows[0]);
        assert Filter(rows, DecisionAt(asOf))[1..] == Filter(rows[1..], DecisionAt(asOf));
      }
    }
  }

  lemma {:induction false} MatchingForecastsInView(j: Journal, filter: CaseFilter, asOf: string, ids: seq<string>, rows: seq<Artifact>)
    requires PrimaryKeys(j) && RefersBack(j, filter, asOf) && forall f :: f in rows ==> f in j.forecasts
    ensures MatchingForecasts(AsOfView(j, asOf), filter, asOf, ids, SeenArtifacts(rows, asOf))
         == MatchingForecasts(j, filter, asOf, ids, rows)
  {
    if rows != [] {
      MatchingForecastsInView(j, filter, asOf, ids, rows[1..]);
      if StrLeq(rows[0].createdAt, asOf) {
        ForecastMatchInView(j, filter, asOf, ids, rows[0]);
        assert SeenArtifacts(rows, asOf)[1..] == SeenArtifacts(rows[1..], asOf);
      } else {
        ClauseIsCheck(rows[0], asOf);
      }
    }
  }

  lemma ByFilterInView(j: Journal, filter: CaseFilter, asOf: string, maxCases: nat)
    requires PrimaryKeys(j) && RefersBack(j, filter, asOf)
    ensures ByFilter(AsOfView(j, asOf), filter, asOf, maxCases) == ByFilter(j, filter, asOf, maxCases)
  {
    MatchingDecisionsInView(j, filter, asOf, j.decisions);
    var decisions := Take(SortBy(MatchingDecisions(j, filter, asOf, j.decisions), CaseLeq), maxCases);
    MatchingForecastsInView(j, filter, asOf, ForecastIds(decisions), j.forecasts);
  }

  /** Equal results, or a rejection on both sides; the reason may differ. */
  ghost predicate SameOutcome<T>(a: Result<T, SelectionError>, b: Result<T, SelectionError>) {
    (a.Ok? <==> b.Ok?) && (a.Ok? ==> a == b)
  }

  lemma RecallInView(j: Journal, id: string, asOf: string)
    requires PrimaryKeys(j)
    ensures var r := First(j.recalls, RecallIs(id));
            First(AsOfView(j, asOf).recalls, RecallIs(id)) == if r.Some? && StrLeq(r.value.createdAt, asOf) then r else None
  {
    var r := First(j.recalls, RecallIs(id));
    FirstOfFilter(j.recalls, RecallAt(asOf), RecallIs(id), RecallSeen(id, asOf));
    var s := First(j.recalls, RecallSeen(id, asOf));
    if r.Some? && s.Some? {
      assert r.value.id == s.value.id;
    }
  }

  function RecallSeen(id: string, asOf: string): Recall -> bool { (r: Recall) => r.id == id && StrLeq(r.createdAt, asOf) }

  lemma ByRefInView(j: Journal, ref: Ref, asOf: string)
    requires PrimaryKeys(j)
    ensures SameOutcome(ByRef(AsOfView(j, asOf), ref, asOf), ByRef(j, ref, asOf))
    ensures ByRef(AsOfView(j, asOf), ref, asOf) == ByRef(j, ref, asOf) <==> !LateRecall(j, ref, asOf)
  {
    match KindNamed(ref.kind)
    case None =>
    case Some(RecallCase) =>
      RecallInView(j, ref.id, asOf);
      var r := First(j.recalls, RecallIs(ref.id));
      if r.Some? {
        EndsLater(Some(r.value.createdAt), asOf);
      }
    case Some(DecisionCase) =>
      FirstOfFilter(j.decisions, DecisionAt(asOf), DecisionSeen(ref.id, asOf), DecisionSeen(ref.id, asOf));
    case Some(ForecastCase) =>
      ForecastByIdInView(j, ref.id, asOf);
  }

  lemma ForecastByIdInView(j: Journal, id: string, asOf: string)
    requires PrimaryKeys(j)
    ensures First(AsOfView(j, asOf).forecasts, ForecastValid(id, AsOfView(j, asOf).theses, asOf))
         == Masked(First(j.forecasts, ForecastValid(id, j.theses, asOf)), asOf)
  {
    var view := AsOfView(j, asOf);
    forall f | f in j.forecasts
      ensures ForecastValid(id, j.theses, asOf)(f)
         <==> StrLeq(f.createdAt, asOf) && ForecastValid(id, view.theses, asOf)(Mask(f, asOf))
    {
      ClauseIsCheck(f, asOf);
      if StrLeq(f.createdAt, asOf) {
        JoinsInView(j, f, asOf);
      }
    }
    FirstOfSeen(j.forecasts, asOf, ForecastValid(id, view.theses, asOf), ForecastValid(id, j.theses, asOf));
  }

  /** The reference names a recall event recorded after `asOf`. */
  predicate LateRecall(j: Journal, ref: Ref, asOf: string) {
    && KindNamed(ref.kind) == Some(RecallCase)
    && var r := First(j.recalls, RecallIs(ref.id));
       r.Some? && StrLt(asOf, r.value.createdAt)
  }

  /** A reference that rejects the request: of no known kind, or a recall event that is missing or late. */
  predicate Offends(j: Journal, ref: Ref, asOf: string) {
    || KindNamed(ref.kind).None?
    || (KindNamed(ref.kind) == Some(RecallCase) && First(j.recalls, RecallIs(ref.id)).None?)
    || LateRecall(j, ref, asOf)
  }

  /** The first reference that offends. */
  function FirstOffending(j: Journal, refs: seq<Ref>, asOf: string): (r: Option<Ref>)
    ensures r.None? <==> forall k :: 0 <= k < |refs| ==> !Offends(j, refs[k], asOf)
    ensures r.Some? ==> exists k :: IsFirstOffending(j, refs, asOf, k, r.value)
    decreases |refs|
  {
    if refs == [] then None
    else
      var init, last := refs[..|refs| - 1], refs[|refs| - 1];
      var before := FirstOffending(j, init, asOf);
      assert refs == init + [last];
      if before.Some? then
        var k :| IsFirstOffending(j, init, asOf, k, before.value);
        assert IsFirstOffending(j, refs, asOf, k, before.value);
        before
      else if Offends(j, last, asOf) then
        assert IsFirstOffending(j, refs, asOf, |refs| - 1, last);
        Some(last)
      else None
  }

  predicate IsFirstOffending(j: Journal, refs: seq<Ref>, asOf: string, k: int, ref: Ref) {
    && 0 <= k < |refs| && refs[k] == ref && Offends(j, ref, asOf)
    && forall i :: 0 <= i < k ==> !Offends(j, refs[i], asOf)
  }

  predicate FirstIsLate(j: Journal, refs: seq<Ref>, asOf: string) {
    FirstOffending(j, refs, asOf).Some? && LateRecall(j, FirstOffending(j, refs, asOf).value, asOf)
  }

  /** References are rejected by the first that offends. */
  lemma {:induction false} RejectedByFirst(j: Journal, refs: seq<Ref>, asOf: string)
    ensures var first := FirstOffending(j, refs, asOf);
            if first.None? then ByRefs(j, refs, asOf).Ok?
            else ByRef(j, first.value, asOf).Err? && ByRefs(j, refs, asOf) == Err(ByRef(j, first.value, asOf).error)
    decreases |refs|
  {
    if refs != [] {
      RejectedByFirst(j, refs[..|refs| - 1], asOf);
    }
  }

  lemma {:induction false} ByRefsInView(j: Journal, refs: seq<Ref>, asOf: string)
    requires PrimaryKeys(j)
    ensures SameOutcome(ByRefs(AsOfView(j, asOf), refs, asOf), ByRefs(j, refs, asOf))
    ensures ByRefs(AsOfView(j, asOf), refs, asOf) == ByRefs(j, refs, asOf) <==> !FirstIsLate(j, refs, asOf)
    decreases |refs|
  {
    if refs != [] {
      ByRefsInView(j, refs[..|refs| - 1], asOf);
      ByRefInView(j, refs[|refs| - 1], asOf);
      RejectedByFirst(j, refs[..|refs| - 1], asOf);
    }
  }

  lemma {:induction false} IdsAsMany(suffix: Suffix, cids: seq<string>, asOf: string, mode: string)
    requires RefsOf(suffix, cids, asOf, mode).Some?
    ensures |RefsOf(suffix, cids, asOf, mode).value| == |cids|
    decreases |cids|
  {
    if cids != [] {
      IdsAsMany(suffix, cids[..|cids| - 1], asOf, mode);
    }
  }

  /** The request is rejected because a recall event it names was recorded after `asOf`. */
  predicate TooLate(j: Journal, suffix: Suffix, sel: Selection, asOf: string, mode: string) {
    && sel.maxCases >= 1
    && NamedRefs(suffix, sel, asOf, mode).Ok?
    && FirstIsLate(j, NamedRefs(suffix, sel, asOf, mode).value, asOf)
  }

  lemma SelectInView(j: Journal, suffix: Suffix, sel: Selection, asOf: string, mode: string)
    requires Consistent(j, sel, asOf)
    ensures SameOutcome(Select(AsOfView(j, asOf), suffix, sel, asOf, mode), Select(j, suffix, sel, asOf, mode))
    ensures Select(AsOfView(j, asOf), suffix, sel, asOf, mode) == Select(j, suffix, sel, asOf, mode)
       <==> !TooLate(j, suffix, sel, asOf, mode)
  {
    var refs := NamedRefs(suffix, sel, asOf, mode);
    if sel.maxCases >= 1 && refs.Ok? {
      if sel.sourceRefs == [] {
        IdsAsMany(suffix, sel.caseIds, asOf, mode);
      }
      if refs.value == [] {
        ByFilterInView(j, sel.filter, asOf, sel.maxCases);
      } else {
        ByRefsInView(j, refs.value, asOf);
      }
    }
  }

  /** The view has not seen the recall event that comes too late. */
  lemma TooLateIsMissing(j: Journal, suffix: Suffix, sel: Selection, asOf: string, mode: string)
    requires PrimaryKeys(j) && TooLate(j, suffix, sel, asOf, mode)
    ensures Select(j, suffix, sel, asOf, mode) == Err(RecallTooLate)
    ensures Select(AsOfView(j, asOf), suffix, sel, asOf, mode) == Err(RecallMissing)
  {
    var refs := NamedRefs(suffix, sel, asOf, mode).value;
    LateIsMissing(j, refs, asOf);
  }

  lemma {:induction false} LateIsMissing(j: Journal, refs: seq<Ref>, asOf: string)
    requires PrimaryKeys(j) && FirstIsLate(j, refs, asOf)
    ensures ByRefs(j, refs, asOf) == Err(RecallTooLate)
    ensures ByRefs(AsOfView(j, asOf), refs, asOf) == Err(RecallMissing)
    decreases |refs|
  {
    var init, last := refs[..|refs| - 1], refs[|refs| - 1];
    if FirstOffending(j, init, asOf).Some? {
      LateIsMissing(j, init, asOf);
    } else {
      RejectedByFirst(j, init, asOf);
      ByRefsInView(j, init, asOf);
      LateRecallIsMissing(j, last, asOf);
    }
  }

  lemma LateRecallIsMissing(j: Journal, ref: Ref, asOf: string)
    requires PrimaryKeys(j) && LateRecall(j, ref, asOf)
    ensures ByRef(j, ref, asOf) == Err(RecallTooLate)
    ensures ByRef(AsOfView(j, asOf), ref, asOf) == Err(RecallMissing)
  {
    RecallInView(j, ref.id, asOf);
    EndsLater(Some(First(j.recalls, RecallIs(ref.id)).value.createdAt), asOf);
  }

  // ---- a selected forecast joins a recorded thesis ----

  predicate ItemKnown(j: Journal, asOf: string, item: Item) {
    item.kind.ForecastCase? && item.refs.Some? && item.refs.value.thesisId.Some? ==>
      ThesisKnown(j, item.refs.value.thesisId.value, asOf)
  }

  ghost predicate ItemsKnown(j: Journal, asOf: string, items: seq<Item>) {
    forall item :: item in items ==> ItemKnown(j, asOf, item)
  }

  lemma {:induction false} DecisionsKnown(j: Journal, filter: CaseFilter, asOf: string, rows: seq<Decision>)
    ensures ItemsKnown(j, asOf, MatchingDecisions(j, filter, asOf, rows))
  {
    if rows != [] {
      DecisionsKnown(j, filter, asOf, rows[1..]);
    }
  }

  lemma ForecastKnown(j: Journal, asOf: string, f: Artifact)
    requires ForecastJoins(f, j.theses, asOf)
    ensures ItemKnown(j, asOf, ForecastItem(f))
  {
    ClauseIsCheck(First(j.theses, ArtifactIs(f.parent)).value, asOf);
  }

  lemma {:induction false} ForecastsKnown(j: Journal, filter: CaseFilter, asOf: string, ids: seq<string>, rows: seq<Artifact>)
    ensures ItemsKnown(j, asOf, MatchingForecasts(j, filter, asOf, ids, rows))
  {
    if rows != [] {
      ForecastsKnown(j, filter, asOf, ids, rows[1..]);
      if ForecastMatches(j, filter, asOf, ids, rows[0]) {
        ForecastKnown(j, asOf, rows[0]);
      }
    }
  }

  lemma SortedKnown(j: Journal, asOf: string, items: seq<Item>, n: nat)
    requires ItemsKnown(j, asOf, items)
    ensures ItemsKnown(j, asOf, Take(SortBy(items, CaseLeq), n))
  {
    SameMembers(SortBy(items, CaseLeq), items);
  }

  lemma RefKnown(j: Journal, ref: Ref, asOf: string)
    requires ByRef(j, ref, asOf).Ok?
    ensures ItemsKnown(j, asOf, ByRef(j, ref, asOf).value)
  {
    var row := First(j.forecasts, ForecastValid(ref.id, j.theses, asOf));
    if KindNamed(ref.kind) == Some(ForecastCase) && row.Some? {
      ForecastKnown(j, asOf, row.value);
      assert ByRef(j, ref, asOf).value == [ForecastItem(row.value)];
    } else {
      forall item | item in ByRef(j, ref, asOf).value ensures !item.kind.ForecastCase? {
      }
    }
  }

  lemma {:induction false} RefsKnown(j: Journal, refs: seq<Ref>, asOf: string)
    requires ByRefs(j, refs, asOf).Ok?
    ensures ItemsKnown(j, asOf, ByRefs(j, refs, asOf).value)
    decreases |refs|
  {
    if refs != [] {
      RefsKnown(j, refs[..|refs| - 1], asOf);
      RefKnown(j, refs[|refs| - 1], asOf);
    }
  }

  lemma SelectedKnown(j: Journal, suffix: Suffix, sel: Selection, asOf: string, mode: string)
    requires Select(j, suffix, sel, asOf, mode).Ok?
    ensures ItemsKnown(j, asOf, Select(j, suffix, sel, asOf, mode).value)
  {
    var refs := NamedRefs(suffix, sel, asOf, mode).value;
    if refs == [] {
      var all := MatchingDecisions(j, sel.filter, asOf, j.decisions);
      DecisionsKnown(j, sel.filter, asOf, j.decisions);
      SortedKnown(j, asOf, all, sel.maxCases);
      var decisions := Take(SortBy(all, CaseLeq), sel.maxCases);
      ForecastsKnown(j, sel.filter, asOf, ForecastIds(decisions), j.forecasts);
      var forecasts := MatchingForecasts(j, sel.filter, asOf, ForecastIds(decisions), j.forecasts);
      if |decisions| < sel.maxCases {
        SortedKnown(j, asOf, forecasts, sel.maxCases - |decisions|);
      }
      SortedKnown(j, asOf, ByFilter(j, sel.filter, asOf, sel.maxCases), sel.maxCases);
    } else {
      RefsKnown(j, refs, asOf);
      SortedKnown(j, asOf, ByRefs(j, refs, asOf).value, sel.maxCases);
    }
  }

  // ---- context ----

  /** The same, without the ends of its validity: a case echoes them as they are on record now. */
  function Blind(s: Shown): Shown {
    s.(validity := s.validity.(to := None, invalidatedAt := None))
  }

  function BlindAll(rows: seq<Shown>): seq<Shown> {
    seq(|rows|, i requires 0 <= i < |rows| => Blind(rows[i]))
  }

  function BlindContext(c: Context): Context {
    c.(theses := BlindAll(c.theses), forecasts := BlindAll(c.forecasts))
  }

  function BlindCase(c: Case): Case {
    c.(context := BlindContext(c.context))
  }

  function BlindCases(cases: seq<Case>): seq<Case> {
    seq(|cases|, i requires 0 <= i < |cases| => BlindCase(cases[i]))
  }

  predicate Endless(a: Artifact) {
    a.validity.to.None? && a.validity.invalidatedAt.None?
  }

  /** What is valid at `asOf` has no end that had come. */
  lemma ShownBlind(a: Artifact, asOf: string)
    requires ValidAt(a, asOf)
    ensures Show(Mask(a, asOf)) == Blind(Show(a))
    ensures Blind(Show(a)) == Show(a) <==> Endless(a)
  {
    EndsLater(a.validity.to, asOf);
    EndsLater(a.validity.invalidatedAt, asOf);
  }

  lemma SeenValidity(rows: seq<Artifact>, id: string, asOf: string)
    ensures var a := First(rows, ArtifactSeen(id, asOf));
            var view := First(SeenArtifacts(rows, asOf), ArtifactSeen(id, asOf));
            && view == Masked(a, asOf)
            && (a.Some? ==> (ValidAt(view.value, asOf) <==> ValidAt(a.value, asOf)) && view.value.parent == a.value.parent)
            && (a.Some? && ValidAt(a.value, asOf) ==> Show(view.value) == Blind(Show(a.value)))
  {
    FirstOfSeen(rows, asOf, ArtifactSeen(id, asOf), ArtifactSeen(id, asOf));
    var a := First(rows, ArtifactSeen(id, asOf));
    if a.Some? {
      MaskKeepsValidity(a.value, asOf);
      if ValidAt(a.value, asOf) {
        ShownBlind(a.value, asOf);
      }
    }
  }

  lemma BlindOne(s: Shown)
    ensures BlindAll([s]) == [Blind(s)]
  {
  }

  lemma BlindNone()
    ensures BlindAll([]) == []
  {
  }

  lemma ThesisSectionInView(j: Journal, refs: Refs, asOf: string)
    ensures ThesisSection(AsOfView(j, asOf), refs, asOf)
         == (BlindAll(ThesisSection(j, refs, asOf).0), ThesisSection(j, refs, asOf).1)
  {
    BlindNone();
    if Present(refs.thesisId).Some? {
      SeenValidity(j.theses, refs.thesisId.value, asOf);
      var t := First(j.theses, ArtifactSeen(refs.thesisId.value, asOf));
      if t.Some? {
        BlindOne(Show(t.value));
      }
    }
  }

  lemma ForecastSectionInView(j: Journal, refs: Refs, asOf: string)
    ensures ForecastSection(AsOfView(j, asOf), refs, asOf)
         == (BlindAll(ForecastSection(j, refs, asOf).0), ForecastSection(j, refs, asOf).1)
  {
    BlindNone();
    if Present(refs.forecastId).Some? {
      SeenValidity(j.forecasts, refs.forecastId.value, asOf);
      var f := First(j.forecasts, ArtifactSeen(refs.forecastId.value, asOf));
      if f.Some? {
        SeenValidity(j.theses, f.value.parent, asOf);
        BlindOne(Show(f.value));
      }
    }
  }

  lemma SourcesInView(j: Journal, kind: string, id: Option<string>, asOf: string, limit: nat)
    ensures SourcesOf(AsOfView(j, asOf), kind, id, asOf, limit) == SourcesOf(j, kind, id, asOf, limit)
  {
    if Present(id).Some? {
      var view := AsOfView(j, asOf);
      forall s | s in j.sources
        ensures LinkedSource(j.edges, kind, id.value, asOf)(s)
           <==> SourceAt(asOf)(s) && LinkedSource(view.edges, kind, id.value, asOf)(s)
      {
        if LinkedSource(j.edges, kind, id.value, asOf)(s) {
          var e :| e in j.edges && StrLeq(e.createdAt, asOf) && Links(e, s, kind, id.value);
          assert e in view.edges;
        }
      }
      FilterOfFilter(j.sources, SourceAt(asOf), LinkedSource(view.edges, kind, id.value, asOf),
                     LinkedSource(j.edges, kind, id.value, asOf));
    }
  }

  lemma InstrumentIdInView(j: Journal, item: Item, asOf: string)
    requires PrimaryKeys(j) && item.refs.Some? && ItemKnown(j, asOf, item)
    ensures CaseInstrumentId(AsOfView(j, asOf), item, item.refs.value) == CaseInstrumentId(j, item, item.refs.value)
  {
    var refs := item.refs.value;
    if Present(refs.thesisId).Some? {
      ThesisById(j, refs.thesisId.value, asOf);
    }
  }

  lemma LookupsInView(j: Journal, id: string, asOf: string)
    ensures First(AsOfView(j, asOf).instruments, InstrumentSeen(id, asOf)) == First(j.instruments, InstrumentSeen(id, asOf))
    ensures First(AsOfView(j, asOf).snapshots, SnapshotSeen(id, asOf)) == First(j.snapshots, SnapshotSeen(id, asOf))
  {
    FirstOfFilter(j.instruments, InstrumentAt(asOf), InstrumentSeen(id, asOf), InstrumentSeen(id, asOf));
    FirstOfFilter(j.snapshots, SnapshotAt(asOf), SnapshotSeen(id, asOf), SnapshotSeen(id, asOf));
  }

  /** What the context takes from artifacts, and the rest of it. */
  lemma PartsInView(j: Journal, item: Item, refs: Refs, asOf: string, limit: nat)
    requires PrimaryKeys(j) && item.refs == Some(refs) && ItemKnown(j, asOf, item)
    ensures var view := AsOfView(j, asOf);
            && CaseInstrumentId(view, item, refs) == CaseInstrumentId(j, item, refs)
            && SourcesOf(view, KindName(item.kind), Some(item.id), asOf, limit) == SourcesOf(j, KindName(item.kind), Some(item.id), asOf, limit)
            && SourcesOf(view, "forecast", refs.forecastId, asOf, limit) == SourcesOf(j, "forecast", refs.forecastId, asOf, limit)
            && SourcesOf(view, "thesis", refs.thesisId, asOf, limit) == SourcesOf(j, "thesis", refs.thesisId, asOf, limit)
  {
    InstrumentIdInView(j, item, asOf);
    SourcesInView(j, KindName(item.kind), Some(item.id), asOf, limit);
    SourcesInView(j, "forecast", refs.forecastId, asOf, limit);
    SourcesInView(j, "thesis", refs.thesisId, asOf, limit);
  }

  lemma ContextInView(j: Journal, item: Item, refs: Refs, asOf: string, mode: string, limit: nat)
    requires PrimaryKeys(j) && item.refs == Some(refs) && ItemKnown(j, asOf, item)
    ensures var (context, caveats) := ContextOf(j, item, refs, asOf, mode, limit);
            ContextOf(AsOfView(j, asOf), item, refs, asOf, mode, limit) == (BlindContext(context), caveats)
  {
    PartsInView(j, item, refs, asOf, limit);
    ThesisSectionInView(j, refs, asOf);
    ForecastSectionInView(j, refs, asOf);
    BlindNone();
    var instrumentId := Present(CaseInstrumentId(j, item, refs));
    LookupsInView(j, if instrumentId.Some? then instrumentId.value else "", asOf);
    LookupsInView(j, if refs.snapshotId.Some? then refs.snapshotId.value else "", asOf);
  }

  lemma CaseInView(j: Journal, suffix: Suffix, item: Item, asOf: string, mode: string, limit: nat)
    requires PrimaryKeys(j) && ItemKnown(j, asOf, item)
    ensures CaseOf(AsOfView(j, asOf), suffix, item, asOf, mode, limit) == BlindCase(CaseOf(j, suffix, item, asOf, mode, limit))
  {
    if item.refs.Some? {
      ContextInView(j, item, item.refs.value, asOf, mode, limit);
    } else {
      assert BlindContext(EMPTY) == EMPTY;
    }
  }

  lemma BlindSnoc(cases: seq<Case>, c: Case)
    ensures BlindCases(cases + [c]) == BlindCases(cases) + [BlindCase(c)]
  {
  }

  lemma {:induction false} CasesOfInView(j: Journal, suffix: Suffix, items: seq<Item>, asOf: string, mode: string, limit: nat)
    requires PrimaryKeys(j) && ItemsKnown(j, asOf, items)
    ensures CasesOf(AsOfView(j, asOf), suffix, items, asOf, mode, limit) == BlindCases(CasesOf(j, suffix, items, asOf, mode, limit))
    decreases |items|
  {
    if items != [] {
      var init, last := items[..|items| - 1], items[|items| - 1];
      CasesOfInView(j, suffix, init, asOf, mode, limit);
      assert last in items;
      CaseInView(j, suffix, last, asOf, mode, limit);
      BlindSnoc(CasesOf(j, suffix, init, asOf, mode, limit), CaseOf(j, suffix, last, asOf, mode, limit));
    }
  }

  /** The answer without the echoed ends. */
  function Blinded(r: Result<seq<Case>, SelectionError>): Result<seq<Case>, SelectionError> {
    match r case Ok(cases) => Ok(BlindCases(cases)) case Err(e) => Err(e)
  }

  /** But for the echoed ends, the cases of a journal are the cases of the journal as it stood; a
      rejection too is the same unless its reason is a recall event recorded since. */
  lemma CasesInView(j: Journal, suffix: Suffix, sel: Selection, asOf: string, mode: string, limit: nat)
    requires Consistent(j, sel, asOf)
    ensures SameOutcome(Cases(AsOfView(j, asOf), suffix, sel, asOf, mode, limit), Blinded(Cases(j, suffix, sel, asOf, mode, limit)))
    ensures Cases(AsOfView(j, asOf), suffix, sel, asOf, mode, limit) == Blinded(Cases(j, suffix, sel, asOf, mode, limit))
       <==> !TooLate(j, suffix, sel, asOf, mode)
  {
    SelectInView(j, suffix, sel, asOf, mode);
    if Select(j, suffix, sel, asOf, mode).Ok? {
      SelectedKnown(j, suffix, sel, asOf, mode);
      CasesOfInView(j, suffix, Select(j, suffix, sel, asOf, mode).value, asOf, mode, limit);
    }
  }

  /** No look-ahead: journals that stood alike at `asOf` yield the same cases - ids, order and
      included context, but for the echoed ends of validity - for every selection, whatever was
      recorded, ended or invalidated later; and one is rejected only if the other is. */
  lemma NoLookAhead(a: Journal, b: Journal, suffix: Suffix, sel: Selection, asOf: string, mode: string, limit: nat)
    requires Consistent(a, sel, asOf) && Consistent(b, sel, asOf)
    requires AsOfView(a, asOf) == AsOfView(b, asOf)
    ensures SameOutcome(Blinded(Cases(a, suffix, sel, asOf, mode, limit)), Blinded(Cases(b, suffix, sel, asOf, mode, limit)))
  {
    CasesInView(a, suffix, sel, asOf, mode, limit);
    CasesInView(b, suffix, sel, asOf, mode, limit);
  }

  // ---- echoed ends ----

  predicate ThesisEndless(j: Journal, refs: Refs, asOf: string) {
    Present(refs.thesisId).Some? ==>
      var t := First(j.theses, ArtifactSeen(refs.thesisId.value, asOf));
      t.Some? && ValidAt(t.value, asOf) ==> Endless(t.value)
  }

  predicate ForecastEndless(j: Journal, refs: Refs, asOf: string) {
    Present(refs.forecastId).Some? ==>
      var f := First(j.forecasts, ArtifactSeen(refs.forecastId.value, asOf));
      f.Some? && ValidAt(f.value, asOf)
      && (f.value.parent == "" || (var t := First(j.theses, ArtifactSeen(f.value.parent, asOf)); t.None? || ValidAt(t.value, asOf))) ==>
        Endless(f.value)
  }

  /** No thesis or forecast that the item shows has an end on record. */
  predicate ItemEndless(j: Journal, item: Item, asOf: string, mode: string) {
    item.refs.Some? ==>
      && ThesisEndless(j, item.refs.value, asOf)
      && ((item.kind.ForecastCase? && mode == "forecast_only") || ForecastEndless(j, item.refs.value, asOf))
  }

  lemma BlindSameIff(s: Shown)
    ensures BlindAll([s]) == [s] <==> Blind(s) == s
  {
    BlindOne(s);
  }

  lemma ThesisBlindIff(j: Journal, refs: Refs, asOf: string)
    ensures BlindAll(ThesisSection(j, refs, asOf).0) == ThesisSection(j, refs, asOf).0 <==> ThesisEndless(j, refs, asOf)
  {
    if Present(refs.thesisId).Some? {
      var t := First(j.theses, ArtifactSeen(refs.thesisId.value, asOf));
      if t.Some? && ValidAt(t.value, asOf) {
        ShownBlind(t.value, asOf);
        BlindSameIff(Show(t.value));
      }
    }
  }

  lemma ForecastBlindIff(j: Journal, refs: Refs, asOf: string)
    ensures BlindAll(ForecastSection(j, refs, asOf).0) == ForecastSection(j, refs, asOf).0 <==> ForecastEndless(j, refs, asOf)
  {
    if Present(refs.forecastId).Some? {
      var f := First(j.forecasts, ArtifactSeen(refs.forecastId.value, asOf));
      if f.Some? && ValidAt(f.value, asOf) {
        ShownBlind(f.value, asOf);
        BlindSameIff(Show(f.value));
      }
    }
  }

  lemma BlindContextIff(c: Context)
    ensures BlindContext(c) == c <==> BlindAll(c.theses) == c.theses && BlindAll(c.forecasts) == c.forecasts
  {
  }

  lemma CaseEndlessIff(j: Journal, suffix: Suffix, item: Item, asOf: string, mode: string, limit: nat)
    ensures BlindCase(CaseOf(j, suffix, item, asOf, mode, limit)) == CaseOf(j, suffix, item, asOf, mode, limit)
       <==> ItemEndless(j, item, asOf, mode)
  {
    if item.refs.Some? {
      ThesisBlindIff(j, item.refs.value, asOf);
      ForecastBlindIff(j, item.refs.value, asOf);
    }
    BlindContextIff(CaseOf(j, suffix, item, asOf, mode, limit).context);
  }

  ghost predicate ItemsEndless(j: Journal, items: seq<Item>, asOf: string, mode: string) {
    forall item :: item in items ==> ItemEndless(j, item, asOf, mode)
  }

  lemma BlindSnocIff(cases: seq<Case>, c: Case)
    ensures BlindCases(cases + [c]) == cases + [c] <==> BlindCases(cases) == cases && BlindCase(c) == c
  {
    BlindSnoc(cases, c);
    assert |BlindCases(cases)| == |cases|;
    if BlindCases(cases + [c]) == cases + [c] {
      assert (BlindCases(cases) + [BlindCase(c)])[..|cases|] == (cases + [c])[..|cases|];
      assert (BlindCases(cases) + [BlindCase(c)])[|cases|] == (cases + [c])[|cases|];
      assert (cases + [c])[..|cases|] == cases;
      assert (BlindCases(cases) + [BlindCase(c)])[..|cases|] == BlindCases(cases);
    }
  }

  lemma {:induction false} CasesEndlessIff(j: Journal, suffix: Suffix, items: seq<Item>, asOf: string, mode: string, limit: nat)
    ensures BlindCases(CasesOf(j, suffix, items, asOf, mode, limit)) == CasesOf(j, suffix, items, asOf, mode, limit)
       <==> ItemsEndless(j, items, asOf, mode)
    decreases |items|
  {
    if items != [] {
      var init, last := items[..|items| - 1], items[|items| - 1];
      CasesEndlessIff(j, suffix, init, asOf, mode, limit);
      CaseEndlessIff(j, suffix, last, asOf, mode, limit);
      BlindSnocIff(CasesOf(j, suffix, init, asOf, mode, limit), CaseOf(j, suffix, last, asOf, mode, limit));
      assert items == init + [last];
    }
  }

  /** The whole answer, echoed ends and reasons included, is that of the journal as it stood
      exactly when no recall event comes too late and no thesis or forecast that a selected item
      shows has an end on record. */
  lemma AnswerInViewIff(j: Journal, suffix: Suffix, sel: Selection, asOf: string, mode: string, limit: nat)
    requires Consistent(j, sel, asOf)
    ensures Cases(AsOfView(j, asOf), suffix, sel, asOf, mode, limit) == Cases(j, suffix, sel, asOf, mode, limit)
       <==> && !TooLate(j, suffix, sel, asOf, mode)
            && (Select(j, suffix, sel, asOf, mode).Ok? ==> ItemsEndless(j, Select(j, suffix, sel, asOf, mode).value, asOf, mode))
  {
    CasesInView(j, suffix, sel, asOf, mode, limit);
    if TooLate(j, suffix, sel, asOf, mode) {
      TooLateIsMissing(j, suffix, sel, asOf, mode);
    } else if Select(j, suffix, sel, asOf, mode).Ok? {
      CasesEndlessIff(j, suffix, Select(j, suffix, sel, asOf, mode).value, asOf, mode, limit);
    }
  }

  // ---- reasons of rejection ----

  /** The reason of a rejection does see later rows.  But for the echoed ends, the two journals
      answer alike exactly when neither, or both, have since recorded the recall event that the
      first offending reference names. */
  lemma SameRejectionIff(a: Journal, b: Journal, suffix: Suffix, sel: Selection, asOf: string, mode: string, limit: nat)
    requires Consistent(a, sel, asOf) && Consistent(b, sel, asOf)
    requires AsOfView(a, asOf) == AsOfView(b, asOf)
    ensures Blinded(Cases(a, suffix, sel, asOf, mode, limit)) == Blinded(Cases(b, suffix, sel, asOf, mode, limit))
       <==> (TooLate(a, suffix, sel, asOf, mode) <==> TooLate(b, suffix, sel, asOf, mode))
  {
    CasesInView(a, suffix, sel, asOf, mode, limit);
    CasesInView(b, suffix, sel, asOf, mode, limit);
    if TooLate(a, suffix, sel, asOf, mode) {
      TooLateIsMissing(a, suffix, sel, asOf, mode);
    }
    if TooLate(b, suffix, sel, asOf, mode) {
      TooLateIsMissing(b, suffix, sel, asOf, mode);
    }
  }

  // ---- for instance ----

  const NOTHING := Journal([], [], [], [], [], [], [], [])

  const ANY := CaseFilter(None, None, map[], [], [], [], false, [], None)

  /** A recall recorded after `asOf` is reported as too late, and as missing before it is recorded. */
  lemma RejectionTellsTheFuture(suffix: Suffix, asOf: string, later: string, id: string, mode: string, limit: nat)
    requires StrLt(asOf, later)
    ensures var grown := NOTHING.(recalls := [Recall(id, later)]);
            var sel := Selection([Ref("recall_event", id)], [], 1, ANY);
            && Consistent(NOTHING, sel, asOf) && Consistent(grown, sel, asOf)
            && AsOfView(NOTHING, asOf) == AsOfView(grown, asOf)
            && Cases(NOTHING, suffix, sel, asOf, mode, limit) == Err(RecallMissing)
            && Cases(grown, suffix, sel, asOf, mode, limit) == Err(RecallTooLate)
  {
    StrAsymmetric(asOf, later);
    var rows := [Recall(id, later)];
    var ref := Ref("recall_event", id);
    assert rows[1..] == [];
    assert Filter(rows, RecallAt(asOf)) == [];
    assert First(rows, RecallIs(id)) == Some(rows[0]);
    assert KindNamed("recall_event") == Some(RecallCase);
    assert [ref][..0] == [] && [ref][0] == ref;
    assert ByRefs(NOTHING, [ref], asOf) == Err(RecallMissing);
    assert ByRefs(NOTHING.(recalls := rows), [ref], asOf) == Err(RecallTooLate);
  }

  function DecisionOn(d: Decision, t: Artifact): Journal { NOTHING.(decisions := [d], theses := [t]) }

  function Ended(t: Artifact, at: string): Artifact {
    t.(validity := t.validity.(invalidatedAt := Some(at)))
  }

  lemma NotYetEnded(d: Decision, t: Artifact, later: string, asOf: string)
    requires StrLt(asOf, later) && ValidAt(t, asOf) && Endless(t)
    ensures ValidAt(Ended(t, later), asOf)
    ensures AsOfView(DecisionOn(d, t), asOf) == AsOfView(DecisionOn(d, Ended(t, later)), asOf)
  {
    StrAsymmetric(asOf, later);
    assert [t][1..] == [] && [Ended(t, later)][1..] == [];
    assert Mask(Ended(t, later), asOf) == Mask(t, asOf);
  }

  lemma DecisionCases(d: Decision, suffix: Suffix, t: Artifact, asOf: string, mode: string, limit: nat)
    requires StrLeq(d.createdAt, asOf) && ValidAt(t, asOf) && d.thesisId == Some(t.id) && t.id != ""
    ensures var cases := Cases(DecisionOn(d, t), suffix, Selection([Ref("decision", d.id)], [], 1, ANY), asOf, mode, limit);
            cases.Ok? && |cases.value| == 1 && cases.value[0].context.theses == [Show(t)]
    ensures Consistent(DecisionOn(d, t), Selection([Ref("decision", d.id)], [], 1, ANY), asOf)
  {
    DecisionSelected(DecisionOn(d, t), suffix, d, asOf, mode);
    ShownThesis(DecisionOn(d, t), suffix, d, t, asOf, mode, limit);
  }

  /** An end recorded after `asOf` shows: a case on a decision echoes the invalidation of its
      thesis, which the journal as it stood did not know. */
  lemma LaterEndIsEchoed(suffix: Suffix, d: Decision, t: Artifact, later: string, asOf: string, mode: string, limit: nat)
    requires StrLeq(d.createdAt, asOf) && StrLt(asOf, later) && ValidAt(t, asOf) && Endless(t)
    requires d.thesisId == Some(t.id) && t.id != ""
    ensures var before, after := DecisionOn(d, t), DecisionOn(d, Ended(t, later));
            var sel := Selection([Ref("decision", d.id)], [], 1, ANY);
            && Consistent(before, sel, asOf) && Consistent(after, sel, asOf) && AsOfView(before, asOf) == AsOfView(after, asOf)
            && Cases(before, suffix, sel, asOf, mode, limit) != Cases(after, suffix, sel, asOf, mode, limit)
  {
    NotYetEnded(d, t, later, asOf);
    DecisionCases(d, suffix, t, asOf, mode, limit);
    DecisionCases(d, suffix, Ended(t, later), asOf, mode, limit);
    EndShows(t, later);
  }

  lemma EndShows(t: Artifact, later: string)
    requires Endless(t)
    ensures [Show(Ended(t, later))] != [Show(t)]
  {
    assert [Show(t)][0].validity.invalidatedAt.None?;
  }

  lemma DecisionSelected(j: Journal, suffix: Suffix, d: Decision, asOf: string, mode: string)
    requires j.decisions == [d] && StrLeq(d.createdAt, asOf)
    ensures Select(j, suffix, Selection([Ref("decision", d.id)], [], 1, ANY), asOf, mode) == Ok([DecisionItem(d)])
  {
    var ref := Ref("decision", d.id);
    assert First(j.decisions, DecisionSeen(d.id, asOf)) == Some(d);
    assert [ref][..0] == [];
    assert KindNamed("decision") == Some(DecisionCase);
    assert ByRef(j, ref, asOf) == Ok([DecisionItem(d)]);
    assert [] + [DecisionItem(d)] == [DecisionItem(d)];
    assert ByRefs(j, [ref], asOf) == Ok([DecisionItem(d)]);
    SortOfOne(DecisionItem(d));
  }

  lemma ShownThesis(j: Journal, suffix: Suffix, d: Decision, t: Artifact, asOf: string, mode: string, limit: nat)
    requires j.theses == [t] && ValidAt(t, asOf) && d.thesisId == Some(t.id) && t.id != ""
    ensures CasesOf(j, suffix, [DecisionItem(d)], asOf, mode, limit) == [CaseOf(j, suffix, DecisionItem(d), asOf, mode, limit)]
    ensures CaseOf(j, suffix, DecisionItem(d), asOf, mode, limit).context.theses == [Show(t)]
  {
    var item := DecisionItem(d);
    assert [item][..0] == [];
    assert First(j.theses, ArtifactSeen(t.id, asOf)) == Some(t);
  }

  function OneDecision(d: Decision): Journal { NOTHING.(decisions := [d]) }

  /** The same, with its instrument recorded at `later`. */
  function ThenInstrument(d: Decision, later: string, symbol: string): Journal {
    OneDecision(d).(instruments := [Instrument(d.instrumentId, later, Some(symbol), "")])
  }

  lemma InstrumentNotSeen(d: Decision, symbol: string, asOf: string, later: string)
    requires StrLt(asOf, later)
    ensures AsOfView(OneDecision(d), asOf) == AsOfView(ThenInstrument(d, later, symbol), asOf)
  {
    StrAsymmetric(asOf, later);
    var rows := ThenInstrument(d, later, symbol).instruments;
    assert rows[1..] == [] && Filter(rows, InstrumentAt(asOf)) == [];
  }

  lemma SymbolMatches(d: Decision, symbol: string, asOf: string, later: string)
    requires StrLeq(d.createdAt, asOf)
    ensures MatchingDecisions(OneDecision(d), ANY.(symbols := [symbol]), asOf, [d]) == []
    ensures MatchingDecisions(ThenInstrument(d, later, symbol), ANY.(symbols := [symbol]), asOf, [d]) == [DecisionItem(d)]
  {
    var rows := ThenInstrument(d, later, symbol).instruments;
    assert First(rows, InstrumentIs(d.instrumentId)) == Some(rows[0]);
    assert [d][1..] == [];
  }

  /** Keys that point backwards are needed: an instrument recorded after the decision that names
      it brings its symbol, and with it a case, into the past. */
  lemma LateInstrumentTellsTheFuture(suffix: Suffix, d: Decision, symbol: string, asOf: string, later: string, mode: string, limit: nat)
    requires StrLeq(d.createdAt, asOf) && StrLt(asOf, later)
    ensures var before, after := OneDecision(d), ThenInstrument(d, later, symbol);
            var sel := Selection([], [], 1, ANY.(symbols := [symbol]));
            && PrimaryKeys(before) && PrimaryKeys(after) && AsOfView(before, asOf) == AsOfView(after, asOf)
            && Cases(before, suffix, sel, asOf, mode, limit) == Ok([])
            && Cases(after, suffix, sel, asOf, mode, limit) != Ok([])
  {
    var sel := Selection([], [], 1, ANY.(symbols := [symbol]));
    InstrumentNotSeen(d, symbol, asOf, later);
    SymbolMatches(d, symbol, asOf, later);
    NoMatchNoCase(OneDecision(d), suffix, sel, asOf, mode, limit);
    OneMatchOneCase(ThenInstrument(d, later, symbol), suffix, sel, asOf, mode, limit, DecisionItem(d));
  }

  lemma NoMatchNoCase(j: Journal, suffix: Suffix, sel: Selection, asOf: string, mode: string, limit: nat)
    requires sel.sourceRefs == [] && sel.caseIds == [] && sel.maxCases == 1
    requires MatchingDecisions(j, sel.filter, asOf, j.decisions) == [] && j.forecasts == []
    ensures Cases(j, suffix, sel, asOf, mode, limit) == Ok([])
  {
    assert ByFilter(j, sel.filter, asOf, 1) == [];
  }

  lemma OneMatchOneCase(j: Journal, suffix: Suffix, sel: Selection, asOf: string, mode: string, limit: nat, item: Item)
    requires sel.sourceRefs == [] && sel.caseIds == [] && sel.maxCases == 1
    requires MatchingDecisions(j, sel.filter, asOf, j.decisions) == [item]
    ensures Cases(j, suffix, sel, asOf, mode, limit) != Ok([])
  {
    SortOfOne(item);
    assert ByFilter(j, sel.filter, asOf, 1) == [item];
    assert CasesOf(j, suffix, [item], asOf, mode, limit) != [];
  }

  lemma SortOfOne(item: Item)
    ensures SortBy([item], CaseLeq) == [item]
  {
    assert [item][1..] == [];
  }
}
