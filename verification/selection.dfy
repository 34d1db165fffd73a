/** Which rows a replay request selects (src/trade_trace/reports/replay.py, `_rows_for_selection`). */
module Selections {
  // Here the selection is said column by column, without the query that computes it: which
  // decisions and forecasts meet a filter, what a reference brings, and that the answer holds the
  // oldest of them, in order.

  import opened Outcomes
  import opened Orders
  import opened Replay

  // ---- what a filter asks of a row ----

  /** Recorded by `asOf`, and within its validity, both ends half-open. */
  predicate InForce(a: Artifact, asOf: string) {
    && (a.createdAt == asOf || StrLt(a.createdAt, asOf))
    && (a.validity.from.Some? ==> a.validity.from.value == asOf || StrLt(a.validity.from.value, asOf))
    && (a.validity.to.Some? ==> StrLt(asOf, a.validity.to.value))
    && (a.validity.invalidatedAt.Some? ==> StrLt(asOf, a.validity.invalidatedAt.value))
  }

  /** What decisions and forecasts are asked alike: the time window, and each actor column named. */
  predicate WindowAndActors(filter: CaseFilter, createdAt: string, actors: map<string, string>) {
    && (filter.createdAtGte.Some? ==> filter.createdAtGte.value == createdAt || StrLt(filter.createdAtGte.value, createdAt))
    && (filter.createdAtLt.Some? ==> StrLt(createdAt, filter.createdAtLt.value))
    && forall k :: k in filter.actors.Keys && filter.actors[k] != [] ==> k in actors && actors[k] in filter.actors[k]
  }

  ghost predicate OneInstrumentEach(j: Journal) {
    forall a, b :: a in j.instruments && b in j.instruments && a.id == b.id ==> a == b
  }

  ghost predicate SymbolFits(j: Journal, filter: CaseFilter, instrumentId: string) {
    filter.symbols != [] ==>
      exists i :: i in j.instruments && i.id == instrumentId && i.symbol.Some? && i.symbol.value in filter.symbols
  }

  ghost predicate DecisionFits(j: Journal, filter: CaseFilter, asOf: string, d: Decision) {
    && (d.createdAt == asOf || StrLt(d.createdAt, asOf))
    && WindowAndActors(filter, d.createdAt, d.actors)
    && (filter.instrumentIds != [] ==> d.instrumentId in filter.instrumentIds)
    && SymbolFits(j, filter, d.instrumentId)
    && (filter.strategyIds != [] ==> d.strategyId.Some? && d.strategyId.value in filter.strategyIds)
    && (filter.decisionTypes != [] ==> d.decisionType in filter.decisionTypes)
    && (filter.hasForecast == Some(true) ==> d.forecastId.Some?)
    && (filter.hasForecast == Some(false) ==> d.forecastId.None?)
  }

  ghost predicate ThesisFits(j: Journal, filter: CaseFilter, asOf: string, t: Artifact) {
    && InForce(t, asOf)
    && (exists i :: i in j.instruments && i.id == t.parent)
    && (filter.instrumentIds != [] ==> t.parent in filter.instrumentIds)
    && SymbolFits(j, filter, t.parent)
    && (filter.strategyIds != [] ==> t.strategyId.Some? && t.strategyId.value in filter.strategyIds)
  }

  /** `ids` are the forecasts that the selected decisions name; they matter once anything was
      asked of decisions. */
  ghost predicate ForecastFits(j: Journal, filter: CaseFilter, asOf: string, ids: set<string>, f: Artifact) {
    && InForce(f, asOf)
    && (exists t :: t in j.theses && t.id == f.parent && ThesisFits(j, filter, asOf, t))
    && WindowAndActors(filter, f.createdAt, f.actors)
    && (filter.decisionGiven ==> f.id in ids)
  }

  ghost predicate OneThesisEach(j: Journal) {
    forall a, b :: a in j.theses && b in j.theses && a.id == b.id ==> a == b
  }

  lemma InForceIff(a: Artifact, asOf: string)
    ensures InForce(a, asOf) <==> ValidAt(a, asOf)
    ensures InForce(a, asOf) <==> SqlValid(a, asOf).Yes?
  {
    ClauseIsCheck(a, asOf);
  }

  lemma SymbolIff(j: Journal, filter: CaseFilter, instrumentId: string)
    requires OneInstrumentEach(j)
    ensures Allowed(filter.symbols, SymbolOf(j, instrumentId)) <==> SymbolFits(j, filter, instrumentId)
  {
    var found := First(j.instruments, InstrumentIs(instrumentId));
    if SymbolFits(j, filter, instrumentId) && filter.symbols != [] {
      var i :| i in j.instruments && i.id == instrumentId && i.symbol.Some? && i.symbol.value in filter.symbols;
      assert InstrumentIs(instrumentId)(i);
      assert found == Some(i);
    }
  }

  lemma WindowIff(filter: CaseFilter, createdAt: string, actors: map<string, string>)
    ensures InWindow(filter, createdAt) && ActorsAllowed(filter, actors) <==> WindowAndActors(filter, createdAt, actors)
  {
  }

  lemma DecisionMatchIff(j: Journal, filter: CaseFilter, asOf: string, d: Decision)
    requires OneInstrumentEach(j)
    ensures DecisionMatches(j, filter, asOf, d) <==> DecisionFits(j, filter, asOf, d)
  {
    SymbolIff(j, filter, d.instrumentId);
    WindowIff(filter, d.createdAt, d.actors);
  }

  lemma ThesisFound(j: Journal, id: string, t: Artifact)
    requires OneThesisEach(j) && t in j.theses && t.id == id
    ensures First(j.theses, ArtifactIs(id)) == Some(t)
  {
    assert ArtifactIs(id)(t);
  }

  function Members(s: seq<string>): set<string> {
    set x | x in s
  }

  lemma ForecastMatchIff(j: Journal, filter: CaseFilter, asOf: string, ids: seq<string>, f: Artifact)
    requires OneInstrumentEach(j) && OneThesisEach(j)
    ensures ForecastMatches(j, filter, asOf, ids, f) <==> ForecastFits(j, filter, asOf, Members(ids), f)
  {
    InForceIff(f, asOf);
    WindowIff(filter, f.createdAt, f.actors);
    var found := First(j.theses, ArtifactIs(f.parent));
    if found.Some? {
      var t := found.value;
      InForceIff(t, asOf);
      SymbolIff(j, filter, t.parent);
      InstrumentPresent(j, t.parent);
      forall other | other in j.theses && other.id == f.parent ensures other == t {
      }
    } else {
      forall t | t in j.theses ensures t.id != f.parent {
        assert !ArtifactIs(f.parent)(t);
      }
    }
  }

  lemma InstrumentPresent(j: Journal, id: string)
    ensures First(j.instruments, InstrumentIs(id)).Some? <==> exists i :: i in j.instruments && i.id == id
  {
    if i :| i in j.instruments && i.id == id {
      assert InstrumentIs(id)(i);
    }
  }

  // ---- items ----

  /** The item of a decision. */
  predicate IsDecisionItem(item: Item, d: Decision) {
    && item.kind == DecisionCase && item.id == d.id && item.createdAt == d.createdAt
    && item.refs == Some(Refs(Some(d.instrumentId), d.thesisId, d.forecastId, d.snapshotId))
  }

  /** The item of a forecast. */
  predicate IsForecastItem(item: Item, f: Artifact) {
    && item.kind == ForecastCase && item.id == f.id && item.createdAt == f.createdAt
    && item.refs == Some(Refs(None, Some(f.parent), Some(f.id), None))
  }

  lemma {:induction false} DecisionItemsAre(j: Journal, filter: CaseFilter, asOf: string, rows: seq<Decision>)
    requires OneInstrumentEach(j)
    ensures forall item :: item in MatchingDecisions(j, filter, asOf, rows)
              <==> exists d :: d in rows && DecisionFits(j, filter, asOf, d) && IsDecisionItem(item, d)
  {
    if rows != [] {
      DecisionItemsAre(j, filter, asOf, rows[1..]);
      DecisionMatchIff(j, filter, asOf, rows[0]);
      assert rows == [rows[0]] + rows[1..];
      forall item ensures item in MatchingDecisions(j, filter, asOf, rows)
                     <==> exists d :: d in rows && DecisionFits(j, filter, asOf, d) && IsDecisionItem(item, d)
      {
        assert IsDecisionItem(item, rows[0]) <==> item == DecisionItem(rows[0]);
      }
    }
  }

  lemma {:induction false} ForecastItemsAre(j: Journal, filter: CaseFilter, asOf: string, ids: seq<string>, rows: seq<Artifact>)
    requires OneInstrumentEach(j) && OneThesisEach(j)
    ensures forall item :: item in MatchingForecasts(j, filter, asOf, ids, rows)
              <==> exists f :: f in rows && ForecastFits(j, filter, asOf, Members(ids), f) && IsForecastItem(item, f)
  {
    if rows != [] {
      ForecastItemsAre(j, filter, asOf, ids, rows[1..]);
      ForecastMatchIff(j, filter, asOf, ids, rows[0]);
      assert rows == [rows[0]] + rows[1..];
      forall item ensures item in MatchingForecasts(j, filter, asOf, ids, rows)
                     <==> exists f :: f in rows && ForecastFits(j, filter, asOf, Members(ids), f) && IsForecastItem(item, f)
      {
        assert IsForecastItem(item, rows[0]) <==> item == ForecastItem(rows[0]);
      }
    }
  }

  // ---- the order of a selection ----

  /** Older first, then by the name of the kind, then by id. */
  predicate Precedes(a: Item, b: Item) {
    || StrLt(a.createdAt, b.createdAt)
    || (a.createdAt == b.createdAt && StrLt(KindName(a.kind), KindName(b.kind)))
    || (a.createdAt == b.createdAt && a.kind == b.kind && StrLt(a.id, b.id))
  }

  predicate SameKey(a: Item, b: Item) {
    a.kind == b.kind && a.id == b.id
  }

  lemma KindNames(a: Kind, b: Kind)
    ensures KindName(a) == KindName(b) <==> a == b
  {
    assert KindName(DecisionCase)[0] == 'd' && KindName(ForecastCase)[0] == 'f' && KindName(RecallCase)[0] == 'r';
  }

  lemma CaseLeqIff(a: Item, b: Item)
    ensures CaseLeq(a, b) <==> Precedes(a, b) || (a.createdAt == b.createdAt && SameKey(a, b))
  {
    KindNames(a.kind, b.kind);
    StrAsymmetric(a.createdAt, b.createdAt);
    StrAsymmetric(KindName(a.kind), KindName(b.kind));
  }

  lemma CaseLeqTransitive(a: Item, b: Item, c: Item)
    requires CaseLeq(a, b) && CaseLeq(b, c)
    ensures CaseLeq(a, c)
  {
    Chain(a.createdAt, b.createdAt, c.createdAt);
    Chain(KindName(a.kind), KindName(b.kind), KindName(c.kind));
    Chain(a.id, b.id, c.id);
    KindNames(a.kind, c.kind);
  }

  lemma Chain(a: string, b: string, c: string)
    ensures StrLt(a, b) && StrLt(b, c) ==> StrLt(a, c) && a != c
    ensures StrLeq(a, b) && StrLeq(b, c) ==> StrLeq(a, c)
    ensures !StrLt(a, a)
  {
    StrAsymmetric(a, a);
    StrAsymmetric(a, b);
    if StrLt(a, b) && StrLt(b, c) {
      StrTransitive(a, b, c);
    }
  }

  lemma CaseLeqOrder()
    ensures TotalPreorder(CaseLeq)
  {
    forall a, b ensures CaseLeq(a, b) || CaseLeq(b, a) {
      StrTotal(a.createdAt, b.createdAt);
      StrTotal(KindName(a.kind), KindName(b.kind));
      StrTotal(a.id, b.id);
      KindNames(a.kind, b.kind);
    }
    forall a, b, c | CaseLeq(a, b) && CaseLeq(b, c) ensures CaseLeq(a, c) {
      CaseLeqTransitive(a, b, c);
    }
  }

  /** At most one item for each kind and id. */
  ghost predicate OneItemEach(items: seq<Item>) {
    forall i, j :: 0 <= i < j < |items| ==> !SameKey(items[i], items[j])
  }

  ghost predicate InOrder(items: seq<Item>) {
    forall i, j :: 0 <= i < j < |items| ==> Precedes(items[i], items[j])
  }

  /** `top` is the first `n` of `items`: in order, and whatever it leaves out comes after it. */
  ghost predicate IsOldest(top: seq<Item>, items: seq<Item>, n: nat) {
    && InOrder(top) && OneItemEach(top) && |top| <= n
    && (forall item :: item in top ==> item in items)
    && (forall item :: item in items && item !in top ==> |top| == n && forall t :: t in top ==> Precedes(t, item))
  }

  lemma KeysPermute(a: seq<Item>, b: seq<Item>)
    requires OneItemEach(a) && multiset(a) == multiset(b)
    ensures OneItemEach(b)
  {
    SameMembers(a, b);
    assert Distinct(a);
    DistinctPermutes(a, b);
    forall i, j | 0 <= i < j < |b| ensures !SameKey(b[i], b[j]) {
      assert b[i] in a && b[j] in a && b[i] != b[j];
    }
  }

  lemma SortedInOrder(items: seq<Item>)
    requires OneItemEach(items)
    ensures InOrder(SortBy(items, CaseLeq))
  {
    var sorted := SortBy(items, CaseLeq);
    CaseLeqOrder();
    SortBySorts(items, CaseLeq);
    KeysPermute(items, sorted);
    forall i, j | 0 <= i < j < |sorted| ensures Precedes(sorted[i], sorted[j]) {
      assert CaseLeq(sorted[i], sorted[j]);
      CaseLeqIff(sorted[i], sorted[j]);
    }
  }

  lemma CutIsOldest(sorted: seq<Item>, n: nat)
    requires InOrder(sorted) && OneItemEach(sorted)
    ensures IsOldest(Take(sorted, n), sorted, n)
  {
    var top := Take(sorted, n);
    assert forall i :: 0 <= i < |top| ==> top[i] == sorted[i] && top[i] in top;
    forall item | item in sorted && item !in top ensures |top| == n && forall t :: t in top ==> Precedes(t, item) {
      var k :| 0 <= k < |sorted| && sorted[k] == item;
    }
  }

  lemma TopIsOldest(items: seq<Item>, n: nat)
    requires OneItemEach(items)
    ensures IsOldest(Take(SortBy(items, CaseLeq), n), items, n)
  {
    var sorted := SortBy(items, CaseLeq);
    SortedInOrder(items);
    KeysPermute(items, sorted);
    SameMembers(sorted, items);
    CutIsOldest(sorted, n);
  }

  /** Sorting what is in order already changes nothing. */
  lemma InOrderFixpoint(items: seq<Item>)
    requires InOrder(items)
    ensures SortBy(items, CaseLeq) == items
  {
    CaseLeqOrder();
    forall i, j | 0 <= i < j < |items| ensures CaseLeq(items[i], items[j]) {
      CaseLeqIff(items[i], items[j]);
    }
    SortFixpoint(items, CaseLeq);
  }

  // ---- rows have one item each ----

  ghost predicate OneRowEach(j: Journal) {
    && (forall a, b :: 0 <= a < b < |j.decisions| ==> j.decisions[a].id != j.decisions[b].id)
    && (forall a, b :: 0 <= a < b < |j.forecasts| ==> j.forecasts[a].id != j.forecasts[b].id)
    && OneInstrumentEach(j) && OneThesisEach(j)
  }

  lemma {:induction false} DecisionItemsDiffer(j: Journal, filter: CaseFilter, asOf: string, rows: seq<Decision>)
    requires OneInstrumentEach(j) && forall a, b :: 0 <= a < b < |rows| ==> rows[a].id != rows[b].id
    ensures OneItemEach(MatchingDecisions(j, filter, asOf, rows))
  {
    if rows != [] {
      var rest := MatchingDecisions(j, filter, asOf, rows[1..]);
      DecisionItemsDiffer(j, filter, asOf, rows[1..]);
      DecisionItemsAre(j, filter, asOf, rows[1..]);
      forall k | 0 <= k < |rest| ensures rest[k].id != rows[0].id {
        assert rest[k] in rest;
        var d :| d in rows[1..] && IsDecisionItem(rest[k], d);
        var at :| 0 <= at < |rows[1..]| && rows[1..][at] == d;
        assert rows[0].id != rows[at + 1].id;
      }
    }
  }

  lemma {:induction false} ForecastItemsDiffer(j: Journal, filter: CaseFilter, asOf: string, ids: seq<string>, rows: seq<Artifact>)
    requires OneInstrumentEach(j) && OneThesisEach(j) && forall a, b :: 0 <= a < b < |rows| ==> rows[a].id != rows[b].id
    ensures OneItemEach(MatchingForecasts(j, filter, asOf, ids, rows))
  {
    if rows != [] {
      var rest := MatchingForecasts(j, filter, asOf, ids, rows[1..]);
      ForecastItemsDiffer(j, filter, asOf, ids, rows[1..]);
      ForecastItemsAre(j, filter, asOf, ids, rows[1..]);
      forall k | 0 <= k < |rest| ensures rest[k].id != rows[0].id {
        assert rest[k] in rest;
        var f :| f in rows[1..] && IsForecastItem(rest[k], f);
        var at :| 0 <= at < |rows[1..]| && rows[1..][at] == f;
        assert rows[0].id != rows[at + 1].id;
      }
    }
  }

  // ---- selection by filter ----

  /** The forecasts that the selected decisions name. */
  function NamedForecasts(items: seq<Item>): set<string> {
    set item | item in items && item.kind.DecisionCase? && item.refs.Some? && item.refs.value.forecastId.Some?
                             && item.refs.value.forecastId.value != "" :: item.refs.value.forecastId.value
  }

  lemma {:induction false} ForecastIdsAre(items: seq<Item>)
    requires forall item :: item in items ==> item.kind.DecisionCase?
    ensures Members(ForecastIds(items)) == NamedForecasts(items)
  {
    if items != [] {
      ForecastIdsAre(items[1..]);
      assert items == [items[0]] + items[1..];
      var id := if items[0].refs.Some? then items[0].refs.value.forecastId else None;
      var first := if id.Some? && id.value != "" then [id.value] else [];
      assert ForecastIds(items) == first + ForecastIds(items[1..]);
      assert Members(ForecastIds(items)) == Members(first) + Members(ForecastIds(items[1..]));
      forall x ensures x in NamedForecasts(items) <==> x in first || x in NamedForecasts(items[1..]) {
        if x in NamedForecasts(items) {
          var item :| item in items && item.refs.Some? && item.refs.value.forecastId == Some(x) && x != "";
          assert item == items[0] || item in items[1..];
        }
      }
    }
  }

  ghost predicate DecisionItemOf(j: Journal, filter: CaseFilter, asOf: string, item: Item) {
    exists d :: d in j.decisions && DecisionFits(j, filter, asOf, d) && IsDecisionItem(item, d)
  }

  ghost predicate ForecastItemOf(j: Journal, filter: CaseFilter, asOf: string, ids: set<string>, item: Item) {
    exists f :: f in j.forecasts && ForecastFits(j, filter, asOf, ids, f) && IsForecastItem(item, f)
  }

  /** The selected decisions: the oldest that fit. */
  function OldestDecisions(j: Journal, filter: CaseFilter, asOf: string, n: nat): seq<Item> {
    Take(SortBy(MatchingDecisions(j, filter, asOf, j.decisions), CaseLeq), n)
  }

  /** The selected forecasts: the oldest that fit, as many as there is room for. */
  function OldestForecasts(j: Journal, filter: CaseFilter, asOf: string, n: nat): seq<Item> {
    var decisions := OldestDecisions(j, filter, asOf, n);
    if |decisions| < n
    then Take(SortBy(MatchingForecasts(j, filter, asOf, ForecastIds(decisions), j.forecasts), CaseLeq), n - |decisions|)
    else []
  }

  lemma OldestDecisionsAre(j: Journal, filter: CaseFilter, asOf: string, n: nat)
    requires OneRowEach(j)
    ensures var top := OldestDecisions(j, filter, asOf, n);
            && InOrder(top) && OneItemEach(top) && |top| <= n
            && (forall item :: item in top ==> DecisionItemOf(j, filter, asOf, item))
            && (forall item :: DecisionItemOf(j, filter, asOf, item) && item !in top ==>
                  |top| == n && forall t :: t in top ==> Precedes(t, item))
  {
    var all := MatchingDecisions(j, filter, asOf, j.decisions);
    DecisionItemsAre(j, filter, asOf, j.decisions);
    DecisionItemsDiffer(j, filter, asOf, j.decisions);
    TopIsOldest(all, n);
    forall item ensures item in all <==> DecisionItemOf(j, filter, asOf, item) {
    }
  }

  lemma OldestForecastsAre(j: Journal, filter: CaseFilter, asOf: string, n: nat)
    requires OneRowEach(j)
    ensures var decisions, top := OldestDecisions(j, filter, asOf, n), OldestForecasts(j, filter, asOf, n);
            var ids := NamedForecasts(decisions);
            && InOrder(top) && OneItemEach(top) && |decisions| + |top| <= n
            && (forall item :: item in top ==> ForecastItemOf(j, filter, asOf, ids, item))
            && (forall item :: ForecastItemOf(j, filter, asOf, ids, item) && item !in top ==>
                  |decisions| + |top| == n && forall t :: t in top ==> Precedes(t, item))
  {
    var decisions := OldestDecisions(j, filter, asOf, n);
    OldestDecisionsAre(j, filter, asOf, n);
    forall item | item in decisions ensures item.kind.DecisionCase? {
      assert DecisionItemOf(j, filter, asOf, item);
    }
    ForecastIdsAre(decisions);
    if |decisions| < n {
      var all := MatchingForecasts(j, filter, asOf, ForecastIds(decisions), j.forecasts);
      ForecastItemsAre(j, filter, asOf, ForecastIds(decisions), j.forecasts);
      ForecastItemsDiffer(j, filter, asOf, ForecastIds(decisions), j.forecasts);
      TopIsOldest(all, n - |decisions|);
      forall item ensures item in all <==> ForecastItemOf(j, filter, asOf, NamedForecasts(decisions), item) {
      }
    }
  }

  lemma PartsDiffer(a: seq<Item>, b: seq<Item>)
    requires OneItemEach(a) && OneItemEach(b)
    requires (forall item :: item in a ==> item.kind.DecisionCase?) && (forall item :: item in b ==> item.kind.ForecastCase?)
    ensures OneItemEach(a + b)
  {
    forall i, j | 0 <= i < j < |a + b| ensures !SameKey((a + b)[i], (a + b)[j]) {
      if i < |a| <= j {
        assert a[i] in a && b[j - |a|] in b;
      }
    }
  }

  /** What a selection by filter is. */
  ghost predicate IsSelection(j: Journal, filter: CaseFilter, asOf: string, n: nat, r: seq<Item>) {
    && InOrder(r) && OneItemEach(r) && |r| <= n
    && (forall item :: item in r ==> DecisionItemOf(j, filter, asOf, item)
                                     || ForecastItemOf(j, filter, asOf, NamedForecasts(r), item))
    && (forall item :: DecisionItemOf(j, filter, asOf, item) && item !in r ==>
          |r| == n && forall t :: t in r ==> t.kind.DecisionCase? && Precedes(t, item))
    && (forall item :: ForecastItemOf(j, filter, asOf, NamedForecasts(r), item) && item !in r ==>
          |r| == n && forall t :: t in r ==> t.kind.DecisionCase? || Precedes(t, item))
  }

  lemma KindsOfParts(j: Journal, filter: CaseFilter, asOf: string, n: nat)
    requires OneRowEach(j)
    ensures forall item :: item in OldestDecisions(j, filter, asOf, n) ==> item.kind.DecisionCase?
    ensures forall item :: item in OldestForecasts(j, filter, asOf, n) ==> item.kind.ForecastCase?
  {
    OldestDecisionsAre(j, filter, asOf, n);
    OldestForecastsAre(j, filter, asOf, n);
    forall item | item in OldestDecisions(j, filter, asOf, n) ensures item.kind.DecisionCase? {
      assert DecisionItemOf(j, filter, asOf, item);
    }
    forall item | item in OldestForecasts(j, filter, asOf, n) ensures item.kind.ForecastCase? {
      assert ForecastItemOf(j, filter, asOf, NamedForecasts(OldestDecisions(j, filter, asOf, n)), item);
    }
  }

  lemma NamedByDecisions(decisions: seq<Item>, forecasts: seq<Item>, r: seq<Item>)
    requires forall item :: item in forecasts ==> item.kind.ForecastCase?
    requires forall item :: item in r <==> item in decisions || item in forecasts
    ensures NamedForecasts(r) == NamedForecasts(decisions)
  {
    forall x ensures x in NamedForecasts(r) <==> x in NamedForecasts(decisions) {
      if x in NamedForecasts(r) {
        var item :| item in r && item.kind.DecisionCase? && item.refs.Some? && item.refs.value.forecastId == Some(x) && x != "";
        assert item in decisions;
      }
      if x in NamedForecasts(decisions) {
        var item :| item in decisions && item.kind.DecisionCase? && item.refs.Some? && item.refs.value.forecastId == Some(x) && x != "";
        assert item in r;
      }
    }
  }

  /** Decisions first, forecasts for what is left, all in order. */
  lemma PartsMakeSelection(j: Journal, filter: CaseFilter, asOf: string, n: nat, r: seq<Item>)
    requires OneRowEach(j) && InOrder(r)
    requires multiset(r) == multiset(OldestDecisions(j, filter, asOf, n) + OldestForecasts(j, filter, asOf, n))
    ensures IsSelection(j, filter, asOf, n, r)
  {
    var decisions, forecasts := OldestDecisions(j, filter, asOf, n), OldestForecasts(j, filter, asOf, n);
    OldestDecisionsAre(j, filter, asOf, n);
    OldestForecastsAre(j, filter, asOf, n);
    KindsOfParts(j, filter, asOf, n);
    PartsDiffer(decisions, forecasts);
    KeysPermute(decisions + forecasts, r);
    SameMembers(r, decisions + forecasts);
    NamedByDecisions(decisions, forecasts, r);
    forall item | DecisionItemOf(j, filter, asOf, item) && item !in r
      ensures |r| == n && forall t :: t in r ==> t.kind.DecisionCase? && Precedes(t, item)
    {
      assert item !in decisions && forecasts == [];
    }
  }

  lemma ByFilterIsParts(j: Journal, filter: CaseFilter, asOf: string, n: nat)
    ensures ByFilter(j, filter, asOf, n) == OldestDecisions(j, filter, asOf, n) + OldestForecasts(j, filter, asOf, n)
  {
    var decisions := OldestDecisions(j, filter, asOf, n);
    assert decisions + [] == decisions;
  }

  lemma SelectIsParts(j: Journal, suffix: Suffix, sel: Selection, asOf: string, mode: string)
    requires sel.maxCases >= 1 && sel.sourceRefs == [] && sel.caseIds == []
    ensures var parts := OldestDecisions(j, sel.filter, asOf, sel.maxCases) + OldestForecasts(j, sel.filter, asOf, sel.maxCases);
            Select(j, suffix, sel, asOf, mode) == Ok(Take(SortBy(parts, CaseLeq), sel.maxCases))
  {
    ByFilterIsParts(j, sel.filter, asOf, sel.maxCases);
    assert NamedRefs(suffix, sel, asOf, mode) == Ok([]);
  }

  /** A request that names nothing gets what its filter asks for: the oldest decisions that meet
      it, then the oldest forecasts that do, at most as many as it allows, in order. */
  lemma FilterSelects(j: Journal, suffix: Suffix, sel: Selection, asOf: string, mode: string)
    requires sel.maxCases >= 1 && sel.sourceRefs == [] && sel.caseIds == [] && OneRowEach(j)
    ensures Select(j, suffix, sel, asOf, mode).Ok?
    ensures IsSelection(j, sel.filter, asOf, sel.maxCases, Select(j, suffix, sel, asOf, mode).value)
  {
    var n := sel.maxCases;
    var parts := OldestDecisions(j, sel.filter, asOf, n) + OldestForecasts(j, sel.filter, asOf, n);
    SelectIsParts(j, suffix, sel, asOf, mode);
    OldestDecisionsAre(j, sel.filter, asOf, n);
    OldestForecastsAre(j, sel.filter, asOf, n);
    KindsOfParts(j, sel.filter, asOf, n);
    PartsDiffer(OldestDecisions(j, sel.filter, asOf, n), OldestForecasts(j, sel.filter, asOf, n));
    SortedInOrder(parts);
    assert Take(SortBy(parts, CaseLeq), n) == SortBy(parts, CaseLeq);
    PartsMakeSelection(j, sel.filter, asOf, n, SortBy(parts, CaseLeq));
  }

  // ---- selection by reference ----

  /** Recorded by `asOf`. */
  predicate Recorded(createdAt: string, asOf: string) {
    createdAt == asOf || StrLt(createdAt, asOf)
  }

  ghost predicate NamesDecision(j: Journal, id: string, asOf: string, item: Item) {
    exists d :: d in j.decisions && d.id == id && Recorded(d.createdAt, asOf) && IsDecisionItem(item, d)
  }

  ghost predicate ThesisInForce(j: Journal, id: string, asOf: string) {
    exists t :: t in j.theses && t.id == id && InForce(t, asOf)
  }

  ghost predicate NamesForecast(j: Journal, id: string, asOf: string, item: Item) {
    exists f :: f in j.forecasts && f.id == id && InForce(f, asOf) && ThesisInForce(j, f.parent, asOf) && IsForecastItem(item, f)
  }

  ghost predicate NamesRecall(j: Journal, id: string, item: Item) {
    exists r :: r in j.recalls && r.id == id && item == Item(RecallCase, id, r.createdAt, None)
  }

  /** What a reference brings: the decision, the forecast in force with its thesis, or the recall
      event of that id. */
  ghost predicate RefBrings(j: Journal, ref: Ref, asOf: string, item: Item) {
    || (ref.kind == "decision" && NamesDecision(j, ref.id, asOf, item))
    || (ref.kind == "forecast" && NamesForecast(j, ref.id, asOf, item))
    || (ref.kind == "recall_event" && NamesRecall(j, ref.id, item))
  }

  ghost predicate OneRecallEach(j: Journal) {
    forall a, b :: a in j.recalls && b in j.recalls && a.id == b.id ==> a == b
  }

  lemma DecisionByRef(j: Journal, id: string, asOf: string)
    requires OneRowEach(j)
    ensures forall item :: item in ByRef(j, Ref("decision", id), asOf).value <==> NamesDecision(j, id, asOf, item)
  {
    var row := First(j.decisions, DecisionSeen(id, asOf));
    forall d | d in j.decisions && d.id == id && Recorded(d.createdAt, asOf) ensures row == Some(d) {
      assert DecisionSeen(id, asOf)(d);
      var a :| 0 <= a < |j.decisions| && j.decisions[a] == d;
      var b :| 0 <= b < |j.decisions| && j.decisions[b] == row.value;
    }
    forall item ensures item in ByRef(j, Ref("decision", id), asOf).value <==> NamesDecision(j, id, asOf, item) {
      assert row.Some? ==> (IsDecisionItem(item, row.value) <==> item == DecisionItem(row.value));
    }
  }

  lemma ForecastByRef(j: Journal, id: string, asOf: string)
    requires OneRowEach(j)
    ensures forall item :: item in ByRef(j, Ref("forecast", id), asOf).value <==> NamesForecast(j, id, asOf, item)
  {
    var row := First(j.forecasts, ForecastValid(id, j.theses, asOf));
    ForecastFound(j, id, asOf);
    forall item ensures item in ByRef(j, Ref("forecast", id), asOf).value <==> NamesForecast(j, id, asOf, item) {
      assert row.Some? ==> (IsForecastItem(item, row.value) <==> item == ForecastItem(row.value));
    }
  }

  lemma ForecastFound(j: Journal, id: string, asOf: string)
    requires OneRowEach(j)
    ensures var row := First(j.forecasts, ForecastValid(id, j.theses, asOf));
            && (row.Some? ==> row.value in j.forecasts && row.value.id == id && InForce(row.value, asOf)
                              && ThesisInForce(j, row.value.parent, asOf))
            && forall f :: f in j.forecasts && f.id == id && InForce(f, asOf) && ThesisInForce(j, f.parent, asOf) ==> row == Some(f)
  {
    var row := First(j.forecasts, ForecastValid(id, j.theses, asOf));
    forall f | f in j.forecasts ensures ForecastValid(id, j.theses, asOf)(f)
                                   <==> f.id == id && InForce(f, asOf) && ThesisInForce(j, f.parent, asOf)
    {
      JoinsIff(j, f, asOf);
    }
    forall f | f in j.forecasts && f.id == id && InForce(f, asOf) && ThesisInForce(j, f.parent, asOf) ensures row == Some(f) {
      var a :| 0 <= a < |j.forecasts| && j.forecasts[a] == f;
      var b :| 0 <= b < |j.forecasts| && j.forecasts[b] == row.value;
    }
  }

  lemma JoinsIff(j: Journal, f: Artifact, asOf: string)
    requires OneThesisEach(j)
    ensures ForecastJoins(f, j.theses, asOf) <==> InForce(f, asOf) && ThesisInForce(j, f.parent, asOf)
  {
    InForceIff(f, asOf);
    var found := First(j.theses, ArtifactIs(f.parent));
    if found.Some? {
      InForceIff(found.value, asOf);
    }
    if t :| t in j.theses && t.id == f.parent && InForce(t, asOf) {
      ThesisFound(j, f.parent, t);
    }
  }

  lemma RecallByRef(j: Journal, id: string, asOf: string)
    requires OneRecallEach(j) && ByRef(j, Ref("recall_event", id), asOf).Ok?
    ensures forall item :: item in ByRef(j, Ref("recall_event", id), asOf).value <==> NamesRecall(j, id, item)
  {
    var row := First(j.recalls, RecallIs(id));
    forall r | r in j.recalls && r.id == id ensures row == Some(r) {
      assert RecallIs(id)(r);
    }
  }

  /** One reference brings exactly what it names, or rejects the request: for its kind, or for a
      recall event that is missing or was recorded after `asOf`. */
  lemma RefIs(j: Journal, ref: Ref, asOf: string)
    requires OneRowEach(j) && OneRecallEach(j)
    ensures var found := ByRef(j, ref, asOf);
            && (found.Ok? ==> |found.value| <= 1 && forall item :: item in found.value <==> RefBrings(j, ref, asOf, item))
            && (found == Err(BadKind) <==> ref.kind !in {"decision", "forecast", "recall_event"})
            && (found == Err(RecallMissing) <==> ref.kind == "recall_event" && forall r :: r in j.recalls ==> r.id != ref.id)
            && (found == Err(RecallTooLate) <==>
                  ref.kind == "recall_event" && exists r :: r in j.recalls && r.id == ref.id && StrLt(asOf, r.createdAt))
            && (found.Err? ==> found.error in {BadKind, RecallMissing, RecallTooLate})
  {
    if ref.kind == "decision" {
      DecisionByRef(j, ref.id, asOf);
      assert ref == Ref("decision", ref.id);
    } else if ref.kind == "forecast" {
      ForecastByRef(j, ref.id, asOf);
      assert ref == Ref("forecast", ref.id);
    } else if ref.kind == "recall_event" {
      assert ref == Ref("recall_event", ref.id);
      var row := First(j.recalls, RecallIs(ref.id));
      forall r | r in j.recalls && r.id == ref.id ensures row == Some(r) {
        assert RecallIs(ref.id)(r);
      }
      if ByRef(j, ref, asOf).Ok? {
        RecallByRef(j, ref.id, asOf);
      }
    }
  }

  ghost predicate Brought(j: Journal, refs: seq<Ref>, asOf: string, item: Item) {
    exists ref :: ref in refs && RefBrings(j, ref, asOf, item)
  }

  lemma {:induction false} RefsBring(j: Journal, refs: seq<Ref>, asOf: string)
    requires OneRowEach(j) && OneRecallEach(j) && ByRefs(j, refs, asOf).Ok?
    ensures |ByRefs(j, refs, asOf).value| <= |refs|
    ensures forall item :: item in ByRefs(j, refs, asOf).value <==> Brought(j, refs, asOf, item)
    decreases |refs|
  {
    if refs != [] {
      var init, last := refs[..|refs| - 1], refs[|refs| - 1];
      RefsBring(j, init, asOf);
      RefIs(j, last, asOf);
      assert refs == init + [last];
      forall item ensures Brought(j, refs, asOf, item) <==> Brought(j, init, asOf, item) || RefBrings(j, last, asOf, item) {
        BroughtSnoc(j, init, last, asOf, item);
      }
    }
  }

  lemma BroughtSnoc(j: Journal, refs: seq<Ref>, last: Ref, asOf: string, item: Item)
    ensures Brought(j, refs + [last], asOf, item) <==> Brought(j, refs, asOf, item) || RefBrings(j, last, asOf, item)
  {
    if ref :| ref in refs && RefBrings(j, ref, asOf, item) {
      assert ref in refs + [last];
    }
    if RefBrings(j, last, asOf, item) {
      assert last in refs + [last];
    }
  }

  /** Not after; a repeated reference repeats its item. */
  predicate NotAfter(a: Item, b: Item) {
    Precedes(a, b) || (a.createdAt == b.createdAt && SameKey(a, b))
  }

  /** A request that names references gets exactly what they bring, the oldest first, cut off at
      the number it allows. */
  lemma RefsSelect(j: Journal, suffix: Suffix, sel: Selection, asOf: string, mode: string)
    requires OneRowEach(j) && OneRecallEach(j) && Select(j, suffix, sel, asOf, mode).Ok?
    requires NamedRefs(suffix, sel, asOf, mode).value != []
    ensures var refs, r := NamedRefs(suffix, sel, asOf, mode).value, Select(j, suffix, sel, asOf, mode).value;
            && |r| <= sel.maxCases
            && (forall a, b :: 0 <= a < b < |r| ==> NotAfter(r[a], r[b]))
            && (forall item :: item in r ==> Brought(j, refs, asOf, item))
            && (forall item :: Brought(j, refs, asOf, item) && item !in r ==> |r| == sel.maxCases && forall t :: t in r ==> NotAfter(t, item))
  {
    var refs, r := NamedRefs(suffix, sel, asOf, mode).value, Select(j, suffix, sel, asOf, mode).value;
    var items := ByRefs(j, refs, asOf).value;
    RefsBring(j, refs, asOf);
    CaseLeqOrder();
    SortBySorts(items, CaseLeq);
    SortedCut(items, sel.maxCases);
  }

  lemma SortedCut(items: seq<Item>, n: nat)
    requires Sorted(SortBy(items, CaseLeq), CaseLeq)
    ensures var r := Take(SortBy(items, CaseLeq), n);
            && |r| <= n && (forall a, b :: 0 <= a < b < |r| ==> NotAfter(r[a], r[b]))
            && (forall item :: item in r ==> item in items)
            && (forall item :: item in items && item !in r ==> |r| == n && forall t :: t in r ==> NotAfter(t, item))
  {
    var sorted := SortBy(items, CaseLeq);
    var r := Take(sorted, n);
    SameMembers(sorted, items);
    forall a, b | 0 <= a < b < |sorted| ensures NotAfter(sorted[a], sorted[b]) {
      assert CaseLeq(sorted[a], sorted[b]);
      CaseLeqIff(sorted[a], sorted[b]);
    }
    assert forall i :: 0 <= i < |r| ==> r[i] == sorted[i] && r[i] in r && r[i] in sorted;
    forall item | item in items && item !in r ensures |r| == n && forall t :: t in r ==> NotAfter(t, item) {
      assert item in sorted;
      var k :| 0 <= k < |sorted| && sorted[k] == item;
    }
  }

  // ---- what a request names ----

  /** A request is rejected before any lookup for its limit, for naming both references and case
      ids, or for a case id that is not the id of a case of this moment and mode. */
  lemma RequestNames(suffix: Suffix, sel: Selection, asOf: string, mode: string)
    ensures var refs := NamedRefs(suffix, sel, asOf, mode);
            && (refs == Err(BothRefsAndIds) <==> sel.sourceRefs != [] && sel.caseIds != [])
            && (sel.sourceRefs != [] && sel.caseIds == [] ==> refs == Ok(sel.sourceRefs))
            && (sel.sourceRefs == [] ==>
                  (refs == Err(BadCaseId) <==> exists k :: 0 <= k < |sel.caseIds| && ParseCaseId(suffix, sel.caseIds[k], asOf, mode).None?))
            && (sel.sourceRefs == [] && refs.Ok? ==>
                  && |refs.value| == |sel.caseIds|
                  && forall k :: 0 <= k < |sel.caseIds| ==> ParseCaseId(suffix, sel.caseIds[k], asOf, mode) == Some(refs.value[k]))
  {
    RefsOfIs(suffix, sel.caseIds, asOf, mode);
  }

  lemma {:induction false} RefsOfIs(suffix: Suffix, cids: seq<string>, asOf: string, mode: string)
    ensures var refs := RefsOf(suffix, cids, asOf, mode);
            && (refs.None? <==> exists k :: 0 <= k < |cids| && ParseCaseId(suffix, cids[k], asOf, mode).None?)
            && (refs.Some? ==> |refs.value| == |cids|
                               && forall k :: 0 <= k < |cids| ==> ParseCaseId(suffix, cids[k], asOf, mode) == Some(refs.value[k]))
    decreases |cids|
  {
    if cids != [] {
      RefsOfIs(suffix, cids[..|cids| - 1], asOf, mode);
    }
  }
}
