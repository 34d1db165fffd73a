/** Position rebuilds read as incremental updates (src/trade_trace/projections.py).

    The source has no incremental updater: it rebuilds the whole table whenever it needs one.
    What is stated here is a property of that rebuild: it is the result of carrying every position
    forward one arriving event at a time, whatever way the positions' arrivals interleave. */
module LivePositions {
  import opened Outcomes
  import opened Orders
  import opened Positions

  /** What a position needs to be carried forward one event at a time. */
  datatype Live = Live(first: PositionEvent, last: PositionEvent, acc: Acc, kindSide: Option<(string, string)>)

  function LiveAdd(before: Option<Live>, row: PositionEvent, decisions: Decisions): Result<Live, ExitError> {
    var l := if before.Some? then before.value else Live(row, row, START, None);
    match Step(l.acc, row)
    case Err(e) => Err(e)
    case Ok(acc) =>
      Ok(Live(l.first, row, acc,
              if l.kindSide.None? && HasDecision(row, decisions) then Some(DecisionView(row, decisions)) else l.kindSide))
  }

  type LiveTable = map<string, Live>

  function LiveStep(t: LiveTable, row: PositionEvent, decisions: Decisions): Result<LiveTable, ExitError> {
    var id := row.positionId;
    match LiveAdd(if id in t then Some(t[id]) else None, row, decisions)
    case Err(e) => Err(e)
    case Ok(l) => Ok(t[id := l])
  }

  /** Apply arriving events one at a time, whatever position each belongs to. */
  function LiveRun(rows: seq<PositionEvent>, decisions: Decisions): Result<LiveTable, ExitError> {
    if rows == [] then Ok(map[])
    else
      match LiveRun(rows[..|rows| - 1], decisions)
      case Err(e) => Err(e)
      case Ok(t) => LiveStep(t, rows[|rows| - 1], decisions)
  }

  function Published(t: LiveTable, snapshots: seq<Snapshot>): map<string, Position> {
    map id | id in t :: RowFrom(id, t[id].first, t[id].last, t[id].acc,
                                if t[id].kindSide.Some? then t[id].kindSide.value else ("simulation", "long"), snapshots)
  }

  /** One position's arrivals, applied one at a time. */
  function LiveOf(mine: seq<PositionEvent>, decisions: Decisions): Result<Live, ExitError>
    requires mine != []
  {
    var row := mine[|mine| - 1];
    if |mine| == 1 then LiveAdd(None, row, decisions)
    else
      match LiveOf(mine[..|mine| - 1], decisions)
      case Err(e) => Err(e)
      case Ok(l) => LiveAdd(Some(l), row, decisions)
  }

  lemma {:induction false} KindAndSideAppend(rows: seq<PositionEvent>, row: PositionEvent, decisions: Decisions)
    ensures (exists r :: r in rows && HasDecision(r, decisions)) ==> KindAndSide(rows + [row], decisions) == KindAndSide(rows, decisions)
    ensures (forall r :: r in rows ==> !HasDecision(r, decisions)) ==>
              KindAndSide(rows, decisions) == ("simulation", "long")
              && KindAndSide(rows + [row], decisions)
                 == if HasDecision(row, decisions) then DecisionView(row, decisions) else ("simulation", "long")
  {
    if rows == [] {
      assert rows + [row] == [row];
      assert KindAndSide([row][1..], decisions) == ("simulation", "long");
    } else {
      assert (rows + [row])[1..] == rows[1..] + [row];
      assert rows == [rows[0]] + rows[1..];
      KindAndSideAppend(rows[1..], row, decisions);
    }
  }

  ghost predicate KindMatches(l: Live, mine: seq<PositionEvent>, decisions: Decisions) {
    if exists r :: r in mine && HasDecision(r, decisions) then l.kindSide == Some(KindAndSide(mine, decisions))
    else l.kindSide == None && KindAndSide(mine, decisions) == ("simulation", "long")
  }

  /** A live entry is right about the events it has seen. */
  ghost predicate LiveFits(live: Result<Live, ExitError>, mine: seq<PositionEvent>, decisions: Decisions)
    requires mine != []
  {
    match live
    case Err(e) => Fold(START, mine) == Err(e)
    case Ok(l) => Fold(START, mine) == Ok(l.acc) && l.first == mine[0] && l.last == mine[|mine| - 1]
                  && KindMatches(l, mine, decisions)
  }

  lemma FirstLiveFits(row: PositionEvent, decisions: Decisions)
    ensures LiveFits(LiveAdd(None, row, decisions), [row], decisions)
  {
    assert [row][1..] == [];
    KindAndSideAppend([], row, decisions);
    assert [] + [row] == [row];
    assert Fold(START, [row]) == Step(START, row);
  }

  lemma NextKindMatches(l: Live, before: seq<PositionEvent>, row: PositionEvent, decisions: Decisions)
    requires KindMatches(l, before, decisions) && LiveAdd(Some(l), row, decisions).Ok?
    ensures KindMatches(LiveAdd(Some(l), row, decisions).value, before + [row], decisions)
  {
    KindAndSideAppend(before, row, decisions);
    if exists r :: r in before && HasDecision(r, decisions) {
      var r :| r in before && HasDecision(r, decisions);
      assert r in before + [row];
    } else if HasDecision(row, decisions) {
      assert row in before + [row];
    }
  }

  lemma NextLiveFits(l: Live, before: seq<PositionEvent>, row: PositionEvent, decisions: Decisions)
    requires before != [] && LiveFits(Ok(l), before, decisions)
    ensures LiveFits(LiveAdd(Some(l), row, decisions), before + [row], decisions)
  {
    FoldAppend(START, before, row);
    if LiveAdd(Some(l), row, decisions).Ok? {
      NextKindMatches(l, before, row, decisions);
    }
  }

  lemma {:induction false} LiveOfFacts(mine: seq<PositionEvent>, decisions: Decisions)
    requires mine != []
    ensures LiveFits(LiveOf(mine, decisions), mine, decisions)
    decreases |mine|
  {
    var before, row := mine[..|mine| - 1], mine[|mine| - 1];
    if before == [] {
      assert mine == [row];
      FirstLiveFits(row, decisions);
    } else {
      assert mine == before + [row];
      LiveOfFacts(before, decisions);
      if LiveOf(before, decisions).Ok? {
        NextLiveFits(LiveOf(before, decisions).value, before, row, decisions);
      } else {
        FoldAppend(START, before, row);
      }
    }
  }

  /** The live entry of a position is that of its arrivals so far. */
  ghost predicate Tracks(t: LiveTable, rows: seq<PositionEvent>, decisions: Decisions, id: string) {
    var mine := Filter(rows, OfPosition(id));
    (id in t <==> mine != []) && (id in t ==> LiveOf(mine, decisions) == Ok(t[id]))
  }

  lemma LiveOfSnoc(mine: seq<PositionEvent>, row: PositionEvent, decisions: Decisions)
    ensures mine == [] ==> LiveOf(mine + [row], decisions) == LiveAdd(None, row, decisions)
    ensures mine != [] && LiveOf(mine, decisions).Err? ==> LiveOf(mine + [row], decisions).Err?
    ensures mine != [] && LiveOf(mine, decisions).Ok? ==>
              LiveOf(mine + [row], decisions) == LiveAdd(Some(LiveOf(mine, decisions).value), row, decisions)
  {
    assert (mine + [row])[..|mine|] == mine;
  }

  /** A live step touches one entry, by one `LiveAdd`. */
  lemma LiveStepShape(t: LiveTable, row: PositionEvent, decisions: Decisions, id: string)
    requires LiveStep(t, row, decisions).Ok?
    ensures id != row.positionId ==>
              var after := LiveStep(t, row, decisions).value;
              (id in after <==> id in t) && (id in t ==> after[id] == t[id])
    ensures id == row.positionId ==>
              var after := LiveStep(t, row, decisions).value;
              id in after && LiveAdd(if id in t then Some(t[id]) else None, row, decisions) == Ok(after[id])
  {
  }

  lemma LiveStepTracksOther(t: LiveTable, before: seq<PositionEvent>, row: PositionEvent, decisions: Decisions, id: string)
    requires id != row.positionId && Tracks(t, before, decisions, id)
    requires LiveStep(t, row, decisions).Ok?
    ensures Tracks(LiveStep(t, row, decisions).value, before + [row], decisions, id)
  {
    FilterSnoc(before, row, OfPosition(id));
    assert Filter(before + [row], OfPosition(id)) == Filter(before, OfPosition(id));
    LiveStepShape(t, row, decisions, id);
  }

  lemma TracksOwn(t: LiveTable, after: LiveTable, mine: seq<PositionEvent>, row: PositionEvent, decisions: Decisions, id: string)
    requires (id in t <==> mine != []) && (id in t ==> LiveOf(mine, decisions) == Ok(t[id]))
    requires id in after && LiveAdd(if id in t then Some(t[id]) else None, row, decisions) == Ok(after[id])
    ensures LiveOf(mine + [row], decisions) == Ok(after[id])
  {
    LiveOfSnoc(mine, row, decisions);
  }

  lemma LiveStepTracks(t: LiveTable, before: seq<PositionEvent>, row: PositionEvent, decisions: Decisions, id: string)
    requires Tracks(t, before, decisions, id)
    requires LiveStep(t, row, decisions).Ok?
    ensures Tracks(LiveStep(t, row, decisions).value, before + [row], decisions, id)
  {
    if id != row.positionId {
      LiveStepTracksOther(t, before, row, decisions, id);
    } else {
      FilterSnoc(before, row, OfPosition(id));
      LiveStepShape(t, row, decisions, id);
      TracksOwn(t, LiveStep(t, row, decisions).value, Filter(before, OfPosition(id)), row, decisions, id);
    }
  }

  lemma LiveStepFails(t: LiveTable, before: seq<PositionEvent>, row: PositionEvent, decisions: Decisions)
    requires Tracks(t, before, decisions, row.positionId)
    requires LiveStep(t, row, decisions).Err?
    ensures Fold(START, Filter(before + [row], OfPosition(row.positionId))).Err?
  {
    var mine := Filter(before, OfPosition(row.positionId));
    FilterSnoc(before, row, OfPosition(row.positionId));
    LiveOfSnoc(mine, row, decisions);
    LiveOfFacts(mine + [row], decisions);
  }

  lemma FoldStaysRejected(mine: seq<PositionEvent>, row: PositionEvent)
    requires Fold(START, mine).Err?
    ensures Fold(START, mine + [row]).Err?
  {
    FoldAppend(START, mine, row);
  }

  ghost predicate Rejects(rows: seq<PositionEvent>, id: string) {
    id in PositionIds(rows) && Fold(START, Filter(rows, OfPosition(id))).Err?
  }

  lemma RejectionStays(before: seq<PositionEvent>, row: PositionEvent, id: string)
    requires Rejects(before, id)
    ensures Rejects(before + [row], id)
  {
    var mine := Filter(before, OfPosition(id));
    FilterSnoc(before, row, OfPosition(id));
    if row.positionId == id {
      FoldStaysRejected(mine, row);
      assert Filter(before + [row], OfPosition(id)) == mine + [row];
    } else {
      assert Filter(before + [row], OfPosition(id)) == mine;
    }
    assert PositionIds(before + [row]) == PositionIds(before) + {row.positionId};
  }

  ghost predicate TracksAll(t: LiveTable, rows: seq<PositionEvent>, decisions: Decisions) {
    forall id :: Tracks(t, rows, decisions, id)
  }

  lemma LiveStepTracksAll(t: LiveTable, before: seq<PositionEvent>, row: PositionEvent, decisions: Decisions)
    requires TracksAll(t, before, decisions)
    ensures LiveStep(t, row, decisions).Ok? ==> TracksAll(LiveStep(t, row, decisions).value, before + [row], decisions)
    ensures LiveStep(t, row, decisions).Err? ==> Rejects(before + [row], row.positionId)
  {
    if LiveStep(t, row, decisions).Ok? {
      forall id ensures Tracks(LiveStep(t, row, decisions).value, before + [row], decisions, id) {
        LiveStepTracks(t, before, row, decisions, id);
      }
    } else {
      LiveStepFails(t, before, row, decisions);
      assert row in before + [row];
    }
  }

  lemma {:induction false} LiveRunTracks(rows: seq<PositionEvent>, decisions: Decisions)
    ensures LiveRun(rows, decisions).Ok? ==> TracksAll(LiveRun(rows, decisions).value, rows, decisions)
    ensures LiveRun(rows, decisions).Err? ==> exists id :: Rejects(rows, id)
    decreases |rows|
  {
    if rows != [] {
      var before, row := rows[..|rows| - 1], rows[|rows| - 1];
      assert rows == before + [row];
      LiveRunTracks(before, decisions);
      if LiveRun(before, decisions).Ok? {
        LiveStepTracksAll(LiveRun(before, decisions).value, before, row, decisions);
      } else {
        var id :| Rejects(before, id);
        RejectionStays(before, row, id);
        assert Rejects(rows, id);
      }
    }
  }

  /** Each position's events arrive oldest first, and by id within one time. */
  ghost predicate InOrder(arrivals: seq<PositionEvent>) {
    forall i, j :: 0 <= i < j < |arrivals| && arrivals[i].positionId == arrivals[j].positionId ==>
      NotLater(arrivals[i], arrivals[j])
  }

  lemma {:induction false} InOrderSorted(arrivals: seq<PositionEvent>, id: string)
    requires InOrder(arrivals)
    ensures Sorted(Filter(arrivals, OfPosition(id)), RowLeq)
  {
    if arrivals != [] {
      var rest := Filter(arrivals[1..], OfPosition(id));
      InOrderSorted(arrivals[1..], id);
      if arrivals[0].positionId == id {
        forall k | 0 <= k < |rest| ensures RowLeq(arrivals[0], rest[k]) {
          assert rest[k] in rest;
          var j :| 1 <= j < |arrivals| && arrivals[j] == rest[k];
          StrAsymmetric(arrivals[0].createdAt, arrivals[j].createdAt);
        }
      }
    }
  }

  lemma InOrderEvents(arrivals: seq<PositionEvent>, id: string)
    requires InOrder(arrivals)
    ensures EventsOf(arrivals, id) == Filter(arrivals, OfPosition(id))
  {
    RowLeqOrder();
    InOrderSorted(arrivals, id);
    FilterSort(arrivals, OfPosition(id), RowLeq);
    SortFixpoint(Filter(arrivals, OfPosition(id)), RowLeq);
  }

  lemma PublishedRow(t: LiveTable, arrivals: seq<PositionEvent>, decisions: Decisions, snapshots: seq<Snapshot>, id: string)
    requires InOrder(arrivals) && Tracks(t, arrivals, decisions, id)
    ensures id in t <==> id in PositionIds(arrivals)
    ensures id in t ==> RowFor(arrivals, id, decisions, snapshots) == Ok(Published(t, snapshots)[id])
  {
    InOrderEvents(arrivals, id);
    if id in PositionIds(arrivals) {
      EventsOfNonEmpty(arrivals, id);
    } else {
      FilterNone(arrivals, OfPosition(id));
    }
    if id in t {
      LiveOfFacts(Filter(arrivals, OfPosition(id)), decisions);
    }
  }

  lemma RejectedNotRebuildable(arrivals: seq<PositionEvent>, id: string)
    requires InOrder(arrivals) && Rejects(arrivals, id)
    ensures !Rebuildable(arrivals)
  {
    InOrderEvents(arrivals, id);
    assert Fold(START, EventsOf(arrivals, id)).Err?;
  }

  /** Live updating agrees with a rebuild: whenever each position's events arrive in replay
      order - positions interleaved in any way - publishing the live table gives exactly the
      rebuilt projection, and the two reject the same journals. */
  lemma LiveMatchesRebuild(arrivals: seq<PositionEvent>, decisions: Decisions, snapshots: seq<Snapshot>)
    requires InOrder(arrivals)
    ensures LiveRun(arrivals, decisions).Ok? <==> Rebuildable(arrivals)
    ensures Rebuildable(arrivals) ==>
              Published(LiveRun(arrivals, decisions).value, snapshots) == Rebuilt(arrivals, decisions, snapshots)
  {
    LiveRunTracks(arrivals, decisions);
    if LiveRun(arrivals, decisions).Ok? {
      var t := LiveRun(arrivals, decisions).value;
      forall id
        ensures id in t <==> id in PositionIds(arrivals)
        ensures id in t ==> RowFor(arrivals, id, decisions, snapshots) == Ok(Published(t, snapshots)[id])
      {
        PublishedRow(t, arrivals, decisions, snapshots, id);
      }
      assert Published(t, snapshots).Keys == PositionIds(arrivals);
      AllRowsBuilt(arrivals, decisions, snapshots, Published(t, snapshots));
    } else {
      var id :| Rejects(arrivals, id);
      RejectedNotRebuildable(arrivals, id);
    }
  }
}
