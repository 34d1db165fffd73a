/** The live re-mark of open positions (src/trade_trace/projections.py, src/trade_trace/reports/pnl.py). */
module Remarking {
  // Stored rows are marked when the projection is rebuilt; reports patch them with marks taken
  // from the snapshots of the moment.  The patch is proved to be the row a fresh rebuild would
  // store, and exactly when it is not.

  import opened Outcomes
  import opened Orders
  import opened Positions

  // ---- net quantities, summed in physical row order ----

  function NetQuantity(events: seq<PositionEvent>, id: string): real {
    SumQty(Filter(events, OfPosition(id)))
  }

  lemma {:induction false} SumQtyInsert(x: PositionEvent, s: seq<PositionEvent>)
    ensures SumQty(Insert(x, s, RowLeq)) == Qty(x) + SumQty(s)
  {
    if s != [] && !RowLeq(x, s[0]) {
      SumQtyInsert(x, s[1..]);
      assert Insert(x, s, RowLeq)[1..] == Insert(x, s[1..], RowLeq);
    } else {
      assert ([x] + s)[1..] == s;
    }
  }

  lemma {:induction false} SumQtySort(s: seq<PositionEvent>)
    ensures SumQty(SortBy(s, RowLeq)) == SumQty(s)
  {
    if s != [] {
      SumQtySort(s[1..]);
      SumQtyInsert(s[0], SortBy(s[1..], RowLeq));
    }
  }

  /** The aggregate of the SQL query is the quantity the fold ends with. */
  lemma NetQuantityIsFolded(events: seq<PositionEvent>, id: string)
    requires Fold(START, EventsOf(events, id)).Ok?
    ensures Fold(START, EventsOf(events, id)).value.qty == NetQuantity(events, id)
  {
    RowLeqOrder();
    FilterSort(events, OfPosition(id), RowLeq);
    SumQtySort(Filter(events, OfPosition(id)));
    FoldQty(START, EventsOf(events, id));
  }

  // ---- the re-mark ----

  /** The mark of one stored row, if it gets one. */
  function LiveMark(p: Position, events: seq<PositionEvent>, snapshots: seq<Snapshot>): Option<real> {
    if p.status.IsOpen? then MarkOf(p.side, p.avgEntryPrice, NetQuantity(events, p.id), LatestPrice(snapshots, p.instrumentId))
    else None
  }

  ghost predicate IsRemark(marks: map<string, real>, positions: map<string, Position>,
                           events: seq<PositionEvent>, snapshots: seq<Snapshot>) {
    && (forall id :: id in marks ==> id in positions && LiveMark(positions[id], events, snapshots) == Some(marks[id]))
    && (forall id :: id in positions && id !in marks ==> LiveMark(positions[id], events, snapshots) == None)
  }

  /** What the loop has done about these positions. */
  ghost predicate RemarkedSoFar(remarked: map<string, real>, positions: map<string, Position>, seen: seq<string>,
                                events: seq<PositionEvent>, snapshots: seq<Snapshot>)
  {
    && (forall id :: id in seen ==> id in positions)
    && (forall id :: id in remarked ==> id in seen && LiveMark(positions[id], events, snapshots) == Some(remarked[id]))
    && (forall id :: id in seen && id !in remarked ==> LiveMark(positions[id], events, snapshots) == None)
  }

  lemma RemarkNext(remarked: map<string, real>, positions: map<string, Position>, seen: seq<string>, id: string,
                   events: seq<PositionEvent>, snapshots: seq<Snapshot>)
    requires RemarkedSoFar(remarked, positions, seen, events, snapshots) && id in positions
    ensures var mark := LiveMark(positions[id], events, snapshots);
            RemarkedSoFar(if mark.Some? then remarked[id := mark.value] else remarked, positions, seen + [id], events, snapshots)
  {
  }

  lemma LiveMarkIs(p: Position, events: seq<PositionEvent>, snapshots: seq<Snapshot>)
    requires p.status.IsOpen? && p.avgEntryPrice.Some?
    ensures var net, price := NetQuantity(events, p.id), LatestPrice(snapshots, p.instrumentId);
            LiveMark(p, events, snapshots)
            == if ApproxZero(net) || price.None? then None else Some(UnrealizedPnl(p.side, price.value, p.avgEntryPrice.value, net))
  {
  }

  /** `remark_open_positions`: a price lookup per instrument, remembered. */
  method RemarkOpenPositions(positions: map<string, Position>, selected: seq<string>,
                             events: seq<PositionEvent>, snapshots: seq<Snapshot>)
    returns (remarked: map<string, real>)
    requires forall id :: id in selected <==>
               id in positions && positions[id].status.IsOpen? && positions[id].avgEntryPrice.Some?
    requires forall id :: id in positions ==> positions[id].id == id
    ensures IsRemark(remarked, positions, events, snapshots)
  {
    var marks: map<string, Option<real>> := map[];
    remarked := map[];
    for i := 0 to |selected|
      invariant forall instrument :: instrument in marks ==> marks[instrument] == LatestPrice(snapshots, instrument)
      invariant RemarkedSoFar(remarked, positions, selected[..i], events, snapshots)
    {
      var id := selected[i];
      var p := positions[id];
      assert selected[..i + 1] == selected[..i] + [id];
      LiveMarkIs(p, events, snapshots);
      RemarkNext(remarked, positions, selected[..i], id, events, snapshots);
      var net := NetQuantity(events, id);
      if ApproxZero(net) {
        continue;
      }
      if p.instrumentId !in marks {
        marks := marks[p.instrumentId := LatestPrice(snapshots, p.instrumentId)];
      }
      var price := marks[p.instrumentId];
      if price.None? {
        continue;
      }
      remarked := remarked[id := UnrealizedPnl(p.side, price.value, p.avgEntryPrice.value, net)];
    }
    assert selected[..|selected|] == selected;
  }

  function Patched(p: Position, marks: map<string, real>): Position {
    if p.status.IsOpen? && p.id in marks then p.(unrealizedPnl := Some(marks[p.id])) else p
  }

  /** `_apply_open_remark`. */
  method ApplyOpenRemark(rows: seq<Position>, marks: map<string, real>) returns (patched: seq<Position>)
    ensures |patched| == |rows|
    ensures forall i :: 0 <= i < |rows| ==> patched[i] == Patched(rows[i], marks)
  {
    if marks == map[] {
      return rows;
    }
    patched := [];
    for i := 0 to |rows|
      invariant |patched| == i
      invariant forall k :: 0 <= k < i ==> patched[k] == Patched(rows[k], marks)
    {
      var row := rows[i];
      if row.status.IsOpen? && row.id in marks {
        row := row.(unrealizedPnl := Some(marks[row.id]));
      }
      patched := patched + [row];
    }
  }

  // ---- the patch against a rebuild ----

  lemma RowForFacts(events: seq<PositionEvent>, id: string, decisions: Decisions, snapshots: seq<Snapshot>)
    requires Rebuildable(events) && id in PositionIds(events)
    ensures EventsOf(events, id) != [] && Fold(START, EventsOf(events, id)).Ok?
    ensures var rows := EventsOf(events, id);
            Rebuilt(events, decisions, snapshots)[id]
            == RowFrom(id, rows[0], rows[|rows| - 1], Fold(START, rows).value, KindAndSide(rows, decisions), snapshots)
  {
    EventsOfNonEmpty(events, id);
  }

  /** Two rows built from one accumulator differ at most in their mark. */
  lemma OnlyTheMarkMoves(id: string, first: PositionEvent, last: PositionEvent, acc: Acc, kindSide: (string, string),
                         before: seq<Snapshot>, now: seq<Snapshot>)
    ensures var p := RowFrom(id, first, last, acc, kindSide, before);
            RowFrom(id, first, last, acc, kindSide, now)
            == p.(unrealizedPnl := MarkOf(p.side, p.avgEntryPrice, acc.qty, LatestPrice(now, p.instrumentId)))
  {
  }

  /** The live mark of a stored row is the mark a fresh rebuild computes. */
  lemma LiveMarkIsFresh(events: seq<PositionEvent>, id: string, decisions: Decisions, before: seq<Snapshot>, now: seq<Snapshot>)
    requires Rebuildable(events) && id in PositionIds(events)
    ensures var p := Rebuilt(events, decisions, before)[id];
            Rebuilt(events, decisions, now)[id] == p.(unrealizedPnl := LiveMark(p, events, now))
  {
    RowForFacts(events, id, decisions, before);
    RowForFacts(events, id, decisions, now);
    NetQuantityIsFolded(events, id);
    var rows := EventsOf(events, id);
    OnlyTheMarkMoves(id, rows[0], rows[|rows| - 1], Fold(START, rows).value, KindAndSide(rows, decisions), before, now);
  }

  function PatchTable(positions: map<string, Position>, marks: map<string, real>): map<string, Position> {
    map id | id in positions :: Patched(positions[id], marks)
  }

  /** A price that was there has gone. */
  ghost predicate LostMark(p: Position, now: seq<Snapshot>) {
    p.unrealizedPnl.Some? && LatestPrice(now, p.instrumentId).None?
  }

  lemma PatchOne(events: seq<PositionEvent>, id: string, decisions: Decisions, before: seq<Snapshot>, now: seq<Snapshot>,
                 marks: map<string, real>)
    requires Rebuildable(events) && id in PositionIds(events)
    requires IsRemark(marks, Rebuilt(events, decisions, before), events, now)
    ensures var p := Rebuilt(events, decisions, before)[id];
            Patched(p, marks) == Rebuilt(events, decisions, now)[id] <==> !LostMark(p, now)
  {
    var p := Rebuilt(events, decisions, before)[id];
    RowForFacts(events, id, decisions, before);
    NetQuantityIsFolded(events, id);
    LiveMarkIsFresh(events, id, decisions, before, now);
  }

  lemma PatchTableIff(stored: map<string, Position>, rebuilt: map<string, Position>, marks: map<string, real>, now: seq<Snapshot>)
    requires stored.Keys == rebuilt.Keys
    requires forall id :: id in stored ==> (Patched(stored[id], marks) == rebuilt[id] <==> !LostMark(stored[id], now))
    ensures PatchTable(stored, marks) == rebuilt <==> NoMarkLost(stored, now)
  {
    var patched := PatchTable(stored, marks);
    assert patched.Keys == rebuilt.Keys;
    assert forall id :: id in stored ==> patched[id] == Patched(stored[id], marks);
    if patched == rebuilt {
      assert forall id :: id in stored ==> patched[id] == rebuilt[id];
    }
  }

  ghost predicate NoMarkLost(stored: map<string, Position>, now: seq<Snapshot>) {
    forall id :: id in stored ==> !LostMark(stored[id], now)
  }

  /** With the events unchanged since the rebuild, patching the stored table gives the freshly
      rebuilt one exactly when no marked position has lost its instrument's price. */
  lemma RemarkIsRebuildIff(events: seq<PositionEvent>, decisions: Decisions, before: seq<Snapshot>, now: seq<Snapshot>,
                           marks: map<string, real>)
    requires Rebuildable(events)
    requires IsRemark(marks, Rebuilt(events, decisions, before), events, now)
    ensures PatchTable(Rebuilt(events, decisions, before), marks) == Rebuilt(events, decisions, now)
       <==> NoMarkLost(Rebuilt(events, decisions, before), now)
  {
    var stored, rebuilt := Rebuilt(events, decisions, before), Rebuilt(events, decisions, now);
    forall id | id in stored ensures Patched(stored[id], marks) == rebuilt[id] <==> !LostMark(stored[id], now) {
      PatchOne(events, id, decisions, before, now, marks);
    }
    PatchTableIff(stored, rebuilt, marks, now);
  }

  /** In particular when snapshots are only added. */
  lemma RemarkIsRebuild(events: seq<PositionEvent>, decisions: Decisions, before: seq<Snapshot>, now: seq<Snapshot>,
                        marks: map<string, real>)
    requires Rebuildable(events)
    requires IsRemark(marks, Rebuilt(events, decisions, before), events, now)
    requires forall s :: s in before ==> s in now
    ensures PatchTable(Rebuilt(events, decisions, before), marks) == Rebuilt(events, decisions, now)
  {
    var stored := Rebuilt(events, decisions, before);
    forall id | id in stored ensures !LostMark(stored[id], now) {
      RowForFacts(events, id, decisions, before);
      LatestPriceIff(before, stored[id].instrumentId);
      LatestPriceIff(now, stored[id].instrumentId);
    }
    RemarkIsRebuildIff(events, decisions, before, now, marks);
  }

  /** Straight after a rebuild the re-mark changes nothing. */
  lemma RemarkIsStable(events: seq<PositionEvent>, decisions: Decisions, snapshots: seq<Snapshot>, marks: map<string, real>)
    requires Rebuildable(events)
    requires IsRemark(marks, Rebuilt(events, decisions, snapshots), events, snapshots)
    ensures PatchTable(Rebuilt(events, decisions, snapshots), marks) == Rebuilt(events, decisions, snapshots)
  {
    RemarkIsRebuild(events, decisions, snapshots, snapshots, marks);
  }
}
