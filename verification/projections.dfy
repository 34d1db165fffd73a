/** The positions projection (src/trade_trace/projections.py). */
module Positions {
  // A position row is a fold over that position's events in (created_at, id) order.  Floats are
  // reals; the 1e-9 tolerances are the code's.

  import opened Outcomes
  import opened Orders

  datatype EventType = Open | Add | Reduce | Close | Mark | Expire | Assigned | Corrected

  datatype PositionEvent = PositionEvent(
    positionId: string, instrumentId: string, eventType: EventType,
    quantityDelta: Option<real>, price: Option<real>, fees: Option<real>, slippage: Option<real>,
    risk: Option<real>, realizedR: Option<real>, unrealizedR: Option<real>,
    createdAt: string, id: string, decisionId: Option<string>)

  datatype Status = IsOpen | IsClosed

  datatype Position = Position(
    id: string, instrumentId: string, kind: string, side: string, status: Status,
    openedAt: string, closedAt: Option<string>, realizedPnl: Option<real>,
    unrealizedPnl: Option<real>, avgEntryPrice: Option<real>, updatedAt: string,
    risk: Option<real>, realizedR: Option<real>, unrealizedR: Option<real>)

  datatype Snapshot = Snapshot(id: string, instrumentId: string, capturedAt: string, price: Option<real>)

  /** A decision's `(type, side)`. */
  type Decisions = map<string, (Option<string>, Option<string>)>

  /** The two rejected exits, with the offending event. */
  datatype ExitError = NotReducing(eventId: string) | ExceedsExposure(eventId: string)

  const EPS: real := 0.000000001

  predicate ApproxZero(v: real) {
    Abs(v) < EPS
  }

  function OrZero(v: Option<real>): real {
    match v case None => 0.0 case Some(x) => x
  }

  function Latest<T>(before: Option<T>, now: Option<T>): Option<T> {
    if now.Some? then now else before
  }

  predicate IsEntry(t: EventType) { t.Open? || t.Add? }

  predicate IsExit(t: EventType) { t.Reduce? || t.Close? || t.Expire? || t.Assigned? }

  function Qty(row: PositionEvent): real { OrZero(row.quantityDelta) }

  // ---- the running quantities ----

  datatype Acc = Acc(
    qty: real, weighted: real, absEntry: real, realized: real, avg: Option<real>,
    closedAt: Option<string>, risk: Option<real>, realizedR: Option<real>, unrealizedR: Option<real>)

  const START := Acc(0.0, 0.0, 0.0, 0.0, None, None, None, None, None)

  /** An exit that adds to the exposure instead of facing it. */
  predicate Alongside(q: real, d: real) {
    (q > 0.0 && d > 0.0) || (q < 0.0 && d < 0.0)
  }

  predicate Facing(q: real, d: real) {
    (q > 0.0 && d < 0.0) || (q < 0.0 && d > 0.0)
  }

  /** Why an exit is refused: it must move exposure toward zero without crossing it, up to the
      tolerance, unless its quantity is itself below the tolerance. */
  function ExitRefusal(qty: real, row: PositionEvent): Option<ExitError> {
    var d := Qty(row);
    if !IsExit(row.eventType) || ApproxZero(d) then None
    else if Alongside(qty, d) || ApproxZero(qty) then Some(NotReducing(row.id))
    else if Abs(d) > Abs(qty) + EPS then Some(ExceedsExposure(row.id))
    else None
  }

  /** Price times size. */
  function Notional(p: real, d: real): real {
    p * Abs(d)
  }

  /** Volume-weighted average price. */
  function AverageOf(weighted: real, volume: real): real
    requires volume > 0.0
  {
    weighted / volume
  }

  function EntryAverage(acc: Acc, row: PositionEvent): Acc {
    if IsEntry(row.eventType) && row.price.Some? then
      var weighted := acc.weighted + Notional(row.price.value, Qty(row));
      var absEntry := acc.absEntry + Abs(Qty(row));
      acc.(weighted := weighted, absEntry := absEntry,
           avg := if absEntry > 0.0 then Some(AverageOf(weighted, absEntry)) else acc.avg)
    else acc
  }

  /** What closing `d` at `p` earns, signed from the exposure before the fill. */
  function Gross(avg: real, qty: real, d: real, p: real): real {
    if qty > 0.0 then Notional(p - avg, d) else if qty < 0.0 then Notional(avg - p, d) else 0.0
  }

  /** Realized P&L of an exit fill. */
  function ExitPnl(qty: real, avg: real, row: PositionEvent): real
    requires row.price.Some?
  {
    Gross(avg, qty, Qty(row), row.price.value) - (OrZero(row.fees) + OrZero(row.slippage))
  }

  function Step(acc: Acc, row: PositionEvent): Result<Acc, ExitError> {
    var refusal := ExitRefusal(acc.qty, row);
    if refusal.Some? then Err(refusal.value)
    else
      var a := EntryAverage(acc, row);
      var realized := if IsExit(row.eventType) && row.price.Some? && a.avg.Some?
                      then a.realized + ExitPnl(a.qty, a.avg.value, row) else a.realized;
      var qty := a.qty + Qty(row);
      Ok(a.(qty := qty, realized := realized,
            closedAt := if row.eventType.Close? || row.eventType.Expire? || row.eventType.Assigned? || ApproxZero(qty)
                        then Some(row.createdAt) else a.closedAt,
            risk := Latest(a.risk, row.risk),
            realizedR := Latest(a.realizedR, row.realizedR),
            unrealizedR := Latest(a.unrealizedR, row.unrealizedR)))
  }

  function Fold(acc: Acc, rows: seq<PositionEvent>): Result<Acc, ExitError>
    decreases |rows|
  {
    if rows == [] then Ok(acc)
    else
      match Step(acc, rows[0])
      case Err(e) => Err(e)
      case Ok(next) => Fold(next, rows[1..])
  }

  // ---- kind, side and mark ----

  const PAPER_TYPES: set<string> := {"paper_enter", "paper_exit"}
  const ACTUAL_TYPES: set<string> := {"actual_enter", "actual_exit", "add", "reduce", "hold", "resolved"}

  function KindOf(t: Option<string>): string {
    if t.Some? && t.value in PAPER_TYPES then "paper"
    else if t.Some? && t.value in ACTUAL_TYPES then "actual"
    else "simulation"
  }

  predicate HasDecision(row: PositionEvent, decisions: Decisions) {
    row.decisionId.Some? && row.decisionId.value in decisions
  }

  function DecisionView(row: PositionEvent, decisions: Decisions): (string, string)
    requires HasDecision(row, decisions)
  {
    var (t, s) := decisions[row.decisionId.value];
    (KindOf(t), if s.Some? then s.value else "long")
  }

  /** From the first event whose decision is on record. */
  function KindAndSide(rows: seq<PositionEvent>, decisions: Decisions): (string, string) {
    if rows == [] then ("simulation", "long")
    else if HasDecision(rows[0], decisions) then DecisionView(rows[0], decisions)
    else KindAndSide(rows[1..], decisions)
  }

  predicate SnapshotLeq(a: Snapshot, b: Snapshot) {
    if a.capturedAt != b.capturedAt then StrLt(a.capturedAt, b.capturedAt) else StrLeq(a.id, b.id)
  }

  function UsableSnapshots(snapshots: seq<Snapshot>, instrumentId: string): seq<Snapshot> {
    Filter(snapshots, (s: Snapshot) => s.instrumentId == instrumentId && s.price.Some?)
  }

  /** The price of the newest snapshot that has one. */
  function LatestPrice(snapshots: seq<Snapshot>, instrumentId: string): Option<real> {
    var usable := SortBy(UsableSnapshots(snapshots, instrumentId), SnapshotLeq);
    if usable == [] then None else usable[|usable| - 1].price
  }

  lemma SnapshotOrder()
    ensures TotalPreorder(SnapshotLeq)
  {
    forall a, b ensures SnapshotLeq(a, b) || SnapshotLeq(b, a) {
      StrTotal(a.capturedAt, b.capturedAt);
      StrTotal(a.id, b.id);
    }
    forall a, b, c | SnapshotLeq(a, b) && SnapshotLeq(b, c) ensures SnapshotLeq(a, c) {
      LexStep(a.capturedAt, b.capturedAt, c.capturedAt);
      LexStep(a.id, b.id, c.id);
    }
  }

  lemma SortedLast(rows: seq<Snapshot>)
    requires rows != []
    ensures var sorted := SortBy(rows, SnapshotLeq);
            sorted != [] && sorted[|sorted| - 1] in rows && forall t :: t in rows ==> SnapshotLeq(t, sorted[|sorted| - 1])
  {
    var sorted := SortBy(rows, SnapshotLeq);
    SnapshotOrder();
    SortBySorts(rows, SnapshotLeq);
    SameMembers(sorted, rows);
    assert rows[0] in sorted;
    var last := sorted[|sorted| - 1];
    assert last in sorted;
    forall t | t in rows ensures SnapshotLeq(t, last) {
      assert t in sorted;
      var i :| 0 <= i < |sorted| && sorted[i] == t;
      assert i < |sorted| - 1 ==> SnapshotLeq(sorted[i], sorted[|sorted| - 1]);
    }
  }

  lemma UsableIff(snapshots: seq<Snapshot>, instrumentId: string)
    ensures UsableSnapshots(snapshots, instrumentId) != []
       <==> exists s :: s in snapshots && s.instrumentId == instrumentId && s.price.Some?
    ensures forall s :: s in UsableSnapshots(snapshots, instrumentId) ==> s.price.Some?
  {
    var usable := UsableSnapshots(snapshots, instrumentId);
    if usable != [] {
      assert usable[0] in usable;
    } else {
      assert forall s :: s in snapshots ==> s !in usable;
    }
  }

  lemma NewestIsLast(snapshots: seq<Snapshot>, instrumentId: string, s: Snapshot)
    requires s in UsableSnapshots(snapshots, instrumentId)
    requires forall t :: t in UsableSnapshots(snapshots, instrumentId) ==> SnapshotLeq(t, s)
    ensures IsNewest(s, snapshots, instrumentId)
  {
    forall t | t in snapshots && t.instrumentId == instrumentId && t.price.Some?
      ensures StrLt(t.capturedAt, s.capturedAt) || (t.capturedAt == s.capturedAt && (t.id == s.id || StrLt(t.id, s.id)))
    {
      assert t in UsableSnapshots(snapshots, instrumentId);
    }
  }

  /** A priced snapshot of the instrument than which none is newer. */
  predicate IsNewest(s: Snapshot, snapshots: seq<Snapshot>, instrumentId: string) {
    && s in snapshots && s.instrumentId == instrumentId && s.price.Some?
    && forall t :: t in snapshots && t.instrumentId == instrumentId && t.price.Some? ==>
         StrLt(t.capturedAt, s.capturedAt) || (t.capturedAt == s.capturedAt && (t.id == s.id || StrLt(t.id, s.id)))
  }

  /** There is a mark exactly when some snapshot of the instrument has a price, and it is the
      price of the newest of those. */
  lemma LatestPriceIff(snapshots: seq<Snapshot>, instrumentId: string)
    ensures LatestPrice(snapshots, instrumentId).Some?
       <==> exists s :: s in snapshots && s.instrumentId == instrumentId && s.price.Some?
    ensures LatestPrice(snapshots, instrumentId).Some? ==>
              exists s :: IsNewest(s, snapshots, instrumentId) && s.price == LatestPrice(snapshots, instrumentId)
  {
    var usable := UsableSnapshots(snapshots, instrumentId);
    UsableIff(snapshots, instrumentId);
    if usable != [] {
      SortedLast(usable);
      var sorted := SortBy(usable, SnapshotLeq);
      NewestIsLast(snapshots, instrumentId, sorted[|sorted| - 1]);
    } else {
      assert SortBy(usable, SnapshotLeq) == [];
    }
  }

  /** Snapshots quote the YES price; a `no` position is marked at its complement. */
  function UnrealizedPnl(side: string, mark: real, avg: real, qty: real): real {
    if side == "no" then ((1.0 - mark) - avg) * Abs(qty) else (mark - avg) * qty
  }

  function MarkOf(side: string, avg: Option<real>, qty: real, price: Option<real>): Option<real> {
    if ApproxZero(qty) || avg.None? || price.None? then None
    else Some(UnrealizedPnl(side, price.value, avg.value, qty))
  }

  // ---- one position ----

  function RowFrom(id: string, first: PositionEvent, last: PositionEvent, acc: Acc,
                   kindSide: (string, string), snapshots: seq<Snapshot>): Position
  {
    var closed := ApproxZero(acc.qty);
    Position(id, first.instrumentId, kindSide.0, kindSide.1, if closed then IsClosed else IsOpen,
             first.createdAt, if closed then acc.closedAt else None,
             if acc.realized != 0.0 then Some(acc.realized) else None,
             MarkOf(kindSide.1, acc.avg, acc.qty, LatestPrice(snapshots, first.instrumentId)),
             acc.avg, last.createdAt, acc.risk, acc.realizedR, acc.unrealizedR)
  }

  function Accumulate(id: string, rows: seq<PositionEvent>, decisions: Decisions, snapshots: seq<Snapshot>)
    : Result<Position, ExitError>
    requires rows != []
  {
    match Fold(START, rows)
    case Err(e) => Err(e)
    case Ok(acc) => Ok(RowFrom(id, rows[0], rows[|rows| - 1], acc, KindAndSide(rows, decisions), snapshots))
  }

  lemma {:induction false} FoldAppend(acc: Acc, rows: seq<PositionEvent>, row: PositionEvent)
    ensures Fold(acc, rows + [row])
         == match Fold(acc, rows) case Err(e) => Err(e) case Ok(a) => Step(a, row)
    decreases |rows|
  {
    if rows == [] {
      assert rows + [row] == [row] && [row][1..] == [];
    } else {
      assert (rows + [row])[1..] == rows[1..] + [row];
      if Step(acc, rows[0]).Ok? {
        FoldAppend(Step(acc, rows[0]).value, rows[1..], row);
      }
    }
  }

  lemma {:induction false} FoldPrefix(acc: Acc, rows: seq<PositionEvent>, i: nat)
    requires i <= |rows| && Fold(acc, rows[..i]).Err?
    ensures Fold(acc, rows) == Fold(acc, rows[..i])
    decreases |rows|
  {
    if i > 0 && Step(acc, rows[0]).Ok? {
      assert rows[..i][1..] == rows[1..][..i - 1];
      FoldPrefix(Step(acc, rows[0]).value, rows[1..], i - 1);
    }
  }

  /** One turn of the loop in `_accumulate_position`. */
  method ApplyRow(acc: Acc, row: PositionEvent) returns (r: Result<Acc, ExitError>)
    ensures r == Step(acc, row)
  {
    var d, fees, slippage := Qty(row), OrZero(row.fees), OrZero(row.slippage);
    var qty, weighted, absEntry, realized := acc.qty, acc.weighted, acc.absEntry, acc.realized;
    var avg, closedAt := acc.avg, acc.closedAt;
    if IsEntry(row.eventType) && row.price.Some? {
      weighted := weighted + Notional(row.price.value, d);
      absEntry := absEntry + Abs(d);
      if absEntry > 0.0 {
        avg := Some(AverageOf(weighted, absEntry));
      }
    } else if IsExit(row.eventType) && !ApproxZero(d) {
      if (qty > 0.0 && d > 0.0) || (qty < 0.0 && d < 0.0) || ApproxZero(qty) {
        return Err(NotReducing(row.id));
      }
      if Abs(d) > Abs(qty) + EPS {
        return Err(ExceedsExposure(row.id));
      }
    }
    if IsExit(row.eventType) && row.price.Some? && avg.Some? {
      var gross := 0.0;
      if qty > 0.0 {
        gross := Notional(row.price.value - avg.value, d);
      } else if qty < 0.0 {
        gross := Notional(avg.value - row.price.value, d);
      }
      assert gross == Gross(avg.value, qty, d, row.price.value);
      realized := realized + (gross - (fees + slippage));
    }
    qty := qty + d;
    if row.eventType.Close? || row.eventType.Expire? || row.eventType.Assigned? || ApproxZero(qty) {
      closedAt := Some(row.createdAt);
    }
    var next := Acc(qty, weighted, absEntry, realized, avg, closedAt, Latest(acc.risk, row.risk),
                    Latest(acc.realizedR, row.realizedR), Latest(acc.unrealizedR, row.unrealizedR));
    assert ExitRefusal(acc.qty, row).None?;
    assert EntryAverage(acc, row) == acc.(weighted := weighted, absEntry := absEntry, avg := avg);
    assert Step(acc, row).value.realized == realized;
    assert Step(acc, row).value.closedAt == closedAt;
    return Ok(next);
  }

  /** `_accumulate_position`: the loop over one position's events. */
  method AccumulatePosition(id: string, rows: seq<PositionEvent>, decisions: Decisions, snapshots: seq<Snapshot>)
    returns (r: Result<Position, ExitError>)
    requires rows != []
    ensures r == Accumulate(id, rows, decisions, snapshots)
  {
    var acc := START;
    for i := 0 to |rows|
      invariant Fold(START, rows[..i]) == Ok(acc)
    {
      assert rows[..i + 1] == rows[..i] + [rows[i]];
      FoldAppend(START, rows[..i], rows[i]);
      var next := ApplyRow(acc, rows[i]);
      if next.Err? {
        FoldPrefix(START, rows, i + 1);
        return Err(next.error);
      }
      acc := next.value;
    }
    assert rows[..|rows|] == rows;
    return Ok(RowFrom(id, rows[0], rows[|rows| - 1], acc, KindAndSide(rows, decisions), snapshots));
  }

  // ---- status ----

  function SumQty(rows: seq<PositionEvent>): real {
    if rows == [] then 0.0 else Qty(rows[0]) + SumQty(rows[1..])
  }

  lemma {:induction false} FoldQty(acc: Acc, rows: seq<PositionEvent>)
    requires Fold(acc, rows).Ok?
    ensures Fold(acc, rows).value.qty == acc.qty + SumQty(rows)
    decreases |rows|
  {
    if rows != [] {
      FoldQty(Step(acc, rows[0]).value, rows[1..]);
    }
  }

  lemma FoldStatus(rows: seq<PositionEvent>)
    requires rows != [] && Fold(START, rows).Ok?
    ensures var acc := Fold(START, rows).value;
            acc.qty == SumQty(rows) && (ApproxZero(acc.qty) ==> acc.closedAt == Some(rows[|rows| - 1].createdAt))
  {
    FoldQty(START, rows);
    var last := |rows| - 1;
    assert rows == rows[..last] + [rows[last]];
    FoldAppend(START, rows[..last], rows[last]);
  }

  /** A row is closed exactly when its quantities sum to zero within the tolerance, and then
      (only then) it has a closing time, which is the time of its last event. */
  lemma ClosedIff(id: string, rows: seq<PositionEvent>, decisions: Decisions, snapshots: seq<Snapshot>)
    requires rows != [] && Accumulate(id, rows, decisions, snapshots).Ok?
    ensures var p := Accumulate(id, rows, decisions, snapshots).value;
            && (p.status == IsClosed <==> Abs(SumQty(rows)) < EPS)
            && (p.status == IsClosed <==> p.closedAt.Some?)
            && (p.status == IsClosed ==> p.closedAt == Some(p.updatedAt) && p.unrealizedPnl == None)
            && p.openedAt == rows[0].createdAt && p.updatedAt == rows[|rows| - 1].createdAt
  {
    FoldStatus(rows);
  }

  /** The last value that is given, if any is. */
  predicate IsLastGiven(v: Option<real>, column: seq<Option<real>>) {
    if v.None? then forall i :: 0 <= i < |column| ==> column[i].None?
    else exists k :: 0 <= k < |column| && column[k] == v && forall i :: k < i < |column| ==> column[i].None?
  }

  function Risks(rows: seq<PositionEvent>): seq<Option<real>> { seq(|rows|, i requires 0 <= i < |rows| => rows[i].risk) }
  function RealizedRs(rows: seq<PositionEvent>): seq<Option<real>> { seq(|rows|, i requires 0 <= i < |rows| => rows[i].realizedR) }
  function UnrealizedRs(rows: seq<PositionEvent>): seq<Option<real>> { seq(|rows|, i requires 0 <= i < |rows| => rows[i].unrealizedR) }

  lemma LastGivenNext(before: Option<real>, now: Option<real>, column: seq<Option<real>>)
    requires IsLastGiven(before, column)
    ensures IsLastGiven(if now.Some? then now else before, column + [now])
  {
    var all := column + [now];
    if now.Some? {
      assert all[|column|] == now;
    } else if before.Some? {
      var k :| 0 <= k < |column| && column[k] == before && forall i :: k < i < |column| ==> column[i].None?;
      assert all[k] == before;
    }
  }

  /** The mirrored columns carry the last value that an event gave. */
  lemma {:induction false} FoldMirrors(rows: seq<PositionEvent>)
    requires Fold(START, rows).Ok?
    ensures var acc := Fold(START, rows).value;
            && IsLastGiven(acc.risk, Risks(rows)) && IsLastGiven(acc.realizedR, RealizedRs(rows))
            && IsLastGiven(acc.unrealizedR, UnrealizedRs(rows))
    decreases |rows|
  {
    if rows != [] {
      var init, last := rows[..|rows| - 1], rows[|rows| - 1];
      assert rows == init + [last];
      FoldAppend(START, init, last);
      FoldMirrors(init);
      var acc := Fold(START, init).value;
      LastGivenNext(acc.risk, last.risk, Risks(init));
      LastGivenNext(acc.realizedR, last.realizedR, RealizedRs(init));
      LastGivenNext(acc.unrealizedR, last.unrealizedR, UnrealizedRs(init));
      assert Risks(rows) == Risks(init) + [last.risk];
      assert RealizedRs(rows) == RealizedRs(init) + [last.realizedR];
      assert UnrealizedRs(rows) == UnrealizedRs(init) + [last.unrealizedR];
    }
  }

  /** Event `k` is the first whose decision is on record. */
  predicate FirstDecided(rows: seq<PositionEvent>, decisions: Decisions, k: int) {
    && 0 <= k < |rows| && rows[k].decisionId.Some? && rows[k].decisionId.value in decisions
    && forall i :: 0 <= i < k ==> rows[i].decisionId.None? || rows[i].decisionId.value !in decisions
  }

  /** Kind and side are those of the first decision on record. */
  lemma {:induction false} KindAndSideAre(rows: seq<PositionEvent>, decisions: Decisions)
    ensures var (kind, side) := KindAndSide(rows, decisions);
            && (forall k :: FirstDecided(rows, decisions, k) ==>
                  var (t, s) := decisions[rows[k].decisionId.value];
                  && side == (if s.Some? then s.value else "long")
                  && (kind == "paper" <==> t.Some? && t.value in {"paper_enter", "paper_exit"})
                  && (kind == "actual" <==> t.Some? && t.value in {"actual_enter", "actual_exit", "add", "reduce", "hold", "resolved"})
                  && kind in {"paper", "actual", "simulation"})
            && ((forall k :: !FirstDecided(rows, decisions, k)) ==> kind == "simulation" && side == "long")
  {
    if rows != [] {
      if HasDecision(rows[0], decisions) {
        assert FirstDecided(rows, decisions, 0);
        assert forall k :: FirstDecided(rows, decisions, k) ==> k == 0;
      } else {
        KindAndSideAre(rows[1..], decisions);
        forall k ensures FirstDecided(rows, decisions, k + 1) <==> FirstDecided(rows[1..], decisions, k) {
          DecidedLater(rows, decisions, k);
        }
        assert forall k :: FirstDecided(rows, decisions, k) ==> k > 0 && FirstDecided(rows[1..], decisions, k - 1);
      }
    }
  }

  lemma DecidedLater(rows: seq<PositionEvent>, decisions: Decisions, k: int)
    requires rows != [] && !HasDecision(rows[0], decisions)
    ensures FirstDecided(rows, decisions, k + 1) <==> FirstDecided(rows[1..], decisions, k)
  {
    if FirstDecided(rows, decisions, k + 1) {
      assert k >= 0;
      assert forall i :: 0 <= i < k ==> rows[1..][i] == rows[i + 1];
    }
    if FirstDecided(rows[1..], decisions, k) {
      forall i | 0 <= i < k + 1 ensures rows[i].decisionId.None? || rows[i].decisionId.value !in decisions {
        assert i > 0 ==> rows[i] == rows[1..][i - 1];
      }
    }
  }

  /** The columns of a row that are not figures. */
  lemma RowColumns(id: string, rows: seq<PositionEvent>, decisions: Decisions, snapshots: seq<Snapshot>)
    requires rows != [] && Accumulate(id, rows, decisions, snapshots).Ok?
    ensures var p := Accumulate(id, rows, decisions, snapshots).value;
            && p.id == id && p.instrumentId == rows[0].instrumentId
            && p.openedAt == rows[0].createdAt && p.updatedAt == rows[|rows| - 1].createdAt
            && (p.kind, p.side) == KindAndSide(rows, decisions)
            && IsLastGiven(p.risk, Risks(rows)) && IsLastGiven(p.realizedR, RealizedRs(rows))
            && IsLastGiven(p.unrealizedR, UnrealizedRs(rows))
  {
    FoldMirrors(rows);
  }

  /** No accepted exit carries exposure past zero by more than the tolerance. */
  lemma ExitStopsAtZero(acc: Acc, row: PositionEvent)
    requires IsExit(row.eventType) && Step(acc, row).Ok?
    ensures acc.qty > 0.0 ==> Step(acc, row).value.qty >= -EPS
    ensures acc.qty < 0.0 ==> Step(acc, row).value.qty <= EPS
    ensures acc.qty == 0.0 ==> Abs(Step(acc, row).value.qty) < EPS
  {
  }

  /** An exit is refused exactly when its size is at or above the tolerance and it either does
      not face the exposure or is larger than it by more than the tolerance. */
  lemma RefusedIff(acc: Acc, row: PositionEvent)
    requires IsExit(row.eventType)
    ensures Step(acc, row).Err? <==>
              Abs(Qty(row)) >= EPS && (Abs(acc.qty) < EPS || !Facing(acc.qty, Qty(row)) || Abs(Qty(row)) > Abs(acc.qty) + EPS)
    ensures Step(acc, row).Err? ==>
              Step(acc, row).error == if Abs(acc.qty) < EPS || !Facing(acc.qty, Qty(row)) then NotReducing(row.id) else ExceedsExposure(row.id)
  {
  }

  // ---- the whole projection ----

  /** `ORDER BY position_id, created_at, id`. */
  predicate RowLeq(a: PositionEvent, b: PositionEvent) {
    if a.positionId != b.positionId then StrLt(a.positionId, b.positionId)
    else if a.createdAt != b.createdAt then StrLt(a.createdAt, b.createdAt)
    else StrLeq(a.id, b.id)
  }

  lemma RowLeqOrder()
    ensures TotalPreorder(RowLeq)
    ensures forall a, b :: RowLeq(a, b) && RowLeq(b, a) ==> a.positionId == b.positionId && a.id == b.id
  {
    StrLeqOrder();
    forall a, b ensures RowLeq(a, b) || RowLeq(b, a) {
      StrTotal(a.positionId, b.positionId);
      StrTotal(a.createdAt, b.createdAt);
      StrTotal(a.id, b.id);
    }
    forall a, b, c | RowLeq(a, b) && RowLeq(b, c) ensures RowLeq(a, c) {
      RowLeqTransitive(a, b, c);
    }
    forall a, b | RowLeq(a, b) && RowLeq(b, a) ensures a.positionId == b.positionId && a.id == b.id {
      StrAsymmetric(a.positionId, b.positionId);
      StrAsymmetric(a.createdAt, b.createdAt);
    }
  }

  lemma RowLeqTransitive(a: PositionEvent, b: PositionEvent, c: PositionEvent)
    requires RowLeq(a, b) && RowLeq(b, c)
    ensures RowLeq(a, c)
  {
    LexStep(a.positionId, b.positionId, c.positionId);
    LexStep(a.createdAt, b.createdAt, c.createdAt);
    LexStep(a.id, b.id, c.id);
  }

  lemma LexStep(a: string, b: string, c: string)
    ensures StrLt(a, b) && StrLt(b, c) ==> StrLt(a, c) && a != c
    ensures StrLeq(a, b) && StrLeq(b, c) ==> StrLeq(a, c)
    ensures !StrLt(a, a)
  {
    StrAsymmetric(a, a);
    StrAsymmetric(a, b);
    if StrLt(a, b) && StrLt(b, c) {
      StrTransitive(a, b, c);
    }
  }

  function OfPosition(id: string): PositionEvent -> bool {
    (row: PositionEvent) => row.positionId == id
  }

  /** One position's events in replay order. */
  function EventsOf(events: seq<PositionEvent>, id: string): seq<PositionEvent> {
    Filter(SortBy(events, RowLeq), OfPosition(id))
  }

  /** Oldest first, and by id within one time. */
  predicate NotLater(a: PositionEvent, b: PositionEvent) {
    StrLt(a.createdAt, b.createdAt) || (a.createdAt == b.createdAt && (a.id == b.id || StrLt(a.id, b.id)))
  }

  /** A position is replayed from exactly its own events, oldest first. */
  lemma ReplayOrder(events: seq<PositionEvent>, id: string)
    ensures forall row :: multiset(EventsOf(events, id))[row] == if row.positionId == id then multiset(events)[row] else 0
    ensures var rows := EventsOf(events, id); forall i, j :: 0 <= i < j < |rows| ==> NotLater(rows[i], rows[j])
  {
    RowLeqOrder();
    FilterSort(events, OfPosition(id), RowLeq);
    var mine := Filter(events, OfPosition(id));
    SortBySorts(mine, RowLeq);
    forall row ensures multiset(EventsOf(events, id))[row] == if row.positionId == id then multiset(events)[row] else 0 {
      FilterMultiset(events, OfPosition(id), row);
    }
    var rows := EventsOf(events, id);
    forall i, j | 0 <= i < j < |rows| ensures NotLater(rows[i], rows[j]) {
      assert rows[i] in rows && rows[j] in rows && RowLeq(rows[i], rows[j]);
    }
  }

  function PositionIds(events: seq<PositionEvent>): set<string> {
    set row | row in events :: row.positionId
  }

  lemma EventsOfNonEmpty(events: seq<PositionEvent>, id: string)
    requires id in PositionIds(events)
    ensures EventsOf(events, id) != []
  {
    var row :| row in events && row.positionId == id;
    assert row in multiset(SortBy(events, RowLeq));
    assert row in EventsOf(events, id);
  }

  function RowFor(events: seq<PositionEvent>, id: string, decisions: Decisions, snapshots: seq<Snapshot>)
    : Result<Position, ExitError>
    requires id in PositionIds(events)
  {
    EventsOfNonEmpty(events, id);
    Accumulate(id, EventsOf(events, id), decisions, snapshots)
  }

  lemma OldestFirst(rows: seq<PositionEvent>, e: PositionEvent)
    requires (forall i, j :: 0 <= i < j < |rows| ==> NotLater(rows[i], rows[j])) && e in rows
    ensures StrLeq(rows[0].createdAt, e.createdAt) && StrLeq(e.createdAt, rows[|rows| - 1].createdAt)
  {
    var i :| 0 <= i < |rows| && rows[i] == e;
    assert i > 0 ==> NotLater(rows[0], rows[i]);
    assert i < |rows| - 1 ==> NotLater(rows[i], rows[|rows| - 1]);
  }

  lemma EventsOfMembers(events: seq<PositionEvent>, id: string, e: PositionEvent)
    ensures e in EventsOf(events, id) <==> e in events && e.positionId == id
  {
    ReplayOrder(events, id);
    assert e in EventsOf(events, id) <==> multiset(EventsOf(events, id))[e] > 0;
    assert e in events <==> multiset(events)[e] > 0;
  }

  /** The opening time of a rebuilt row is its earliest event's, its last update its latest event's. */
  lemma OpenedFirstUpdatedLast(events: seq<PositionEvent>, id: string, decisions: Decisions, snapshots: seq<Snapshot>)
    requires id in PositionIds(events) && RowFor(events, id, decisions, snapshots).Ok?
    ensures var p := RowFor(events, id, decisions, snapshots).value;
            && (exists e :: e in events && e.positionId == id && e.createdAt == p.openedAt)
            && (exists e :: e in events && e.positionId == id && e.createdAt == p.updatedAt)
            && (forall e :: e in events && e.positionId == id ==> StrLeq(p.openedAt, e.createdAt) && StrLeq(e.createdAt, p.updatedAt))
  {
    var rows := EventsOf(events, id);
    EventsOfNonEmpty(events, id);
    ReplayOrder(events, id);
    RowColumns(id, rows, decisions, snapshots);
    EventsOfMembers(events, id, rows[0]);
    EventsOfMembers(events, id, rows[|rows| - 1]);
    forall e | e in events && e.positionId == id
      ensures StrLeq(rows[0].createdAt, e.createdAt) && StrLeq(e.createdAt, rows[|rows| - 1].createdAt)
    {
      EventsOfMembers(events, id, e);
      OldestFirst(rows, e);
    }
  }

  predicate Rebuildable(events: seq<PositionEvent>) {
    forall id :: id in PositionIds(events) ==> Fold(START, EventsOf(events, id)).Ok?
  }

  function Rebuilt(events: seq<PositionEvent>, decisions: Decisions, snapshots: seq<Snapshot>): map<string, Position>
    requires Rebuildable(events)
  {
    map id | id in PositionIds(events) :: RowFor(events, id, decisions, snapshots).value
  }

  ghost predicate UniqueIds(events: seq<PositionEvent>) {
    forall a, b :: a in events && b in events && a.id == b.id ==> a == b
  }

  /** A row depends only on its own position's events, in whatever physical order they lie. */
  lemma EventsOfLocal(a: seq<PositionEvent>, b: seq<PositionEvent>, id: string)
    requires UniqueIds(a)
    requires multiset(Filter(a, OfPosition(id))) == multiset(Filter(b, OfPosition(id)))
    ensures EventsOf(a, id) == EventsOf(b, id)
  {
    RowLeqOrder();
    FilterSort(a, OfPosition(id), RowLeq);
    FilterSort(b, OfPosition(id), RowLeq);
    SortIgnoresOrder(Filter(a, OfPosition(id)), Filter(b, OfPosition(id)), RowLeq);
  }

  lemma RowsPermute(a: seq<PositionEvent>, b: seq<PositionEvent>, id: string)
    requires UniqueIds(a) && multiset(a) == multiset(b)
    ensures EventsOf(a, id) == EventsOf(b, id)
    ensures id in PositionIds(a) <==> id in PositionIds(b)
  {
    FilterPermutes(a, b, OfPosition(id));
    EventsOfLocal(a, b, id);
    SameMembers(a, b);
  }

  /** Two journals whose positions have the same events. */
  ghost predicate SameRows(a: seq<PositionEvent>, b: seq<PositionEvent>) {
    PositionIds(a) == PositionIds(b) && forall id :: id in PositionIds(a) ==> EventsOf(a, id) == EventsOf(b, id)
  }

  lemma SameRowsRebuildable(a: seq<PositionEvent>, b: seq<PositionEvent>)
    requires SameRows(a, b) && Rebuildable(a)
    ensures Rebuildable(b)
  {
    forall id | id in PositionIds(b) ensures Fold(START, EventsOf(b, id)).Ok? {
      assert EventsOf(a, id) == EventsOf(b, id);
    }
  }

  lemma SameRowsTable(a: seq<PositionEvent>, b: seq<PositionEvent>, decisions: Decisions, snapshots: seq<Snapshot>)
    requires SameRows(a, b) && Rebuildable(a) && Rebuildable(b)
    ensures Rebuilt(a, decisions, snapshots) == Rebuilt(b, decisions, snapshots)
  {
    forall id | id in PositionIds(a)
      ensures RowFor(a, id, decisions, snapshots) == RowFor(b, id, decisions, snapshots)
    {
      assert EventsOf(a, id) == EventsOf(b, id);
    }
  }

  /** Rebuilding is independent of the physical order of the event rows. */
  lemma RebuildIgnoresRowOrder(a: seq<PositionEvent>, b: seq<PositionEvent>, decisions: Decisions, snapshots: seq<Snapshot>)
    requires UniqueIds(a) && multiset(a) == multiset(b)
    ensures Rebuildable(a) <==> Rebuildable(b)
    ensures Rebuildable(a) ==> Rebuilt(a, decisions, snapshots) == Rebuilt(b, decisions, snapshots)
  {
    forall id ensures EventsOf(a, id) == EventsOf(b, id) && (id in PositionIds(a) <==> id in PositionIds(b)) {
      RowsPermute(a, b, id);
    }
    assert SameRows(a, b) && SameRows(b, a);
    if Rebuildable(a) {
      SameRowsRebuildable(a, b);
      SameRowsTable(a, b, decisions, snapshots);
    } else if Rebuildable(b) {
      SameRowsRebuildable(b, a);
    }
  }

  class ProjectionStore {
    var events: seq<PositionEvent>
    var decisions: Decisions
    var snapshots: seq<Snapshot>
    var positions: map<string, Position>

    constructor (events: seq<PositionEvent>, decisions: Decisions, snapshots: seq<Snapshot>)
      ensures this.events == events && this.decisions == decisions && this.snapshots == snapshots && positions == map[]
    {
      this.events, this.decisions, this.snapshots, positions := events, decisions, snapshots, map[];
    }

    /** Bucket the sorted events by position, in order of first appearance. */
    method GroupEvents(sorted: seq<PositionEvent>)
      returns (byPosition: map<string, seq<PositionEvent>>, order: seq<string>)
      ensures Grouped(sorted, byPosition)
      ensures forall id :: id in order <==> id in byPosition
    {
      byPosition, order := map[], [];
      for i := 0 to |sorted|
        invariant Grouped(sorted[..i], byPosition)
        invariant forall id :: id in order <==> id in byPosition
      {
        var row := sorted[i];
        var id := row.positionId;
        GroupStep(sorted, i, byPosition);
        if id !in byPosition {
          byPosition := byPosition[id := []];
          order := order + [id];
        }
        byPosition := byPosition[id := byPosition[id] + [row]];
      }
      assert sorted[..|sorted|] == sorted;
    }

    /** Fold every bucket, stopping at the first rejected exit. */
    method BuildTable(byPosition: map<string, seq<PositionEvent>>, order: seq<string>)
      returns (table: map<string, Position>, failed: Option<(string, ExitError)>)
      requires forall id :: id in order ==> id in byPosition && byPosition[id] != []
      ensures failed.None? ==> forall id :: id in table <==> id in order
      ensures failed.None? ==> forall id :: id in table ==>
                Accumulate(id, byPosition[id], decisions, snapshots) == Ok(table[id])
      ensures failed.Some? ==> failed.value.0 in order
      ensures failed.Some? ==> Accumulate(failed.value.0, byPosition[failed.value.0], decisions, snapshots) == Err(failed.value.1)
    {
      table := map[];
      for i := 0 to |order|
        invariant forall id :: id in table <==> id in order[..i]
        invariant forall id :: id in table ==> id in order && Accumulate(id, byPosition[id], decisions, snapshots) == Ok(table[id])
      {
        var id := order[i];
        var row := AccumulatePosition(id, byPosition[id], decisions, snapshots);
        if row.Err? {
          return table, Some((id, row.error));
        }
        table := table[id := row.value];
        assert order[..i + 1] == order[..i] + [id];
      }
      assert order[..|order|] == order;
      failed := None;
    }

    /** `rebuild_positions`.  On a rejected exit the caller's transaction is rolled back, so the
        table is as it was. */
    method RebuildPositions() returns (r: Result<(nat, nat), ExitError>)
      modifies this`positions
      ensures r.Ok? <==> Rebuildable(events)
      ensures r.Ok? ==> positions == Rebuilt(events, decisions, snapshots)
                        && r.value == (|old(positions)|, |positions|)
      ensures r.Err? ==> positions == old(positions)
      ensures r.Err? ==> exists id :: id in PositionIds(events) && Fold(START, EventsOf(events, id)) == Err(r.error)
    {
      var dropped := positions;
      positions := map[];
      var byPosition, order := GroupEvents(SortBy(events, RowLeq));
      GroupsAreRows(events, byPosition);
      var table, failed := BuildTable(byPosition, order);
      if failed.Some? {
        RowFails(events, failed.value.0, decisions, snapshots);
        positions := dropped;
        return Err(failed.value.1);
      }
      positions := table;
      AllRowsBuilt(events, decisions, snapshots, positions);
      return Ok((|dropped|, |positions|));
    }
  }

  ghost predicate Grouped(sorted: seq<PositionEvent>, byPosition: map<string, seq<PositionEvent>>) {
    && byPosition.Keys == PositionIds(sorted)
    && forall id :: id in byPosition ==> byPosition[id] == Filter(sorted, OfPosition(id))
  }

  lemma GroupsAreRows(events: seq<PositionEvent>, byPosition: map<string, seq<PositionEvent>>)
    requires Grouped(SortBy(events, RowLeq), byPosition)
    ensures byPosition.Keys == PositionIds(events)
    ensures forall id :: id in byPosition ==> byPosition[id] == EventsOf(events, id) && byPosition[id] != []
  {
    SameMembers(SortBy(events, RowLeq), events);
    assert PositionIds(SortBy(events, RowLeq)) == PositionIds(events);
    forall id | id in byPosition ensures byPosition[id] != [] {
      EventsOfNonEmpty(events, id);
    }
  }

  lemma RowFails(events: seq<PositionEvent>, id: string, decisions: Decisions, snapshots: seq<Snapshot>)
    requires id in PositionIds(events) && RowFor(events, id, decisions, snapshots).Err?
    ensures !Rebuildable(events)
    ensures Fold(START, EventsOf(events, id)) == Err(RowFor(events, id, decisions, snapshots).error)
  {
    EventsOfNonEmpty(events, id);
  }

  lemma AllRowsBuilt(events: seq<PositionEvent>, decisions: Decisions, snapshots: seq<Snapshot>, positions: map<string, Position>)
    requires positions.Keys == PositionIds(events)
    requires forall id :: id in positions ==> RowFor(events, id, decisions, snapshots) == Ok(positions[id])
    ensures Rebuildable(events) && positions == Rebuilt(events, decisions, snapshots)
  {
    forall id | id in PositionIds(events) ensures Fold(START, EventsOf(events, id)).Ok? {
      assert RowFor(events, id, decisions, snapshots).Ok?;
    }
  }

  lemma GroupStep(sorted: seq<PositionEvent>, i: nat, byPosition: map<string, seq<PositionEvent>>)
    requires i < |sorted| && Grouped(sorted[..i], byPosition)
    ensures var id := sorted[i].positionId;
            Grouped(sorted[..i + 1], byPosition[id := (if id in byPosition then byPosition[id] else []) + [sorted[i]]])
  {
    var before, row := sorted[..i], sorted[i];
    assert sorted[..i + 1] == before + [row];
    var after := byPosition[row.positionId := (if row.positionId in byPosition then byPosition[row.positionId] else []) + [row]];
    assert after.Keys == PositionIds(before + [row]);
    forall id | id in after ensures after[id] == Filter(before + [row], OfPosition(id)) {
      GroupOne(before, row, byPosition, id);
    }
  }

  lemma GroupOne(before: seq<PositionEvent>, row: PositionEvent, byPosition: map<string, seq<PositionEvent>>, id: string)
    requires Grouped(before, byPosition)
    ensures Filter(before + [row], OfPosition(id))
         == (if id in byPosition then byPosition[id] else []) + (if row.positionId == id then [row] else [])
  {
    FilterSnoc(before, row, OfPosition(id));
    if id !in byPosition {
      FilterNone(before, OfPosition(id));
    }
  }
}
