/** Profit and loss of a position (src/trade_trace/projections.py, src/trade_trace/reports/pnl.py). */
module ProfitAndLoss {
  // `Positions` says what the code computes; this module says what the numbers mean.  Every fill
  // moves cash; realized P&L plus the mark of what is left should be the cash that came back plus
  // what the rest is worth, less exit costs.  The code keeps that ledger up to a `Defect` that is
  // given here in closed form for every step, which tells exactly when it is kept.

  import opened Outcomes
  import opened Orders
  import opened Arithmetic
  import opened Positions

  // ---- the ledger of one position ----

  predicate IsPricedFill(row: PositionEvent) {
    row.price.Some? && (IsEntry(row.eventType) || IsExit(row.eventType))
  }

  /** Cash received by a fill; buying is negative. */
  function Cash(row: PositionEvent): real {
    if IsPricedFill(row) then -(row.price.value * Qty(row)) else 0.0
  }

  /** Only exits that realize P&L are charged; entry fees never are. */
  function Cost(acc: Acc, row: PositionEvent): real {
    if IsExit(row.eventType) && row.price.Some? && acc.avg.Some? then OrZero(row.fees) + OrZero(row.slippage) else 0.0
  }

  function Avg(acc: Acc): real { OrZero(acc.avg) }

  /** Realized P&L less what the remaining quantity is carried at. */
  function Book(acc: Acc): real {
    acc.realized - Avg(acc) * acc.qty
  }

  /** By how much an entry of `d` at `p` breaks the ledger, at average `A` over volume `S`. */
  function EntryBreak(A: real, S: real, q: real, d: real, p: real): real {
    if S + Abs(d) == 0.0 then 0.0 else (p - A) * (d * S - Abs(d) * q) / (S + Abs(d))
  }

  function ExitBreak(A: real, q: real, d: real, p: real): real {
    if Alongside(q, d) then 2.0 * ((p - A) * d) else if q == 0.0 then (p - A) * d else 0.0
  }

  /** By how much a step breaks the ledger. */
  function Defect(acc: Acc, row: PositionEvent): real {
    if Qty(row) == 0.0 then 0.0
    else if IsEntry(row.eventType) && row.price.Some? then
      EntryBreak(Avg(acc), acc.absEntry, acc.qty, Qty(row), row.price.value)
    else if IsExit(row.eventType) && row.price.Some? then
      if acc.avg.None? then row.price.value * Qty(row) else ExitBreak(Avg(acc), acc.qty, Qty(row), row.price.value)
    else -(Avg(acc) * Qty(row))
  }

  /** What the running average means: the volume-weighted price of all priced entries so far. */
  predicate AverageInv(acc: Acc) {
    && acc.absEntry >= 0.0
    && (acc.avg.Some? <==> acc.absEntry > 0.0)
    && (acc.avg.Some? ==> acc.avg.value * acc.absEntry == acc.weighted)
    && (acc.avg.None? ==> acc.weighted == 0.0)
  }

  lemma StepKeepsAverage(acc: Acc, row: PositionEvent)
    requires AverageInv(acc) && Step(acc, row).Ok?
    ensures AverageInv(Step(acc, row).value)
    ensures Step(acc, row).value.avg == EntryAverage(acc, row).avg
  {
    if IsEntry(row.eventType) && row.price.Some? {
      EntryKeepsAverage(acc, row.price.value, Qty(row));
    }
  }

  lemma EntryKeepsAverage(acc: Acc, p: real, d: real)
    requires AverageInv(acc)
    ensures var weighted, volume := acc.weighted + Notional(p, d), acc.absEntry + Abs(d);
            AverageInv(acc.(weighted := weighted, absEntry := volume, avg := if volume > 0.0 then Some(AverageOf(weighted, volume)) else acc.avg))
  {
    var weighted, volume := acc.weighted + Notional(p, d), acc.absEntry + Abs(d);
    if volume > 0.0 {
      RealDivTimes(weighted, volume);
    } else {
      assert d == 0.0 && p * Abs(d) == 0.0;
    }
  }

  /** An entry of size `d` at `p` joins an average `A` over volume `S`. */
  lemma EntryDefect(A: real, S: real, q: real, d: real, D: real, p: real, next: real)
    requires S + D > 0.0 && next * (S + D) == A * S + p * D
    ensures -(next * (q + d)) + A * q + p * d == (p - A) * (d * S - D * q) / (S + D)
  {
    var T, gain, shift := S + D, p - A, next - A;
    assert shift * T == gain * D by {
      assert shift * T == next * T - A * T;
      assert A * T == A * S + A * D;
      assert gain * D == p * D - A * D;
    }
    var lhs := gain * d - shift * (q + d);
    assert lhs == -(next * (q + d)) + A * q + p * d by {
      assert gain * d == p * d - A * d;
      assert shift * (q + d) == next * (q + d) - A * (q + d);
      assert A * (q + d) == A * q + A * d;
    }
    assert lhs * T == gain * (d * S - D * q) by {
      assert lhs * T == gain * d * T - shift * (q + d) * T;
      assert shift * (q + d) * T == (shift * T) * (q + d);
      assert (gain * D) * (q + d) == gain * (D * (q + d));
      assert gain * d * T == gain * (d * T);
      assert d * T - D * (q + d) == d * S - D * q by {
        assert d * T == d * S + d * D;
        assert D * (q + d) == D * q + D * d;
      }
      assert gain * (d * T) - gain * (D * (q + d)) == gain * (d * T - D * (q + d));
    }
    RealQuotient(lhs, gain * (d * S - D * q), T);
  }

  lemma EntryStep(acc: Acc, row: PositionEvent)
    requires Step(acc, row).Ok? && IsEntry(row.eventType) && row.price.Some? && Qty(row) != 0.0 && acc.absEntry >= 0.0
    ensures var next := Step(acc, row).value;
            && next.qty == acc.qty + Qty(row) && next.realized == acc.realized
            && next.avg == Some(AverageOf(acc.weighted + Notional(row.price.value, Qty(row)), acc.absEntry + Abs(Qty(row))))
  {
  }

  lemma EntryBook(A: real, S: real, W: real, q: real, d: real, p: real, realized: real, next: real)
    requires S >= 0.0 && d != 0.0 && A * S == W && next == AverageOf(W + Notional(p, d), S + Abs(d))
    ensures realized - next * (q + d) == realized - A * q - p * d + EntryBreak(A, S, q, d, p)
  {
    RealDivTimes(W + p * Abs(d), S + Abs(d));
    EntryDefect(A, S, q, d, Abs(d), p, next);
  }

  lemma AverageTimesVolume(acc: Acc)
    requires AverageInv(acc)
    ensures Avg(acc) * acc.absEntry == acc.weighted
  {
  }

  lemma EntryBooks(acc: Acc, row: PositionEvent, next: Acc, A: real, B: real)
    requires AverageInv(acc) && IsEntry(row.eventType) && row.price.Some? && Qty(row) != 0.0
    requires next.qty == acc.qty + Qty(row) && next.realized == acc.realized && A == Avg(acc) && B == Avg(next)
    requires next.avg == Some(AverageOf(acc.weighted + Notional(row.price.value, Qty(row)), acc.absEntry + Abs(Qty(row))))
    ensures next.realized - B * next.qty == acc.realized - A * acc.qty + Cash(row) + Defect(acc, row)
  {
    AverageTimesVolume(acc);
    EntryBook(A, acc.absEntry, acc.weighted, acc.qty, Qty(row), row.price.value, acc.realized, B);
  }

  lemma EntryLedger(acc: Acc, row: PositionEvent)
    requires AverageInv(acc) && Step(acc, row).Ok? && IsEntry(row.eventType) && row.price.Some? && Qty(row) != 0.0
    ensures Book(Step(acc, row).value) == Book(acc) + Cash(row) + Defect(acc, row)
  {
    EntryStep(acc, row);
    EntryBooks(acc, row, Step(acc, row).value, Avg(acc), Avg(Step(acc, row).value));
  }

  lemma ExitStep(acc: Acc, row: PositionEvent)
    requires Step(acc, row).Ok? && IsExit(row.eventType) && row.price.Some? && acc.avg.Some?
    ensures var next := Step(acc, row).value;
            && next.qty == acc.qty + Qty(row) && next.avg == acc.avg
            && next.realized == acc.realized + (Gross(acc.avg.value, acc.qty, Qty(row), row.price.value) - Cost(acc, row))
  {
  }

  /** The sign of a notional. */
  lemma NotionalOf(g: real, d: real)
    ensures Notional(g, d) == if d < 0.0 then -(g * d) else g * d
  {
    if d < 0.0 {
      assert Abs(d) == -d;
    } else {
      assert Abs(d) == d;
    }
  }

  lemma NotionalNegates(g: real, d: real)
    ensures Notional(-g, d) == -Notional(g, d)
  {
    NotionalOf(g, d);
    NotionalOf(-g, d);
    assert (-g) * d == -(g * d);
  }

  /** What an exit of `d` at `p` realizes is its cash over the average, plus the break. */
  lemma GrossIs(A: real, q: real, d: real, p: real)
    requires d != 0.0
    ensures Gross(A, q, d, p) == -((p - A) * d) + ExitBreak(A, q, d, p)
  {
    NotionalOf(p - A, d);
    NotionalNegates(p - A, d);
    assert -(p - A) == A - p;
  }

  lemma ExitBook(A: real, q: real, d: real, p: real, realized: real, cost: real)
    ensures realized + (Gross(A, q, d, p) - cost) - A * (q + d)
         == realized - A * q - p * d - cost + (if d == 0.0 then 0.0 else ExitBreak(A, q, d, p))
  {
    Spread(p, A, d);
    Spread(q, -d, A);
    if d == 0.0 {
      NotionalOf(p - A, d);
      NotionalOf(A - p, d);
    } else {
      GrossIs(A, q, d, p);
    }
  }

  lemma ExitBooks(acc: Acc, row: PositionEvent, next: Acc)
    requires IsExit(row.eventType) && row.price.Some? && acc.avg.Some?
    requires next.qty == acc.qty + Qty(row) && next.avg == acc.avg
    requires next.realized == acc.realized + (Gross(acc.avg.value, acc.qty, Qty(row), row.price.value) - Cost(acc, row))
    ensures Book(next) == Book(acc) + Cash(row) - Cost(acc, row) + Defect(acc, row)
  {
    ExitBook(acc.avg.value, acc.qty, Qty(row), row.price.value, acc.realized, Cost(acc, row));
  }

  lemma ExitLedger(acc: Acc, row: PositionEvent)
    requires AverageInv(acc) && Step(acc, row).Ok? && IsExit(row.eventType) && row.price.Some? && acc.avg.Some?
    ensures Book(Step(acc, row).value) == Book(acc) + Cash(row) - Cost(acc, row) + Defect(acc, row)
  {
    ExitStep(acc, row);
    ExitBooks(acc, row, Step(acc, row).value);
  }

  lemma IdleEntryLedger(acc: Acc, row: PositionEvent)
    requires AverageInv(acc) && Step(acc, row).Ok? && IsEntry(row.eventType) && row.price.Some? && Qty(row) == 0.0
    ensures Book(Step(acc, row).value) == Book(acc) + Cash(row)
  {
    var next, p := Step(acc, row).value, row.price.value;
    assert p * Qty(row) == 0.0 && p * Abs(Qty(row)) == 0.0;
    if acc.avg.Some? {
      RealQuotient(acc.avg.value, acc.weighted, acc.absEntry);
    }
    assert next.avg == acc.avg && next.qty == acc.qty && next.realized == acc.realized;
  }

  /** Everything else moves quantity, and perhaps cash, at an unchanged average. */
  lemma OtherLedger(acc: Acc, row: PositionEvent)
    requires Step(acc, row).Ok?
    requires row.price.None? || !IsEntry(row.eventType)
    requires row.price.None? || !IsExit(row.eventType) || acc.avg.None?
    ensures Book(Step(acc, row).value) == Book(acc) + Cash(row) - Cost(acc, row) + Defect(acc, row)
  {
    var next, d := Step(acc, row).value, Qty(row);
    assert next.avg == acc.avg && next.realized == acc.realized && next.qty == acc.qty + d;
    Spread(acc.qty, -d, Avg(acc));
    assert d == 0.0 ==> Avg(acc) * d == 0.0;
    assert row.price.Some? && d == 0.0 ==> row.price.value * d == 0.0;
  }

  lemma Spread(x: real, y: real, t: real)
    ensures (x - y) * t == x * t - y * t == t * (x - y)
  {
  }

  /** The ledger of one accepted event, whatever the event. */
  lemma StepLedger(acc: Acc, row: PositionEvent)
    requires AverageInv(acc) && Step(acc, row).Ok?
    ensures Book(Step(acc, row).value) == Book(acc) + Cash(row) - Cost(acc, row) + Defect(acc, row)
  {
    if row.price.Some? && IsEntry(row.eventType) {
      if Qty(row) != 0.0 {
        EntryLedger(acc, row);
      } else {
        IdleEntryLedger(acc, row);
      }
    } else if row.price.Some? && IsExit(row.eventType) && acc.avg.Some? {
      ExitLedger(acc, row);
    } else {
      OtherLedger(acc, row);
    }
  }

  function Defects(acc: Acc, rows: seq<PositionEvent>): real
    decreases |rows|
  {
    if rows == [] || Step(acc, rows[0]).Err? then 0.0
    else Defect(acc, rows[0]) + Defects(Step(acc, rows[0]).value, rows[1..])
  }

  function Costs(acc: Acc, rows: seq<PositionEvent>): real
    decreases |rows|
  {
    if rows == [] || Step(acc, rows[0]).Err? then 0.0
    else Cost(acc, rows[0]) + Costs(Step(acc, rows[0]).value, rows[1..])
  }

  function CashFlow(rows: seq<PositionEvent>): real {
    if rows == [] then 0.0 else Cash(rows[0]) + CashFlow(rows[1..])
  }

  lemma {:induction false} FoldLedger(acc: Acc, rows: seq<PositionEvent>)
    requires AverageInv(acc) && Fold(acc, rows).Ok?
    ensures AverageInv(Fold(acc, rows).value)
    ensures Book(Fold(acc, rows).value) == Book(acc) + CashFlow(rows) - Costs(acc, rows) + Defects(acc, rows)
    decreases |rows|
  {
    if rows != [] {
      StepKeepsAverage(acc, rows[0]);
      StepLedger(acc, rows[0]);
      FoldLedger(Step(acc, rows[0]).value, rows[1..]);
    }
  }

  function ValueAt(acc: Acc, m: real): real {
    acc.realized + (m - Avg(acc)) * acc.qty
  }

  function LedgerAt(acc: Acc, rows: seq<PositionEvent>, qty: real, m: real): real {
    CashFlow(rows) - Costs(acc, rows) + m * qty
  }

  /** Nothing has happened yet; `START` is such an accumulator. */
  predicate Unused(acc: Acc) {
    acc.qty == 0.0 && acc.weighted == 0.0 && acc.absEntry == 0.0 && acc.realized == 0.0 && acc.avg.None?
  }

  /** The identity behind every P&L figure: for any accepted events of a position and any mark,
      realized P&L plus the marked remainder is cash flow less exit costs plus the value of the
      remainder, plus the defects of the steps. */
  lemma LedgerIdentity(start: Acc, rows: seq<PositionEvent>, m: real)
    requires Unused(start) && Fold(start, rows).Ok?
    ensures var end := Fold(start, rows).value;
            ValueAt(end, m) == LedgerAt(start, rows, end.qty, m) + Defects(start, rows)
  {
    FoldLedger(start, rows);
    var end := Fold(start, rows).value;
    Spread(m, Avg(end), end.qty);
  }

  /** Realized P&L plus the mark of the rest is the cash that came back plus what the rest is
      worth, less exit costs. */
  predicate LedgerHolds(start: Acc, rows: seq<PositionEvent>, m: real) {
    Fold(start, rows).Ok? && ValueAt(Fold(start, rows).value, m) == LedgerAt(start, rows, Fold(start, rows).value.qty, m)
  }

  /** So the ledger holds, at every mark or at none, exactly when the defects cancel. */
  lemma LedgerHoldsIff(start: Acc, rows: seq<PositionEvent>, m: real)
    requires Unused(start) && Fold(start, rows).Ok?
    ensures LedgerHolds(start, rows, m) <==> Defects(start, rows) == 0.0
  {
    LedgerIdentity(start, rows, m);
  }

  /** Quantity held and entry volume agree, in the direction of `d`. */
  predicate NothingExited(S: real, q: real, d: real) {
    d * S == Abs(d) * q
  }

  lemma EntryBreakIff(A: real, S: real, q: real, d: real, p: real)
    requires S >= 0.0 && d != 0.0
    ensures EntryBreak(A, S, q, d, p) == 0.0 <==> p == A || NothingExited(S, q, d)
  {
    ZeroQuotientIff(p - A, d * S - Abs(d) * q, S + Abs(d));
  }

  /** A priced entry keeps the ledger exactly when it is at the running average, or when the
      quantity still held is the whole entry volume in the entry's direction - as it is as
      long as no exit has come first. */
  lemma EntryKeepsLedgerIff(acc: Acc, row: PositionEvent)
    requires AverageInv(acc) && IsEntry(row.eventType) && row.price.Some? && Qty(row) != 0.0
    ensures Defect(acc, row) == 0.0 <==>
              row.price.value == Avg(acc) || NothingExited(acc.absEntry, acc.qty, Qty(row))
  {
    EntryBreakIff(Avg(acc), acc.absEntry, acc.qty, Qty(row), row.price.value);
  }

  lemma ZeroProductIff(g: real, w: real)
    ensures g * w == 0.0 <==> g == 0.0 || w == 0.0
  {
    if g > 0.0 && w > 0.0 {
      assert g * w > 0.0;
    } else if g > 0.0 && w < 0.0 {
      assert g * -w > 0.0;
    } else if g < 0.0 && w > 0.0 {
      assert -g * w > 0.0;
    } else if g < 0.0 && w < 0.0 {
      assert -g * -w > 0.0;
    }
  }

  lemma ZeroQuotientIff(g: real, w: real, t: real)
    requires t > 0.0
    ensures g * w / t == 0.0 <==> g == 0.0 || w == 0.0
  {
    RealDivTimes(g * w, t);
    ZeroProductIff(g, w);
    ZeroProductIff(g * w / t, t);
  }

  lemma ExitBreakIff(A: real, q: real, d: real, p: real)
    requires d != 0.0
    ensures ExitBreak(A, q, d, p) == 0.0 <==> p == A || Facing(q, d)
  {
    ZeroProductIff(p - A, d);
  }

  /** A priced exit keeps the ledger unless it is at a price other than the average and does not
      face the exposure - which only an exit smaller than the tolerance may do. */
  lemma ExitKeepsLedgerIff(acc: Acc, row: PositionEvent)
    requires IsExit(row.eventType) && row.price.Some? && acc.avg.Some? && Step(acc, row).Ok?
    ensures Defect(acc, row) == 0.0 <==>
              row.price.value == Avg(acc) || Qty(row) == 0.0 || Facing(acc.qty, Qty(row))
    ensures Defect(acc, row) != 0.0 ==> Abs(Qty(row)) < EPS
  {
    if Qty(row) != 0.0 {
      ExitBreakIff(Avg(acc), acc.qty, Qty(row), row.price.value);
    }
    RefusedIff(acc, row);
  }

  // ---- entries in one direction, then exits ----

  datatype Direction = Buying | Selling

  predicate Goes(d: real, dir: Direction) {
    if dir.Buying? then d > 0.0 else d < 0.0
  }

  /** Priced entries in one direction; rows without quantity may sit among them. */
  predicate BuildsUp(rows: seq<PositionEvent>, dir: Direction) {
    forall i :: 0 <= i < |rows| ==>
      Qty(rows[i]) == 0.0 || (IsEntry(rows[i].eventType) && rows[i].price.Some? && Goes(Qty(rows[i]), dir))
  }

  /** The whole entry volume is still held. */
  predicate FullyHeld(acc: Acc, dir: Direction) {
    acc.qty == if dir.Buying? then acc.absEntry else -acc.absEntry
  }

  /** Priced exits from a quantity `held`; one smaller than the tolerance has to face it.  Rows
      without quantity may sit among them. */
  predicate WindsDown(held: real, rows: seq<PositionEvent>)
    decreases |rows|
  {
    rows == [] || (Exits(held, rows[0]) && WindsDown(held + Qty(rows[0]), rows[1..]))
  }

  predicate Exits(held: real, row: PositionEvent) {
    Qty(row) == 0.0
    || (IsExit(row.eventType) && row.price.Some? && (Abs(Qty(row)) >= EPS || Facing(held, Qty(row))))
  }

  lemma BuildStep(acc: Acc, row: PositionEvent, dir: Direction)
    requires AverageInv(acc) && FullyHeld(acc, dir) && Step(acc, row).Ok?
    requires BuildsUp([row], dir)
    ensures Defect(acc, row) == 0.0
    ensures FullyHeld(Step(acc, row).value, dir)
  {
    assert Qty([row][0]) == Qty(row);
    if Qty(row) != 0.0 {
      assert NothingExited(acc.absEntry, acc.qty, Qty(row));
      EntryKeepsLedgerIff(acc, row);
    }
  }

  lemma {:induction false} BuildUpIsExact(acc: Acc, rows: seq<PositionEvent>, dir: Direction)
    requires AverageInv(acc) && FullyHeld(acc, dir)
    requires BuildsUp(rows, dir) && Fold(acc, rows).Ok?
    ensures Defects(acc, rows) == 0.0
    ensures AverageInv(Fold(acc, rows).value) && FullyHeld(Fold(acc, rows).value, dir)
    decreases |rows|
  {
    if rows != [] {
      assert Step(acc, rows[0]).Ok?;
      var next := Step(acc, rows[0]).value;
      assert BuildsUp([rows[0]], dir);
      BuildStep(acc, rows[0], dir);
      StepKeepsAverage(acc, rows[0]);
      assert BuildsUp(rows[1..], dir);
      BuildUpIsExact(next, rows[1..], dir);
    }
  }

  lemma WindStep(acc: Acc, row: PositionEvent)
    requires AverageInv(acc) && (acc.avg.None? ==> acc.qty == 0.0) && Step(acc, row).Ok?
    requires Exits(acc.qty, row)
    ensures Defect(acc, row) == 0.0
    ensures Step(acc, row).value.avg.None? ==> Step(acc, row).value.qty == 0.0
    ensures Step(acc, row).value.qty == acc.qty + Qty(row)
  {
    StepKeepsAverage(acc, row);
    if Qty(row) != 0.0 {
      assert ExitRefusal(acc.qty, row).None?;
      assert acc.avg.Some?;
    }
  }

  lemma {:induction false} WindDownIsExact(acc: Acc, rows: seq<PositionEvent>)
    requires AverageInv(acc) && (acc.avg.None? ==> acc.qty == 0.0)
    requires WindsDown(acc.qty, rows) && Fold(acc, rows).Ok?
    ensures Defects(acc, rows) == 0.0
    decreases |rows|
  {
    if rows != [] {
      WindStep(acc, rows[0]);
      StepKeepsAverage(acc, rows[0]);
      WindDownIsExact(Step(acc, rows[0]).value, rows[1..]);
    }
  }

  lemma {:induction false} FoldSplit(acc: Acc, a: seq<PositionEvent>, b: seq<PositionEvent>)
    requires Fold(acc, a + b).Ok?
    ensures Fold(acc, a).Ok? && Fold(acc, a + b) == Fold(Fold(acc, a).value, b)
    ensures Defects(acc, a + b) == Defects(acc, a) + Defects(Fold(acc, a).value, b)
    decreases |a|
  {
    if a == [] {
      assert a + b == b;
    } else {
      assert (a + b)[0] == a[0] && (a + b)[1..] == a[1..] + b;
      FoldSplit(Step(acc, a[0]).value, a[1..], b);
    }
  }

  /** Entries in one direction, then exits from what they built up. */
  predicate OneRound(entries: seq<PositionEvent>, exits: seq<PositionEvent>, dir: Direction) {
    BuildsUp(entries, dir) && WindsDown(SumQty(entries), exits)
  }

  lemma OneRoundIsExact(start: Acc, entries: seq<PositionEvent>, exits: seq<PositionEvent>, dir: Direction)
    requires Unused(start) && OneRound(entries, exits, dir) && Fold(start, entries + exits).Ok?
    ensures Defects(start, entries + exits) == 0.0
  {
    FoldSplit(start, entries, exits);
    BuildUpIsExact(start, entries, dir);
    FoldQty(start, entries);
    WindDownIsExact(Fold(start, entries).value, exits);
  }

  /** P&L conservation.  One round keeps the ledger at every mark. */
  lemma RoundKeepsLedger(start: Acc, entries: seq<PositionEvent>, exits: seq<PositionEvent>, dir: Direction, m: real)
    requires Unused(start) && OneRound(entries, exits, dir) && Fold(start, entries + exits).Ok?
    ensures LedgerHolds(start, entries + exits, m)
    ensures Fold(start, entries + exits).value.qty == SumQty(entries + exits)
  {
    OneRoundIsExact(start, entries, exits, dir);
    LedgerHoldsIff(start, entries + exits, m);
    FoldQty(start, entries + exits);
  }

  // ---- the stored row ----

  /** While the position is open and marked, realized plus unrealized P&L is the signed cash flow,
      less exit costs, plus the remaining quantity at the mark. */
  predicate OpenFigures(p: Position, start: Acc, rows: seq<PositionEvent>, snapshots: seq<Snapshot>) {
    p.unrealizedPnl.Some? && p.side != "no" ==>
      && LatestPrice(snapshots, p.instrumentId).Some?
      && OrZero(p.realizedPnl) + p.unrealizedPnl.value
         == LedgerAt(start, rows, SumQty(rows), LatestPrice(snapshots, p.instrumentId).value)
  }

  /** Once flat, realized P&L is the cash flow less costs. */
  predicate FlatFigures(p: Position, start: Acc, rows: seq<PositionEvent>) {
    SumQty(rows) == 0.0 ==> OrZero(p.realizedPnl) == CashFlow(rows) - Costs(start, rows)
  }

  /** What the stored row says about the accumulator it came from. */
  lemma StoredFigures(id: string, rows: seq<PositionEvent>, acc: Acc, kindSide: (string, string), snapshots: seq<Snapshot>)
    requires rows != []
    ensures var p := RowFrom(id, rows[0], rows[|rows| - 1], acc, kindSide, snapshots);
            && OrZero(p.realizedPnl) == acc.realized
            && (p.unrealizedPnl.Some? && p.side != "no" ==>
                  && LatestPrice(snapshots, p.instrumentId).Some?
                  && OrZero(p.realizedPnl) + p.unrealizedPnl.value == ValueAt(acc, LatestPrice(snapshots, p.instrumentId).value))
  {
  }

  lemma OpenRound(id: string, entries: seq<PositionEvent>, exits: seq<PositionEvent>, dir: Direction, start: Acc,
                  kindSide: (string, string), snapshots: seq<Snapshot>)
    requires Unused(start) && OneRound(entries, exits, dir) && entries != [] && Fold(start, entries + exits).Ok?
    ensures var rows := entries + exits;
            OpenFigures(RowFrom(id, rows[0], rows[|rows| - 1], Fold(start, rows).value, kindSide, snapshots), start, rows, snapshots)
  {
    var rows := entries + exits;
    StoredFigures(id, rows, Fold(start, rows).value, kindSide, snapshots);
    RoundKeepsLedger(start, entries, exits, dir, OrZero(LatestPrice(snapshots, rows[0].instrumentId)));
  }

  lemma FlatRound(id: string, entries: seq<PositionEvent>, exits: seq<PositionEvent>, dir: Direction, start: Acc,
                  kindSide: (string, string), snapshots: seq<Snapshot>)
    requires Unused(start) && OneRound(entries, exits, dir) && entries != [] && Fold(start, entries + exits).Ok?
    ensures var rows := entries + exits;
            FlatFigures(RowFrom(id, rows[0], rows[|rows| - 1], Fold(start, rows).value, kindSide, snapshots), start, rows)
  {
    var rows := entries + exits;
    StoredFigures(id, rows, Fold(start, rows).value, kindSide, snapshots);
    RoundKeepsLedger(start, entries, exits, dir, 0.0);
    if SumQty(rows) == 0.0 {
      FlatValue(start, Fold(start, rows).value, rows);
    }
  }

  lemma FlatValue(start: Acc, end: Acc, rows: seq<PositionEvent>)
    requires end.qty == 0.0
    ensures ValueAt(end, 0.0) == end.realized
    ensures LedgerAt(start, rows, end.qty, 0.0) == CashFlow(rows) - Costs(start, rows)
  {
  }

  /** The stored figures of a position that did one round. */
  lemma Conservation(id: string, entries: seq<PositionEvent>, exits: seq<PositionEvent>, dir: Direction,
                     decisions: Decisions, snapshots: seq<Snapshot>)
    requires OneRound(entries, exits, dir) && entries != []
    requires Accumulate(id, entries + exits, decisions, snapshots).Ok?
    ensures OpenFigures(Accumulate(id, entries + exits, decisions, snapshots).value, START, entries + exits, snapshots)
    ensures FlatFigures(Accumulate(id, entries + exits, decisions, snapshots).value, START, entries + exits)
  {
    OpenRound(id, entries, exits, dir, START, KindAndSide(entries + exits, decisions), snapshots);
    FlatRound(id, entries, exits, dir, START, KindAndSide(entries + exits, decisions), snapshots);
  }

  // ---- averages and shortfalls, from the events ----

  predicate IsPricedEntry(row: PositionEvent) {
    IsEntry(row.eventType) && row.price.Some?
  }

  function EntryVolume(rows: seq<PositionEvent>): real {
    if rows == [] then 0.0 else (if IsPricedEntry(rows[0]) then Abs(Qty(rows[0])) else 0.0) + EntryVolume(rows[1..])
  }

  function EntryValue(rows: seq<PositionEvent>): real {
    if rows == [] then 0.0
    else (if IsPricedEntry(rows[0]) then Notional(rows[0].price.value, Qty(rows[0])) else 0.0) + EntryValue(rows[1..])
  }

  /** The volume-weighted price of all priced entries. */
  function EntriesAverage(rows: seq<PositionEvent>): real {
    if EntryVolume(rows) > 0.0 then AverageOf(EntryValue(rows), EntryVolume(rows)) else 0.0
  }

  lemma EntrySums(acc: Acc, row: PositionEvent)
    requires Step(acc, row).Ok?
    ensures var next := Step(acc, row).value;
            next.weighted == acc.weighted + EntryValue([row]) && next.absEntry == acc.absEntry + EntryVolume([row])
  {
    assert [row][1..] == [];
  }

  lemma {:induction false} FoldSums(acc: Acc, rows: seq<PositionEvent>)
    requires Fold(acc, rows).Ok?
    ensures Fold(acc, rows).value.weighted == acc.weighted + EntryValue(rows)
    ensures Fold(acc, rows).value.absEntry == acc.absEntry + EntryVolume(rows)
    decreases |rows|
  {
    if rows != [] {
      EntrySums(acc, rows[0]);
      assert [rows[0]][1..] == [];
      FoldSums(Step(acc, rows[0]).value, rows[1..]);
    }
  }

  lemma AverageFromSums(acc: Acc)
    requires AverageInv(acc)
    ensures Avg(acc) == if acc.absEntry > 0.0 then AverageOf(acc.weighted, acc.absEntry) else 0.0
  {
    if acc.absEntry > 0.0 {
      RealQuotient(acc.avg.value, acc.weighted, acc.absEntry);
    }
  }

  /** The average the projection stores, from the events alone. */
  lemma AverageIsEntries(start: Acc, rows: seq<PositionEvent>)
    requires Unused(start) && Fold(start, rows).Ok?
    ensures Avg(Fold(start, rows).value) == EntriesAverage(rows)
  {
    FoldLedger(start, rows);
    FoldSums(start, rows);
    AverageFromSums(Fold(start, rows).value);
  }

  lemma FoldAverage(start: Acc, rows: seq<PositionEvent>)
    requires Unused(start) && Fold(start, rows).Ok?
    ensures Fold(start, rows).value.avg == if EntryVolume(rows) > 0.0 then Some(EntriesAverage(rows)) else None
    ensures Fold(start, rows).value.qty == SumQty(rows)
  {
    FoldLedger(start, rows);
    FoldSums(start, rows);
    FoldQty(start, rows);
    AverageIsEntries(start, rows);
  }

  /** The value of a quantity `q` entered at `A`, with YES at `m`: a `no` position is worth the
      complement, whatever the sign of its quantity. */
  predicate IsMarked(mark: real, side: string, m: real, A: real, q: real) {
    mark == if side == "no" then (1.0 - m - A) * Abs(q) else (m - A) * q
  }

  lemma MarkIs(side: string, avg: Option<real>, q: real, price: Option<real>)
    ensures var mark := MarkOf(side, avg, q, price);
            && (mark.Some? <==> Abs(q) >= 0.000000001 && avg.Some? && price.Some?)
            && (mark.Some? ==> IsMarked(mark.value, side, price.value, avg.value, q))
  {
  }

  lemma RowFigures(id: string, first: PositionEvent, last: PositionEvent, acc: Acc, kindSide: (string, string), snapshots: seq<Snapshot>)
    ensures var p := RowFrom(id, first, last, acc, kindSide, snapshots);
            && p.avgEntryPrice == acc.avg && p.side == kindSide.1
            && p.unrealizedPnl == MarkOf(p.side, acc.avg, acc.qty, LatestPrice(snapshots, first.instrumentId))
            && p.realizedPnl == (if acc.realized == 0.0 then None else Some(acc.realized))
  {
  }

  /** When a stored row has an average and a mark, and which. */
  lemma FiguresAre(id: string, rows: seq<PositionEvent>, decisions: Decisions, snapshots: seq<Snapshot>)
    requires rows != [] && Accumulate(id, rows, decisions, snapshots).Ok?
    ensures var p, price := Accumulate(id, rows, decisions, snapshots).value, LatestPrice(snapshots, rows[0].instrumentId);
            && p.avgEntryPrice == (if EntryVolume(rows) > 0.0 then Some(EntriesAverage(rows)) else None)
            && (p.unrealizedPnl.Some? <==> Abs(SumQty(rows)) >= 0.000000001 && p.avgEntryPrice.Some? && price.Some?)
            && (p.unrealizedPnl.Some? ==> IsMarked(p.unrealizedPnl.value, p.side, price.value, p.avgEntryPrice.value, SumQty(rows)))
            && p.realizedPnl == (if Fold(START, rows).value.realized == 0.0 then None else Some(Fold(START, rows).value.realized))
  {
    var acc := Fold(START, rows).value;
    FoldAverage(START, rows);
    RowFigures(id, rows[0], rows[|rows| - 1], acc, KindAndSide(rows, decisions), snapshots);
    MarkIs(KindAndSide(rows, decisions).1, acc.avg, acc.qty, LatestPrice(snapshots, rows[0].instrumentId));
  }

  lemma {:induction false} MovesAppend(a: seq<PositionEvent>, b: seq<PositionEvent>)
    ensures SumQty(a + b) == SumQty(a) + SumQty(b)
    ensures CashFlow(a + b) == CashFlow(a) + CashFlow(b)
  {
    if a == [] {
      assert a + b == b;
    } else {
      assert (a + b)[0] == a[0] && (a + b)[1..] == a[1..] + b;
      MovesAppend(a[1..], b);
    }
  }

  lemma {:induction false} EntriesAppend(a: seq<PositionEvent>, b: seq<PositionEvent>)
    ensures EntryVolume(a + b) == EntryVolume(a) + EntryVolume(b)
    ensures EntryValue(a + b) == EntryValue(a) + EntryValue(b)
  {
    if a == [] {
      assert a + b == b;
    } else {
      assert (a + b)[0] == a[0] && (a + b)[1..] == a[1..] + b;
      EntriesAppend(a[1..], b);
    }
  }

  /** What the exits brought in against the average `A`, each signed by its quantity. */
  function Shortfall(A: real, exits: seq<PositionEvent>): real {
    if exits == [] then 0.0
    else (if exits[0].price.Some? then (A - exits[0].price.value) * Qty(exits[0]) else 0.0) + Shortfall(A, exits[1..])
  }

  /** Quantity and cash, taken at the price `A`, come to `left`. */
  predicate Balances(A: real, qty: real, cash: real, left: real) {
    A * qty + cash == left
  }

  lemma ShortfallStep(A: real, held: real, row: PositionEvent)
    requires Exits(held, row)
    ensures A * Qty(row) + Cash(row) == if row.price.Some? then (A - row.price.value) * Qty(row) else 0.0
  {
    if Qty(row) != 0.0 {
      Spread(A, row.price.value, Qty(row));
    } else {
      assert A * Qty(row) == 0.0;
      if row.price.Some? {
        assert row.price.value * Qty(row) == 0.0 && (A - row.price.value) * Qty(row) == 0.0;
      }
    }
  }

  lemma NoEntries(held: real, row: PositionEvent)
    requires Exits(held, row) && IsPricedEntry(row)
    ensures Abs(Qty(row)) == 0.0 && Notional(row.price.value, Qty(row)) == 0.0
  {
  }

  lemma {:induction false} ExitsShortfall(A: real, held: real, exits: seq<PositionEvent>)
    requires WindsDown(held, exits)
    ensures Balances(A, SumQty(exits), CashFlow(exits), Shortfall(A, exits))
    ensures EntryVolume(exits) == 0.0 && EntryValue(exits) == 0.0
    decreases |exits|
  {
    if exits != [] {
      ExitsShortfall(A, held + Qty(exits[0]), exits[1..]);
      ShortfallStep(A, held, exits[0]);
      Spread(Qty(exits[0]), -SumQty(exits[1..]), A);
      if IsPricedEntry(exits[0]) {
        NoEntries(held, exits[0]);
      }
    }
  }

  lemma EntrySigns(row: PositionEvent, dir: Direction)
    requires BuildsUp([row], dir)
    ensures Qty(row) == Signed(dir, EntryVolume([row])) && Cash(row) == -Signed(dir, EntryValue([row]))
  {
    assert [row][1..] == [] && Qty([row][0]) == Qty(row);
    if IsPricedEntry(row) {
      NotionalOf(row.price.value, Qty(row));
    } else if row.price.Some? {
      assert row.price.value * Qty(row) == 0.0;
    }
  }

  function Signed(dir: Direction, x: real): real {
    if dir.Buying? then x else -x
  }

  lemma {:induction false} EntriesSigned(entries: seq<PositionEvent>, dir: Direction)
    requires BuildsUp(entries, dir)
    ensures SumQty(entries) == Signed(dir, EntryVolume(entries)) && CashFlow(entries) == -Signed(dir, EntryValue(entries))
    ensures EntryVolume(entries) >= 0.0 && (EntryVolume(entries) == 0.0 ==> EntryValue(entries) == 0.0)
  {
    if entries != [] {
      assert BuildsUp([entries[0]], dir);
      assert [entries[0]][1..] == [];
      EntrySigns(entries[0], dir);
      EntriesSigned(entries[1..], dir);
    }
  }

  lemma AverageTimes(value: real, volume: real)
    requires volume > 0.0
    ensures AverageOf(value, volume) * volume == value
  {
    RealDivTimes(value, volume);
  }

  lemma EntriesBalance(entries: seq<PositionEvent>, dir: Direction)
    requires BuildsUp(entries, dir)
    ensures Balances(EntriesAverage(entries), SumQty(entries), CashFlow(entries), 0.0)
  {
    EntriesSigned(entries, dir);
    BalancedAtAverage(EntryValue(entries), EntryVolume(entries), dir);
  }

  lemma BalancedAtAverage(value: real, volume: real, dir: Direction)
    requires volume >= 0.0 && (volume == 0.0 ==> value == 0.0)
    ensures (if volume > 0.0 then AverageOf(value, volume) else 0.0) * Signed(dir, volume) - Signed(dir, value) == 0.0
  {
    if volume > 0.0 {
      var A := AverageOf(value, volume);
      AverageTimes(value, volume);
      assert A * -volume == -(A * volume);
    }
  }

  lemma ExitsKeepAverage(entries: seq<PositionEvent>, exits: seq<PositionEvent>, held: real)
    requires WindsDown(held, exits)
    ensures EntriesAverage(entries + exits) == EntriesAverage(entries)
    ensures EntryVolume(entries + exits) == EntryVolume(entries)
  {
    EntriesAppend(entries, exits);
    ExitsShortfall(0.0, held, exits);
  }

  lemma AddBalances(A: real, x: real, y: real, qty: real, c: real, e: real, cash: real, left: real)
    requires Balances(A, x, c, 0.0) && Balances(A, y, e, left) && qty == x + y && cash == c + e
    ensures Balances(A, qty, cash, left)
  {
  }

  /** Where quantity and cash of the entries cancel, what the exits leave is left. */
  lemma RoundShortfall(entries: seq<PositionEvent>, exits: seq<PositionEvent>, A: real, left: real)
    requires Balances(A, SumQty(entries), CashFlow(entries), 0.0)
    requires Balances(A, SumQty(exits), CashFlow(exits), left)
    ensures Balances(A, SumQty(entries + exits), CashFlow(entries + exits), left)
  {
    MovesAppend(entries, exits);
    AddBalances(A, SumQty(entries), SumQty(exits), SumQty(entries + exits),
                CashFlow(entries), CashFlow(exits), CashFlow(entries + exits), left);
  }

  // ---- `no` positions ----

  /** Realized plus unrealized P&L of a `no` position is its cash, less exit costs, plus what is
      left at the complement of the mark. */
  predicate ComplementBalances(end: Acc, cash: real, costs: real, m: real) {
    end.realized + UnrealizedPnl("no", m, Avg(end), end.qty) == cash - costs + (1.0 - m) * Abs(end.qty)
  }

  lemma ComplementArithmetic(end: Acc, cash: real, costs: real, m: real)
    requires end.qty <= 0.0 && ValueAt(end, 0.0) == cash - costs + 0.0 * end.qty
    ensures ComplementBalances(end, -cash, costs, m) <==> Balances(Avg(end), end.qty, cash, 0.0)
  {
    Spread(0.0, Avg(end), end.qty);
    Spread(1.0 - m, Avg(end), -end.qty);
    assert Avg(end) * -end.qty == -(Avg(end) * end.qty);
  }

  lemma ComplementLedger(start: Acc, rows: seq<PositionEvent>, end: Acc, m: real)
    requires LedgerHolds(start, rows, 0.0) && Fold(start, rows) == Ok(end) && end.qty <= 0.0
    ensures ComplementBalances(end, -CashFlow(rows), Costs(start, rows), m) <==> Balances(Avg(end), end.qty, CashFlow(rows), 0.0)
  {
    ComplementArithmetic(end, CashFlow(rows), Costs(start, rows), m);
  }

  lemma RoundAverage(start: Acc, entries: seq<PositionEvent>, exits: seq<PositionEvent>, dir: Direction)
    requires Unused(start) && OneRound(entries, exits, dir) && Fold(start, entries + exits).Ok?
    ensures Avg(Fold(start, entries + exits).value) == EntriesAverage(entries)
  {
    AverageIsEntries(start, entries + exits);
    ExitsKeepAverage(entries, exits, SumQty(entries));
  }

  lemma BalancesOnce(A: real, qty: real, cash: real, left: real)
    requires Balances(A, qty, cash, left)
    ensures Balances(A, qty, cash, 0.0) <==> left == 0.0
  {
  }

  lemma RoundBalance(start: Acc, entries: seq<PositionEvent>, exits: seq<PositionEvent>, dir: Direction, end: Acc)
    requires Unused(start) && OneRound(entries, exits, dir) && Fold(start, entries + exits) == Ok(end)
    ensures Balances(Avg(end), end.qty, CashFlow(entries + exits), Shortfall(EntriesAverage(entries), exits))
  {
    FoldQty(start, entries + exits);
    RoundAverage(start, entries, exits, dir);
    EntriesBalance(entries, dir);
    ExitsShortfall(EntriesAverage(entries), SumQty(entries), exits);
    RoundShortfall(entries, exits, EntriesAverage(entries), Shortfall(EntriesAverage(entries), exits));
  }

  /** A `no` position is marked at the complement but realizes as a short.  Held as negative
      quantity at NO prices, its cash is the opposite of `CashFlow`; the books then agree with
      that cash exactly when the exits' shortfall against the entries' average is zero, that is
      when they sold at the average price they bought at. */
  lemma ComplementLedgerIff(start: Acc, entries: seq<PositionEvent>, exits: seq<PositionEvent>, m: real)
    requires Unused(start) && OneRound(entries, exits, Selling) && Fold(start, entries + exits).Ok?
    requires SumQty(entries + exits) <= 0.0
    ensures ComplementBalances(Fold(start, entries + exits).value, -CashFlow(entries + exits), Costs(start, entries + exits), m)
       <==> Shortfall(EntriesAverage(entries), exits) == 0.0
  {
    var rows := entries + exits;
    var end := Fold(start, rows).value;
    RoundKeepsLedger(start, entries, exits, Selling, 0.0);
    ComplementLedger(start, rows, end, m);
    RoundBalance(start, entries, exits, Selling, end);
    BalancesOnce(Avg(end), end.qty, CashFlow(rows), Shortfall(EntriesAverage(entries), exits));
  }

  // ---- an add after an exit ----

  lemma OneMoreEntry(start: Acc, before: seq<PositionEvent>, add: PositionEvent)
    requires Fold(start, before).Ok? && IsEntry(add.eventType)
    ensures Fold(start, before + [add]).Ok?
    ensures Defects(start, before + [add]) == Defects(start, before) + Defect(Fold(start, before).value, add)
  {
    FoldAppend(start, before, add);
    assert [add][1..] == [];
    FoldSplit(start, before, [add]);
  }

  /** The average is never reset.  After one round a further priced entry is always accepted, and
      the ledger survives it exactly when its price is the entries' average, or when the quantity
      held is the whole entry volume in its own direction. */
  lemma AddAfterRoundIff(start: Acc, entries: seq<PositionEvent>, exits: seq<PositionEvent>, dir: Direction, add: PositionEvent, m: real)
    requires Unused(start) && OneRound(entries, exits, dir) && Fold(start, entries + exits).Ok?
    requires IsEntry(add.eventType) && add.price.Some? && Qty(add) != 0.0
    ensures Fold(start, entries + exits + [add]).Ok?
    ensures LedgerHolds(start, entries + exits + [add], m)
       <==> add.price.value == EntriesAverage(entries) || NothingExited(EntryVolume(entries), SumQty(entries + exits), Qty(add))
  {
    var before := entries + exits;
    var acc := Fold(start, before).value;
    OneRoundIsExact(start, entries, exits, dir);
    FoldLedger(start, before);
    OneMoreEntry(start, before, add);
    LedgerHoldsIff(start, before + [add], m);
    EntryKeepsLedgerIff(acc, add);
    RoundAverage(start, entries, exits, dir);
    ExitsKeepAverage(entries, exits, SumQty(entries));
    FoldSums(start, before);
    FoldQty(start, before);
  }

  lemma SomeExited(volume: real, exited: real, d: real, dir: Direction)
    requires Goes(d, dir) && exited != 0.0
    ensures !NothingExited(volume, Signed(dir, volume) + exited, d)
  {
    ZeroProductIff(d, exited);
    var q := Signed(dir, volume) + exited;
    assert d * volume - Abs(d) * q == -(Abs(d) * exited) by {
      assert Abs(d) == Signed(dir, d);
      assert Signed(dir, d) * q == d * Signed(dir, q);
    }
    ZeroProductIff(Abs(d), exited);
  }

  /** So once anything was exited, an entry in the same direction - long or short - keeps the
      ledger exactly at the stale average. */
  lemma AddAfterExitIff(start: Acc, entries: seq<PositionEvent>, exits: seq<PositionEvent>, dir: Direction, add: PositionEvent, m: real)
    requires Unused(start) && OneRound(entries, exits, dir) && Fold(start, entries + exits).Ok?
    requires SumQty(exits) != 0.0
    requires IsEntry(add.eventType) && add.price.Some? && Goes(Qty(add), dir)
    ensures Fold(start, entries + exits + [add]).Ok?
    ensures LedgerHolds(start, entries + exits + [add], m) <==> add.price.value == EntriesAverage(entries)
  {
    AddAfterRoundIff(start, entries, exits, dir, add, m);
    MovesAppend(entries, exits);
    EntriesSigned(entries, dir);
    SomeExited(EntryVolume(entries), SumQty(exits), Qty(add), dir);
  }

  // ---- two positions ----

  function Fill(t: EventType, d: real, p: real): PositionEvent {
    PositionEvent("p", "i", t, Some(d), Some(p), None, None, None, None, None, "t", "e", None)
  }

  /** One entry and one exit of at most its size. */
  lemma EntryThenExit(start: Acc, entry: PositionEvent, exit: PositionEvent)
    requires Unused(start) && entry.eventType.Open? && exit.eventType.Reduce?
    requires Facing(Qty(entry), Qty(exit)) && EPS <= Abs(Qty(exit)) <= Abs(Qty(entry))
    ensures Fold(start, [entry] + [exit]).Ok?
  {
    var first := Step(start, entry).value;
    assert first.qty == Qty(entry);
    RefusedIff(first, exit);
    FoldAppend(start, [entry], exit);
    assert [entry][1..] == [];
    assert Fold(start, [entry]) == Ok(first);
  }

  lemma SingleSums(entry: PositionEvent, exit: PositionEvent, A: real)
    requires IsPricedEntry(entry) && exit.price.Some? && Qty(entry) != 0.0
    ensures EntryVolume([entry]) == Abs(Qty(entry)) && EntryValue([entry]) == Notional(entry.price.value, Qty(entry))
    ensures SumQty([entry]) == Qty(entry) && SumQty([exit]) == Qty(exit)
    ensures SumQty([entry] + [exit]) == Qty(entry) + Qty(exit)
    ensures Shortfall(A, [exit]) == (A - exit.price.value) * Qty(exit)
    ensures EntriesAverage([entry]) == entry.price.value
  {
    assert [entry][1..] == [] && [exit][1..] == [];
    MovesAppend([entry], [exit]);
    RealQuotient(entry.price.value, Notional(entry.price.value, Qty(entry)), Abs(Qty(entry)));
  }

  lemma SingleRound(entry: PositionEvent, exit: PositionEvent, dir: Direction)
    requires IsPricedEntry(entry) && Goes(Qty(entry), dir)
    requires IsExit(exit.eventType) && exit.price.Some? && Abs(Qty(exit)) >= EPS
    ensures OneRound([entry], [exit], dir)
  {
    assert [exit][1..] == [];
    assert WindsDown(SumQty([entry]) + Qty(exit), []);
  }

  /** For instance: one NO contract bought at 1/4 and sold at 1/2 earned 1/4, and the books show
      the opposite. */
  lemma ComplementLedgerFails(start: Acc, m: real)
    requires Unused(start)
    ensures var entries, exits := [Fill(Open, -1.0, 0.25)], [Fill(Reduce, 1.0, 0.5)];
            && Fold(start, entries + exits).Ok?
            && !ComplementBalances(Fold(start, entries + exits).value, -CashFlow(entries + exits), Costs(start, entries + exits), m)
  {
    var entry, exit := Fill(Open, -1.0, 0.25), Fill(Reduce, 1.0, 0.5);
    EntryThenExit(start, entry, exit);
    SingleSums(entry, exit, 0.25);
    SingleRound(entry, exit, Selling);
    ComplementLedgerIff(start, [entry], [exit], m);
  }

  /** For instance: two bought at 1, one sold at 3, one bought at 3. */
  lemma AddAfterExitFails(start: Acc, m: real)
    requires Unused(start)
    ensures var rows := [Fill(Open, 2.0, 1.0)] + [Fill(Reduce, -1.0, 3.0)] + [Fill(Add, 1.0, 3.0)];
            Fold(start, rows).Ok? && !LedgerHolds(start, rows, m)
  {
    var entry, exit := Fill(Open, 2.0, 1.0), Fill(Reduce, -1.0, 3.0);
    EntryThenExit(start, entry, exit);
    SingleSums(entry, exit, 1.0);
    SingleRound(entry, exit, Buying);
    AddAfterExitIff(start, [entry], [exit], Buying, Fill(Add, 1.0, 3.0), m);
  }
}
