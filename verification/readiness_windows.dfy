/** Trailing trend windows (src/trade_trace/reports/autonomy_readiness.py).

    Windows tile time backwards from one second past the newest resolution.  Membership is
    decided on ISO text, in which a whole second sorts after its own fractions; that loses some
    resolutions of the oldest window, and which ones is characterised exactly.  The machine's
    time zone is UTC. */
module ReadinessWindows {
  import opened Outcomes
  import opened Orders
  import opened Arithmetic
  import opened CivilTime
  import opened Timestamps

  datatype Window = Window(start: int, end: int)

  const SECOND: int := 1_000_000

  // ---- building the windows ----

  function Earliest(ts: seq<int>): (r: int)
    requires ts != []
    ensures r in ts && forall t :: t in ts ==> r <= t
  {
    if |ts| == 1 then ts[0]
    else
      assert ts == [ts[0]] + ts[1..];
      var rest := Earliest(ts[1..]);
      if ts[0] < rest then ts[0] else rest
  }

  function Latest(ts: seq<int>): (r: int)
    requires ts != []
    ensures r in ts && forall t :: t in ts ==> t <= r
  {
    if |ts| == 1 then ts[0]
    else
      assert ts == [ts[0]] + ts[1..];
      var rest := Latest(ts[1..]);
      if rest < ts[0] then ts[0] else rest
  }

  /** The `k`-th boundary, counted backwards from `end`. */
  function Boundary(end: int, span: int, k: nat): int {
    end - k * span
  }

  lemma BoundaryNext(end: int, span: int, k: nat)
    ensures Boundary(end, span, 0) == end
    ensures Boundary(end, span, k + 1) == Boundary(end, span, k) - span
  {
    assert (k + 1) * span == k * span + span;
  }

  /** How many windows reach back to `earliest`. */
  function Needed(end: int, earliest: int, span: int): nat
    requires span > 0
  {
    if end <= earliest then 0 else (end - earliest + span - 1) / span
  }

  lemma NeededIsLeast(end: int, earliest: int, span: int, k: nat)
    requires span > 0
    ensures Boundary(end, span, k) > earliest <==> k < Needed(end, earliest, span)
  {
    if end > earliest {
      var d := end - earliest;
      var n := (d + span - 1) / span;
      DivBounds(d + span - 1, span);
      MulStrict(span, k, n);
      MulStrict(span, n, k + 1);
      assert k * span == span * k && n * span == span * n;
      assert span * (k + 1) == span * k + span;
    } else {
      assert k * span >= 0;
    }
  }

  /** Contiguous, of equal width, newest first. */
  ghost predicate Tiles(windows: seq<Window>, end: int, span: int) {
    forall k :: 0 <= k < |windows| ==>
      windows[k] == Window(Boundary(end, span, k + 1), Boundary(end, span, k))
  }

  lemma TilesAreContiguous(windows: seq<Window>, end: int, span: int)
    requires Tiles(windows, end, span)
    ensures windows != [] ==> windows[0].end == end
    ensures forall k :: 0 <= k < |windows| ==> windows[k].end - windows[k].start == span
    ensures forall k :: 0 < k < |windows| ==> windows[k].end == windows[k - 1].start
  {
    BoundaryNext(end, span, 0);
    forall k | 0 <= k < |windows| ensures windows[k].end - windows[k].start == span {
      BoundaryNext(end, span, k);
    }
    forall k | 0 < k < |windows| ensures windows[k].end == windows[k - 1].start {
      var j := k - 1;
      assert windows[j] == Window(Boundary(end, span, j + 1), Boundary(end, span, j));
      assert windows[j + 1] == Window(Boundary(end, span, j + 2), Boundary(end, span, j + 1));
    }
  }

  function Least(a: nat, b: nat): nat { if a < b then a else b }

  /** `_window_buckets`.  The arithmetic of `datetime` overflows outside years 1 to 9999. */
  method WindowBuckets(ts: seq<int>, windowDays: nat, maxWindows: nat)
    returns (r: Result<(seq<Window>, bool), TimestampError>)
    requires windowDays >= 1 && maxWindows >= 1
    requires forall t :: t in ts ==> InRange(t)
    ensures ts == [] ==> r == Ok(([], false))
    ensures ts != [] ==> BucketsOf(r, Latest(ts) + SECOND, Earliest(ts), windowDays * DAY, maxWindows)
  {
    if ts == [] {
      return Ok(([], false));
    }
    var earliest, latest := Earliest(ts), Latest(ts);
    var span, first := windowDays * DAY, latest + SECOND;
    ghost var needed := Least(Needed(first, earliest, span), maxWindows + 1);
    BoundaryNext(first, span, 0);
    if !InRange(first) {
      assert 0 <= needed && !InRange(Boundary(first, span, 0));
      return Err(OutOfRange);
    }
    var end := first;
    var windows: seq<Window> := [];
    while end > earliest && |windows| <= maxWindows
      invariant |windows| <= needed
      invariant end == Boundary(first, span, |windows|)
      invariant Tiles(windows, first, span)
      invariant forall k :: 0 <= k <= |windows| ==> InRange(Boundary(first, span, k))
      decreases maxWindows + 1 - |windows|
    {
      NeededIsLeast(first, earliest, span, |windows|);
      var start := end - span;
      BoundaryNext(first, span, |windows|);
      if !InRange(start) {
        return Err(OutOfRange);
      }
      windows := windows + [Window(start, end)];
      end := start;
    }
    NeededIsLeast(first, earliest, span, |windows|);
    NeededIsLeast(first, earliest, span, maxWindows);
    var kept := if |windows| > maxWindows then windows[..maxWindows] else windows;
    return Ok((kept, |windows| > maxWindows));
  }

  /** What the buckets are: as many windows as reach back, at most `maxWindows`, and truncated
      exactly when those do not cover the resolutions.  They fail exactly when a boundary that
      was needed, or the one that shows the truncation, is out of range. */
  ghost predicate BucketsOf(r: Result<(seq<Window>, bool), TimestampError>, end: int, earliest: int, span: int, maxWindows: nat)
    requires span > 0
  {
    var needed := Needed(end, earliest, span);
    match r
    case Err(_) => exists k :: 0 <= k <= Least(needed, maxWindows + 1) && !InRange(Boundary(end, span, k))
    case Ok((windows, truncated)) =>
      && |windows| == Least(needed, maxWindows) && Tiles(windows, end, span)
      && (truncated <==> end - earliest > maxWindows * span)
      && forall k :: 0 <= k <= Least(needed, maxWindows + 1) ==> InRange(Boundary(end, span, k))
  }

  // ---- membership, decided on text ----

  predicate InWindow(w: Window, t: int)
    requires InRange(w.start) && InRange(w.end) && InRange(t)
  {
    StrLeq(IsoText(w.start), IsoText(t)) && StrLt(IsoText(t), IsoText(w.end))
  }

  /** The place of an instant in text order, as a number. */
  function TextRank(t: int): int {
    t / SECOND * (SECOND + 1) + TextFraction(t)
  }

  lemma InWindowRank(w: Window, t: int)
    requires InRange(w.start) && InRange(w.end) && InRange(t)
    ensures InWindow(w, t) <==> TextRank(w.start) <= TextRank(t) < TextRank(w.end)
  {
    IsoTextOrder(w.start, t);
    IsoTextOrder(t, w.start);
    IsoTextOrder(t, w.end);
    BeforeByRank(w.start, t);
    BeforeByRank(t, w.start);
    BeforeByRank(t, w.end);
  }

  lemma BeforeByRank(x: int, y: int)
    ensures TextBefore(x, y) <==> TextRank(x) < TextRank(y)
  {
  }

  ghost predicate AllInRange(windows: seq<Window>) {
    forall k :: 0 <= k < |windows| ==> InRange(windows[k].start) && InRange(windows[k].end)
  }

  /** In how many windows a resolution is counted. */
  ghost function Hits(windows: seq<Window>, t: int): nat
    requires InRange(t) && AllInRange(windows)
  {
    if windows == [] then 0
    else Hits(windows[..|windows| - 1], t) + if InWindow(windows[|windows| - 1], t) then 1 else 0
  }

  lemma LaterRank(t: int, u: int)
    requires t / SECOND < u / SECOND
    ensures TextRank(t) < TextRank(u)
  {
  }

  /** Shifting by whole days keeps the fraction, so boundaries keep their order in text. */
  lemma BoundaryRanks(end: int, days: nat, k: nat)
    requires days >= 1
    ensures TextRank(Boundary(end, days * DAY, k + 1)) < TextRank(Boundary(end, days * DAY, k))
  {
    var a, b := Boundary(end, days * DAY, k + 1), Boundary(end, days * DAY, k);
    BoundaryNext(end, days * DAY, k);
    assert b == a + days * 86_400 * SECOND;
    ShiftSeconds(a, days * 86_400);
    LaterRank(a, b);
  }

  lemma ShiftSeconds(t: int, n: int)
    ensures (t + n * SECOND) / SECOND == t / SECOND + n && (t + n * SECOND) % SECOND == t % SECOND
  {
  }

  /** Which windows count a resolution, by rank alone. */
  lemma {:induction false} HitsByRank(windows: seq<Window>, end: int, days: nat, t: int)
    requires days >= 1 && InRange(t) && Tiles(windows, end, days * DAY) && AllInRange(windows)
    requires TextRank(t) < TextRank(end)
    ensures TextRank(Boundary(end, days * DAY, |windows|)) <= TextRank(end)
    ensures Hits(windows, t) == if TextRank(Boundary(end, days * DAY, |windows|)) <= TextRank(t) then 1 else 0
    decreases |windows|
  {
    assert Boundary(end, days * DAY, 0) == end;
    if windows != [] {
      var n := |windows| - 1;
      HitsByRank(windows[..n], end, days, t);
      BoundaryRanks(end, days, n);
      InWindowRank(windows[n], t);
    }
  }

  /** In the second of the oldest boundary, past it, but sorting before it: the boundary is a
      whole second and the resolution is not. */
  predicate Lost(last: int, t: int) {
    last % SECOND == 0 && t / SECOND == last / SECOND && t % SECOND != 0
  }

  lemma RankPast(last: int, t: int)
    requires last <= t
    ensures TextRank(last) <= TextRank(t) <==> !Lost(last, t)
  {
    if last / SECOND < t / SECOND {
      LaterRank(last, t);
    }
  }

  /** Without truncation every resolution is counted in exactly one window - unless it is lost,
      and then in none. */
  lemma CountedOnceIff(windows: seq<Window>, end: int, earliest: int, days: nat, t: int)
    requires days >= 1 && earliest <= t <= end - SECOND && InRange(t)
    requires Tiles(windows, end, days * DAY) && AllInRange(windows)
    requires |windows| == Needed(end, earliest, days * DAY)
    ensures Hits(windows, t) == if Lost(Boundary(end, days * DAY, |windows|), t) then 0 else 1
  {
    ShiftSeconds(end, -1);
    LaterRank(t, end);
    HitsByRank(windows, end, days, t);
    NeededIsLeast(end, earliest, days * DAY, |windows|);
    RankPast(Boundary(end, days * DAY, |windows|), t);
  }

  /** In the second of a boundary, before it, but sorting after it: the resolution is a whole
      second and the boundary is not. */
  predicate Early(end: int, t: int) {
    t % SECOND == 0 && t / SECOND == end / SECOND && end % SECOND != 0
  }

  lemma RankBefore(end: int, t: int)
    requires t < end
    ensures TextRank(t) < TextRank(end) <==> !Early(end, t)
  {
    if t / SECOND < end / SECOND {
      LaterRank(t, end);
    }
  }

  lemma NotEarlyInNewest(end: int, t: int)
    requires t <= end - SECOND
    ensures !Early(end, t)
  {
    ShiftSeconds(end, -1);
  }

  /** The window that contains a resolution counts it, except within the second of a boundary:
      one that sorts before a whole-second start is counted in the next older window, if there
      is one, and one that sorts after a fractional end in the next newer one. */
  lemma CountedWhere(windows: seq<Window>, end: int, days: nat, k: nat, t: int)
    requires days >= 1 && InRange(t) && t <= end - SECOND
    requires Tiles(windows, end, days * DAY) && AllInRange(windows)
    requires k < |windows| && windows[k].start <= t < windows[k].end
    ensures InWindow(windows[k], t) <==> !Lost(windows[k].start, t) && !Early(windows[k].end, t)
    ensures Lost(windows[k].start, t) && k + 1 < |windows| ==> InWindow(windows[k + 1], t)
    ensures Early(windows[k].end, t) ==> k > 0 && InWindow(windows[k - 1], t)
  {
    var w := windows[k];
    RankPast(w.start, t);
    RankBefore(w.end, t);
    InWindowRank(w, t);
    TilesAreContiguous(windows, end, days * DAY);
    if Lost(w.start, t) && k + 1 < |windows| {
      CountedOlder(windows[k + 1], w.start, days * 86_400, t);
    }
    if Early(w.end, t) {
      NotEarlyInNewest(end, t);
      CountedNewer(windows[k - 1], w.end, days * 86_400, t);
    }
  }

  lemma CountedOlder(older: Window, start: int, seconds: nat, t: int)
    requires InRange(older.start) && InRange(older.end) && InRange(t) && seconds > 0
    requires older.end == start == older.start + seconds * SECOND && Lost(start, t)
    ensures InWindow(older, t)
  {
    ShiftSeconds(older.start, seconds);
    LaterRank(older.start, t);
    InWindowRank(older, t);
  }

  lemma CountedNewer(newer: Window, end: int, seconds: nat, t: int)
    requires InRange(newer.start) && InRange(newer.end) && InRange(t) && seconds > 0
    requires newer.start == end && newer.end == end + seconds * SECOND && Early(end, t)
    ensures InWindow(newer, t)
  {
    ShiftSeconds(end, seconds);
    LaterRank(t, newer.end);
    InWindowRank(newer, t);
  }

  // ---- panels ----

  function InPanel(w: Window): int -> bool
    requires InRange(w.start) && InRange(w.end)
  {
    (t: int) => InRange(t) && InWindow(w, t)
  }

  ghost function PanelTotal(windows: seq<Window>, ts: seq<int>): nat
    requires AllInRange(windows)
  {
    if windows == [] then 0
    else PanelTotal(windows[..|windows| - 1], ts) + |Filter(ts, InPanel(windows[|windows| - 1]))|
  }

  lemma PanelSnoc(windows: seq<Window>, k: nat, ts: seq<int>)
    requires AllInRange(windows) && k < |windows|
    ensures PanelTotal(windows[..k + 1], ts) == PanelTotal(windows[..k], ts) + |Filter(ts, InPanel(windows[k]))|
  {
    assert windows[..k + 1][..k] == windows[..k];
  }

  /** The panel loop: one sample size per window. */
  method PanelSizes(windows: seq<Window>, ts: seq<int>) returns (sizes: seq<nat>, total: nat)
    requires AllInRange(windows)
    ensures |sizes| == |windows|
    ensures forall k :: 0 <= k < |windows| ==> sizes[k] == |Filter(ts, InPanel(windows[k]))|
    ensures total == PanelTotal(windows, ts)
  {
    sizes, total := [], 0;
    for k := 0 to |windows|
      invariant |sizes| == k
      invariant forall j :: 0 <= j < k ==> sizes[j] == |Filter(ts, InPanel(windows[j]))|
      invariant total == PanelTotal(windows[..k], ts)
    {
      PanelSnoc(windows, k, ts);
      var inWindow := Filter(ts, InPanel(windows[k]));
      sizes, total := sizes + [|inWindow|], total + |inWindow|;
    }
    assert windows[..|windows|] == windows;
  }

  lemma {:induction false} EmptyPanels(windows: seq<Window>)
    requires AllInRange(windows)
    ensures PanelTotal(windows, []) == 0
    decreases |windows|
  {
    if windows != [] {
      EmptyPanels(windows[..|windows| - 1]);
    }
  }

  /** Counting by panel is counting by resolution. */
  lemma {:induction false} PanelsCountHits(windows: seq<Window>, t: int, ts: seq<int>)
    requires AllInRange(windows) && InRange(t)
    ensures PanelTotal(windows, [t] + ts) == Hits(windows, t) + PanelTotal(windows, ts)
    decreases |windows|
  {
    if windows != [] {
      PanelsCountHits(windows[..|windows| - 1], t, ts);
      assert ([t] + ts)[1..] == ts;
    }
  }

  function IsLost(last: int): int -> bool {
    (t: int) => Lost(last, t)
  }

  lemma {:induction false} TotalsFrom(windows: seq<Window>, end: int, earliest: int, days: nat, ts: seq<int>)
    requires days >= 1 && forall t :: t in ts ==> InRange(t) && earliest <= t <= end - SECOND
    requires Tiles(windows, end, days * DAY) && AllInRange(windows)
    requires |windows| == Needed(end, earliest, days * DAY)
    ensures PanelTotal(windows, ts) == |ts| - |Filter(ts, IsLost(Boundary(end, days * DAY, |windows|)))|
    decreases |ts|
  {
    if ts == [] {
      EmptyPanels(windows);
    } else {
      assert ts == [ts[0]] + ts[1..];
      assert ts[0] in ts;
      assert forall t :: t in ts[1..] ==> t in ts;
      TotalsFrom(windows, end, earliest, days, ts[1..]);
      CountedOnceIff(windows, end, earliest, days, ts[0]);
      PanelsCountHits(windows, ts[0], ts[1..]);
    }
  }

  /** No resolution falls out of the oldest of `n` windows. */
  ghost predicate NoneLost(ts: seq<int>, days: nat, n: nat)
    requires ts != []
  {
    forall t :: t in ts ==> !Lost(Boundary(Latest(ts) + SECOND, days * DAY, n), t)
  }

  /** Panel sizes sum to the total exactly when no resolution is lost. */
  lemma PanelsSumIff(windows: seq<Window>, days: nat, ts: seq<int>)
    requires days >= 1 && ts != [] && forall t :: t in ts ==> InRange(t)
    requires Tiles(windows, Latest(ts) + SECOND, days * DAY) && AllInRange(windows)
    requires |windows| == Needed(Latest(ts) + SECOND, Earliest(ts), days * DAY)
    ensures PanelTotal(windows, ts) == |ts| <==> NoneLost(ts, days, |windows|)
  {
    var end := Latest(ts) + SECOND;
    TotalsFrom(windows, end, Earliest(ts), days, ts);
    NoneLostIff(ts, Boundary(end, days * DAY, |windows|));
  }

  lemma NoneLostIff(ts: seq<int>, last: int)
    ensures Filter(ts, IsLost(last)) == [] <==> forall t :: t in ts ==> !Lost(last, t)
  {
    var lost := Filter(ts, IsLost(last));
    if lost != [] {
      assert lost[0] in lost;
    } else {
      forall t | t in ts ensures !Lost(last, t) {
        assert IsLost(last)(t) ==> t in lost;
      }
    }
  }

  /** Windows and panels together: unless windows were cut off, the sample sizes add up to the
      number of resolutions exactly when none is lost. */
  method TrendPanels(ts: seq<int>, windowDays: nat, maxWindows: nat)
    returns (r: Result<(seq<Window>, bool), TimestampError>, sizes: seq<nat>, total: nat)
    requires windowDays >= 1 && maxWindows >= 1
    requires forall t :: t in ts ==> InRange(t)
    ensures r.Ok? ==> AllInRange(r.value.0) && |sizes| == |r.value.0| && total == PanelTotal(r.value.0, ts)
    ensures r.Ok? ==> forall k :: 0 <= k < |sizes| ==> sizes[k] == |Filter(ts, InPanel(r.value.0[k]))|
    ensures r.Ok? && ts != [] && !r.value.1 ==> (total == |ts| <==> NoneLost(ts, windowDays, |r.value.0|))
  {
    r := WindowBuckets(ts, windowDays, maxWindows);
    if r.Err? {
      return r, [], 0;
    }
    if ts != [] {
      TrendFacts(r.value.0, r.value.1, ts, windowDays, maxWindows);
    }
    sizes, total := PanelSizes(r.value.0, ts);
  }

  lemma TrendFacts(windows: seq<Window>, truncated: bool, ts: seq<int>, days: nat, maxWindows: nat)
    requires days >= 1 && ts != [] && forall t :: t in ts ==> InRange(t)
    requires BucketsOf(Ok((windows, truncated)), Latest(ts) + SECOND, Earliest(ts), days * DAY, maxWindows)
    ensures AllInRange(windows)
    ensures !truncated ==> (PanelTotal(windows, ts) == |ts| <==> NoneLost(ts, days, |windows|))
  {
    var end, span := Latest(ts) + SECOND, days * DAY;
    BucketsInRange(windows, truncated, end, Earliest(ts), span, maxWindows);
    if !truncated {
      BucketsReachBack(windows, end, Earliest(ts), span, maxWindows);
      AllCounted(windows, ts, days, end, Earliest(ts), span);
    }
  }

  lemma AllCounted(windows: seq<Window>, ts: seq<int>, days: nat, end: int, earliest: int, span: int)
    requires days >= 1 && ts != [] && forall t :: t in ts ==> InRange(t)
    requires end == Latest(ts) + SECOND && earliest == Earliest(ts) && span == days * DAY
    requires Tiles(windows, end, span) && AllInRange(windows) && |windows| == Needed(end, earliest, span)
    ensures PanelTotal(windows, ts) == |ts| <==> NoneLost(ts, days, |windows|)
  {
    PanelsSumIff(windows, days, ts);
  }

  lemma BucketsInRange(windows: seq<Window>, truncated: bool, end: int, earliest: int, span: int, maxWindows: nat)
    requires span > 0 && BucketsOf(Ok((windows, truncated)), end, earliest, span, maxWindows)
    ensures AllInRange(windows) && Tiles(windows, end, span)
  {
    forall k | 0 <= k < |windows| ensures InRange(windows[k].start) && InRange(windows[k].end) {
      assert InRange(Boundary(end, span, k)) && InRange(Boundary(end, span, k + 1));
    }
  }

  lemma BucketsReachBack(windows: seq<Window>, end: int, earliest: int, span: int, maxWindows: nat)
    requires span > 0 && BucketsOf(Ok((windows, false)), end, earliest, span, maxWindows)
    ensures |windows| == Needed(end, earliest, span)
  {
    NeededIsLeast(end, earliest, span, maxWindows);
  }

  /** For instance: a day-wide window starting on a whole second is all that is needed to reach
      back to a resolution half a second past its start, and does not contain it. */
  lemma AResolutionIsLost(w: Window, t: int)
    requires InRange(w.start) && InRange(w.end) && w.end == w.start + DAY
    requires w.start % SECOND == 0 && t == w.start + 500_000
    ensures Needed(w.end, t, DAY) == 1 && InRange(t)
    ensures w.start <= t < w.end && !InWindow(w, t)
  {
    DivUnique(w.end - t + DAY - 1, DAY, 1);
    assert Lost(w.start, t);
    RankPast(w.start, t);
    InWindowRank(w, t);
  }
}
