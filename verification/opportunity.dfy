/** Path metrics of a decision (src/trade_trace/reports/opportunity.py). */
module Opportunity {
  import opened Outcomes
  import opened Orders
  import opened Arithmetic

  // ---- excursions and drawdown ----

  datatype Excursions = Excursions(favorable: real, adverse: real, drawdown: real)

  ghost predicate IsLargestFall(signed: seq<real>, fall: real) {
    && (forall i, j :: 0 <= i <= j < |signed| ==> signed[i] - signed[j] <= fall)
    && (exists i, j :: 0 <= i <= j < |signed| && signed[i] - signed[j] == fall)
  }

  ghost predicate IsLargest(signed: seq<real>, m: real) {
    m in signed && forall i :: 0 <= i < |signed| ==> signed[i] <= m
  }

  method Largest(signed: seq<real>) returns (m: real)
    requires signed != []
    ensures IsLargest(signed, m)
  {
    m := signed[0];
    for i := 1 to |signed|
      invariant m in signed && forall k :: 0 <= k < i ==> signed[k] <= m
    {
      m := Max(m, signed[i]);
    }
  }

  function Flipped(signed: seq<real>): seq<real> {
    seq(|signed|, i requires 0 <= i < |signed| => -signed[i])
  }

  /** What the three figures of a path mean. */
  ghost predicate IsExcursions(signed: seq<real>, e: Excursions) {
    && (exists up :: IsLargest(signed, up) && e.favorable == Max(0.0, up))
    && (exists down :: IsLargest(Flipped(signed), down) && e.adverse == Max(0.0, down))
    && IsLargestFall(signed, e.drawdown)
  }

  /** The drawdown loop of `_row_metrics`: one pass with a running peak finds the largest fall
      from an earlier to a later price. */
  method PathExcursions(signed: seq<real>) returns (r: Excursions)
    requires signed != []
    ensures IsExcursions(signed, r)
    ensures 0.0 <= r.drawdown <= r.favorable + r.adverse
  {
    var up := Largest(signed);
    var down := Largest(Flipped(signed));
    var worst, peak := 0.0, signed[0];
    ghost var peakAt, from, to := 0, 0, 0;
    for k := 0 to |signed|
      invariant 0 <= peakAt < |signed| && (k > 0 ==> peakAt < k) && (k == 0 ==> peakAt == 0)
      invariant peak == signed[peakAt] && forall i :: 0 <= i < k ==> signed[i] <= peak
      invariant 0 <= from <= to < |signed| && signed[from] - signed[to] == worst && worst >= 0.0
      invariant forall i, j :: 0 <= i <= j < k ==> signed[i] - signed[j] <= worst
    {
      if signed[k] >= peak {
        peakAt := k;
      }
      peak := Max(peak, signed[k]);
      if peak - signed[k] >= worst {
        from, to := peakAt, k;
      }
      worst := Max(worst, peak - signed[k]);
    }
    assert Flipped(signed)[to] == -signed[to];
    return Excursions(Max(0.0, up), Max(0.0, down), worst);
  }

  lemma LargestUnique(s: seq<real>, a: real, b: real)
    requires IsLargest(s, a) && IsLargest(s, b)
    ensures a == b
  {
  }

  /** Turning the direction round swaps the favourable and adverse excursions. */
  lemma FlipSwapsExcursions(signed: seq<real>, e: Excursions, f: Excursions)
    requires IsExcursions(signed, e) && IsExcursions(Flipped(signed), f)
    ensures f.favorable == e.adverse && f.adverse == e.favorable
  {
    assert Flipped(Flipped(signed)) == signed;
    var up :| IsLargest(signed, up) && e.favorable == Max(0.0, up);
    var up2 :| IsLargest(Flipped(Flipped(signed)), up2) && f.adverse == Max(0.0, up2);
    LargestUnique(signed, up, up2);
    var down :| IsLargest(Flipped(signed), down) && e.adverse == Max(0.0, down);
    var down2 :| IsLargest(Flipped(signed), down2) && f.favorable == Max(0.0, down2);
    LargestUnique(Flipped(signed), down, down2);
  }

  // ---- coverage ----

  datatype Coverage = Missing | Sparse | Partial | Complete

  function Rank(c: Coverage): nat {
    match c case Missing => 0 case Sparse => 1 case Partial => 2 case Complete => 3
  }

  predicate RealLeq(a: real, b: real) { a <= b }

  function Within(start: real, end: real): real -> bool {
    (t: real) => start < t <= end
  }

  /** `[start, *sorted(times in (start, end]), end]`. */
  function Ordered(times: seq<real>, start: real, end: real): seq<real> {
    [start] + SortBy(Filter(times, Within(start, end)), RealLeq) + [end]
  }

  function LargestOf(times: seq<real>): real
    requires times != []
  {
    if |times| == 1 then times[0] else Max(times[0], LargestOf(times[1..]))
  }

  function MaxGap(ordered: seq<real>): real
    requires |ordered| >= 2
  {
    var gap := ordered[1] - ordered[0];
    if |ordered| == 2 then gap else Max(gap, MaxGap(ordered[1..]))
  }

  function Covered(times: seq<real>, start: real, end: real): real
    requires times != []
  {
    Max(0.0, Min(LargestOf(times), end) - start)
  }

  /** `_coverage` with the horizon given.  A snapshot whose time does not parse is `None`; the
      decision's own time may not parse either. */
  function CoverageOf(start: Option<real>, end: real, snapshots: seq<Option<real>>): Coverage {
    if snapshots == [] then Missing
    else if start.None? || end <= start.value then Partial
    else
      var times := Parsed(snapshots);
      if times == [] then Missing
      else
        var span, ratio := end - start.value, Covered(times, start.value, end) / (end - start.value);
        if ratio >= 0.75 && MaxGap(Ordered(times, start.value, end)) <= span * 0.25 then Complete
        else if ratio >= 0.5 then Partial
        else Sparse
  }

  function Parsed(snapshots: seq<Option<real>>): (r: seq<real>)
    ensures forall t :: t in r <==> Some(t) in snapshots
  {
    if snapshots == [] then []
    else
      assert snapshots == [snapshots[0]] + snapshots[1..];
      (if snapshots[0].Some? then [snapshots[0].value] else []) + Parsed(snapshots[1..])
  }

  // ---- coverage grows with snapshots ----

  lemma {:induction false} LargestOfFacts(times: seq<real>)
    requires times != []
    ensures LargestOf(times) in times && forall t :: t in times ==> t <= LargestOf(times)
  {
    if |times| > 1 {
      LargestOfFacts(times[1..]);
      assert times == [times[0]] + times[1..];
    }
  }

  lemma {:induction false} MaxGapIff(ordered: seq<real>, g: real)
    requires |ordered| >= 2
    ensures MaxGap(ordered) <= g <==> forall i :: 0 <= i < |ordered| - 1 ==> ordered[i + 1] - ordered[i] <= g
  {
    if |ordered| > 2 {
      MaxGapIff(ordered[1..], g);
      forall i | 0 < i < |ordered| - 1 ensures ordered[i + 1] - ordered[i] == ordered[1..][i] - ordered[1..][i - 1] {
      }
      if forall i :: 0 <= i < |ordered| - 1 ==> ordered[i + 1] - ordered[i] <= g {
        forall i | 0 <= i < |ordered[1..]| - 1 ensures ordered[1..][i + 1] - ordered[1..][i] <= g {
          assert ordered[i + 2] - ordered[i + 1] <= g;
        }
      }
      if forall i :: 0 <= i < |ordered[1..]| - 1 ==> ordered[1..][i + 1] - ordered[1..][i] <= g {
        forall i | 0 <= i < |ordered| - 1 && i > 0 ensures ordered[i + 1] - ordered[i] <= g {
          assert ordered[1..][i - 1 + 1] - ordered[1..][i - 1] <= g;
        }
      }
    }
  }

  ghost predicate Reaches(points: seq<real>, x: real, g: real) {
    exists p :: p in points && x < p <= x + g
  }

  /** From every moment before the horizon some point lies within `g`. */
  ghost predicate WithinReach(points: seq<real>, start: real, end: real, g: real) {
    forall x: real :: start <= x < end ==> Reaches(points, x, g)
  }

  lemma OrderedFacts(times: seq<real>, start: real, end: real)
    requires start < end
    ensures var o := Ordered(times, start, end);
            Sorted(o, RealLeq) && |o| >= 2 && o[0] == start && o[|o| - 1] == end
    ensures forall p :: p in Ordered(times, start, end) <==> p == start || p == end || (p in times && start < p <= end)
  {
    var kept := Filter(times, Within(start, end));
    var mid := SortBy(kept, RealLeq);
    assert TotalPreorder(RealLeq);
    SortBySorts(kept, RealLeq);
    SameMembers(mid, kept);
    var o := Ordered(times, start, end);
    forall i, j | 0 <= i < j < |o| ensures RealLeq(o[i], o[j]) {
      if 0 < i {
        assert o[i] in mid;
      }
      if j < |o| - 1 {
        assert o[j] in mid;
      }
    }
  }

  /** A gap bound on the sorted list says the same as reach from every moment. */
  lemma GapIsReach(times: seq<real>, start: real, end: real, g: real)
    requires start < end && g >= 0.0
    ensures MaxGap(Ordered(times, start, end)) <= g <==> WithinReach(Ordered(times, start, end), start, end, g)
  {
    var o := Ordered(times, start, end);
    OrderedFacts(times, start, end);
    MaxGapIff(o, g);
    if MaxGap(o) <= g {
      forall x: real | start <= x < end ensures Reaches(o, x, g) {
        var i := LastAtOrBefore(o, x);
        assert o[i + 1] in o;
      }
    }
    if WithinReach(o, start, end, g) {
      forall i | 0 <= i < |o| - 1 ensures o[i + 1] - o[i] <= g {
        assert RealLeq(o[0], o[i]) || i == 0;
        assert RealLeq(o[i], o[i + 1]);
        if o[i] < o[i + 1] {
          assert RealLeq(o[i + 1], o[|o| - 1]) || i + 1 == |o| - 1;
          assert Reaches(o, o[i], g);
          var p :| p in o && o[i] < p <= o[i] + g;
          var k :| 0 <= k < |o| && o[k] == p;
          assert k <= i ==> k == i || RealLeq(o[k], o[i]);
          assert k > i + 1 ==> RealLeq(o[i + 1], o[k]);
        }
      }
    }
  }

  lemma {:induction false} LastAtOrBefore(o: seq<real>, x: real) returns (i: nat)
    requires |o| >= 2 && o[0] <= x < o[|o| - 1]
    ensures i < |o| - 1 && o[i] <= x < o[i + 1]
  {
    i := 0;
    while o[i + 1] <= x
      invariant i < |o| - 1 && o[i] <= x
      decreases |o| - i
    {
      i := i + 1;
    }
  }

  lemma MoreTimesCoverMore(a: seq<real>, b: seq<real>, start: real, end: real, g: real)
    requires a != [] && b != [] && start < end && g >= 0.0 && forall t :: t in a ==> t in b
    ensures Covered(a, start, end) <= Covered(b, start, end)
    ensures MaxGap(Ordered(a, start, end)) <= g ==> MaxGap(Ordered(b, start, end)) <= g
  {
    LargestOfFacts(a);
    LargestOfFacts(b);
    OrderedFacts(a, start, end);
    OrderedFacts(b, start, end);
    GapIsReach(a, start, end, g);
    GapIsReach(b, start, end, g);
    if MaxGap(Ordered(a, start, end)) <= g {
      forall x: real | start <= x < end ensures Reaches(Ordered(b, start, end), x, g) {
        assert Reaches(Ordered(a, start, end), x, g);
        var p :| p in Ordered(a, start, end) && x < p <= x + g;
        assert p in Ordered(b, start, end);
      }
    }
  }

  /** With the horizon fixed, adding snapshots never lowers the coverage. */
  lemma CoverageMonotone(start: Option<real>, end: real, a: seq<Option<real>>, b: seq<Option<real>>)
    requires forall s :: s in a ==> s in b
    ensures Rank(CoverageOf(start, end, a)) <= Rank(CoverageOf(start, end, b))
  {
    if a != [] && start.Some? && end > start.value {
      assert a[0] in b;
      var ta, tb := Parsed(a), Parsed(b);
      if ta != [] {
        assert ta[0] in tb;
        var span := end - start.value;
        MoreTimesCoverMore(ta, tb, start.value, end, span * 0.25);
        RealDivMonotone(Covered(ta, start.value, end), Covered(tb, start.value, end), span);
      }
    } else if a != [] {
      assert a[0] in b;
    }
  }

  // ---- what each rank says ----

  /** Some snapshot lies at least this far into the window. */
  ghost predicate Reached(snapshots: seq<Option<real>>, start: real, far: real) {
    exists t :: Some(t) in snapshots && t >= start + far
  }

  /** A snapshot of the window, or its end. */
  predicate IsStop(p: real, snapshots: seq<Option<real>>, start: real, end: real) {
    p == end || (Some(p) in snapshots && start < p <= end)
  }

  /** From every moment of the window the next snapshot, or its end, is at most `g` away. */
  ghost predicate NeverFarFromNext(snapshots: seq<Option<real>>, start: real, end: real, g: real) {
    forall x: real :: start <= x < end ==> StopSoon(x, snapshots, start, end, g)
  }

  ghost predicate StopSoon(x: real, snapshots: seq<Option<real>>, start: real, end: real, g: real) {
    exists p: real :: IsStop(p, snapshots, start, end) && x < p <= x + g
  }

  lemma RatioIff(covered: real, span: real, part: real, far: real)
    requires span > 0.0 && far == part * span
    ensures covered / span >= part <==> covered >= far
  {
    RealDivTimes(covered, span);
    RatioBound(covered / span, part, span);
  }

  lemma RatioBound(ratio: real, part: real, span: real)
    requires span > 0.0
    ensures ratio >= part <==> ratio * span >= part * span
  {
  }

  lemma CoveredIff(last: real, start: real, end: real, far: real)
    requires 0.0 < far <= end - start
    ensures Max(0.0, Min(last, end) - start) >= far <==> last >= start + far
  {
  }

  lemma PartIff(snapshots: seq<Option<real>>, start: real, end: real, far: real)
    requires Parsed(snapshots) != [] && 0.0 < far <= end - start
    ensures Covered(Parsed(snapshots), start, end) >= far <==> Reached(snapshots, start, far)
  {
    var times := Parsed(snapshots);
    LargestOfFacts(times);
    CoveredIff(LargestOf(times), start, end, far);
    assert Some(LargestOf(times)) in snapshots;
  }

  lemma GapIff(snapshots: seq<Option<real>>, start: real, end: real, g: real)
    requires start < end && g >= 0.0
    ensures MaxGap(Ordered(Parsed(snapshots), start, end)) <= g <==> NeverFarFromNext(snapshots, start, end, g)
  {
    var o := Ordered(Parsed(snapshots), start, end);
    GapIsReach(Parsed(snapshots), start, end, g);
    OrderedFacts(Parsed(snapshots), start, end);
    forall x: real | start <= x < end
      ensures Reaches(o, x, g) <==> StopSoon(x, snapshots, start, end, g)
    {
      if Reaches(o, x, g) {
        var p :| p in o && x < p <= x + g;
        assert IsStop(p, snapshots, start, end);
      }
      if p: real :| IsStop(p, snapshots, start, end) && x < p <= x + g {
        assert p in o;
      }
    }
  }

  /** When each rank is given: nothing usable; no proper window; or by how far into the window
      the snapshots reach, and, for the highest, how far apart they are. */
  lemma CoverageIs(start: Option<real>, end: real, snapshots: seq<Option<real>>)
    ensures snapshots == [] ==> CoverageOf(start, end, snapshots) == Missing
    ensures snapshots != [] && (start.None? || end <= start.value) ==> CoverageOf(start, end, snapshots) == Partial
    ensures snapshots != [] && start.Some? && start.value < end ==>
              var a, c := start.value, CoverageOf(start, end, snapshots);
              && (c == Missing <==> forall s :: s in snapshots ==> s.None?)
              && (c == Complete <==> Reached(snapshots, a, 0.75 * (end - a)) && NeverFarFromNext(snapshots, a, end, 0.25 * (end - a)))
              && (c == Partial <==> c != Complete && Reached(snapshots, a, 0.5 * (end - a)))
  {
    if snapshots != [] && start.Some? && start.value < end {
      ParsedNone(snapshots);
      if Parsed(snapshots) != [] {
        PartsOfWindow(snapshots, start.value, end, end - start.value);
        GapIff(snapshots, start.value, end, 0.25 * (end - start.value));
      }
    }
  }

  lemma PartsOfWindow(snapshots: seq<Option<real>>, start: real, end: real, span: real)
    requires Parsed(snapshots) != [] && start < end && span == end - start
    ensures Covered(Parsed(snapshots), start, end) / span >= 0.75 <==> Reached(snapshots, start, 0.75 * span)
    ensures Covered(Parsed(snapshots), start, end) / span >= 0.5 <==> Reached(snapshots, start, 0.5 * span)
  {
    var covered := Covered(Parsed(snapshots), start, end);
    RatioIff(covered, span, 0.75, 0.75 * span);
    RatioIff(covered, span, 0.5, 0.5 * span);
    PartIff(snapshots, start, end, 0.75 * span);
    PartIff(snapshots, start, end, 0.5 * span);
  }

  lemma ParsedNone(snapshots: seq<Option<real>>)
    ensures Parsed(snapshots) == [] <==> forall s :: s in snapshots ==> s.None?
  {
    var times := Parsed(snapshots);
    if times != [] {
      assert Some(times[0]) in snapshots;
    }
    if s :| s in snapshots && s.Some? {
      assert s == Some(s.value) && s.value in times;
    }
  }
}
