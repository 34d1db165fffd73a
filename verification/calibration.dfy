/** Calibration metrics (src/trade_trace/reports/calibration.py), before rounding. */
module Calibration {
  // The expected calibration error is a binned quantity, so its worth depends on the bins.  Here
  // the bins of both policies are shown to be partitions of the rows, and for every partition
  // the error lies between the overall bias and one, and its square below the Brier score.

  import opened Outcomes
  import opened Orders
  import opened Arithmetic

  /** `y` is 1 when the forecast came true and 0 otherwise. */
  datatype Scored = Scored(forecastId: string, scoreId: string, p: real, y: int, baseline: Option<real>)

  predicate ValidRow(r: Scored) {
    0.0 <= r.p <= 1.0 && (r.y == 0 || r.y == 1)
  }

  predicate ValidRows(rows: seq<Scored>) {
    forall r :: r in rows ==> ValidRow(r)
  }

  // ---- sums over rows ----

  function SumOf(rows: seq<Scored>, f: Scored -> real): real {
    if rows == [] then 0.0 else f(rows[0]) + SumOf(rows[1..], f)
  }

  lemma {:induction false} SumOfAppend(a: seq<Scored>, b: seq<Scored>, f: Scored -> real)
    ensures SumOf(a + b, f) == SumOf(a, f) + SumOf(b, f)
  {
    if a == [] {
      assert a + b == b;
    } else {
      assert (a + b)[1..] == a[1..] + b;
      SumOfAppend(a[1..], b, f);
    }
  }

  function Without(s: seq<Scored>, i: nat): seq<Scored>
    requires i < |s|
  {
    s[..i] + s[i + 1..]
  }

  lemma {:induction false} SumOfWithout(s: seq<Scored>, i: nat, f: Scored -> real)
    requires i < |s|
    ensures SumOf(s, f) == f(s[i]) + SumOf(Without(s, i), f)
  {
    if i == 0 {
      assert Without(s, 0) == s[1..];
    } else {
      SumOfWithout(s[1..], i - 1, f);
      assert Without(s, i)[0] == s[0] && Without(s, i)[1..] == Without(s[1..], i - 1);
    }
  }

  lemma MultisetWithout(s: seq<Scored>, i: nat)
    requires i < |s|
    ensures multiset(Without(s, i)) == multiset(s) - multiset{s[i]}
  {
    assert s == s[..i] + ([s[i]] + s[i + 1..]);
  }

  lemma {:induction false} SumOfPermutes(a: seq<Scored>, b: seq<Scored>, f: Scored -> real)
    requires multiset(a) == multiset(b)
    ensures SumOf(a, f) == SumOf(b, f)
    decreases |a|
  {
    SameMembers(a, b);
    if a != [] {
      assert a[0] in b;
      var i :| 0 <= i < |b| && b[i] == a[0];
      MultisetWithout(a, 0);
      MultisetWithout(b, i);
      SumOfPermutes(Without(a, 0), Without(b, i), f);
      SumOfWithout(a, 0, f);
      SumOfWithout(b, i, f);
    }
  }

  lemma {:induction false} SumOfLeq(rows: seq<Scored>, f: Scored -> real, g: Scored -> real)
    requires forall r :: r in rows ==> f(r) <= g(r)
    ensures SumOf(rows, f) <= SumOf(rows, g)
  {
    if rows != [] {
      SumOfLeq(rows[1..], f, g);
    }
  }

  function P(r: Scored): real { r.p }
  function Y(r: Scored): real { r.y as real }
  function Miss(r: Scored): real { Abs(r.p - r.y as real) }
  function SquaredMiss(r: Scored): real { (r.p - r.y as real) * (r.p - r.y as real) }
  function One(r: Scored): real { 1.0 }

  lemma {:induction false} SumOfOne(rows: seq<Scored>)
    ensures SumOf(rows, One) == |rows| as real
  {
    if rows != [] {
      SumOfOne(rows[1..]);
    }
  }

  // ---- bins ----

  /** `mean(p) - mean(y)` of a bin. */
  function Gap(bin: seq<Scored>): real
    requires bin != []
  {
    SumOf(bin, P) / |bin| as real - SumOf(bin, Y) / |bin| as real
  }

  /** A gap, weighted by the part of the rows that its bin holds. */
  function Weighted(count: nat, n: nat, gap: real): real
    requires n > 0
  {
    count as real / n as real * Abs(gap)
  }

  /** What one bin adds to the error; empty bins add nothing. */
  function Share(bin: seq<Scored>, n: nat): real
    requires n > 0
  {
    if bin == [] then 0.0 else Weighted(|bin|, n, Gap(bin))
  }

  /** Expected calibration error. */
  function Ece(bins: seq<seq<Scored>>, n: nat): real
    requires n > 0
  {
    if bins == [] then 0.0 else Ece(bins[..|bins| - 1], n) + Share(bins[|bins| - 1], n)
  }

  lemma EceSnoc(bins: seq<seq<Scored>>, k: nat, n: nat)
    requires n > 0 && k < |bins|
    ensures Ece(bins[..k + 1], n) == Ece(bins[..k], n) + Share(bins[k], n)
  {
    assert bins[..k + 1][..k] == bins[..k];
  }

  function Flat(bins: seq<seq<Scored>>): seq<Scored> {
    if bins == [] then [] else Flat(bins[..|bins| - 1]) + bins[|bins| - 1]
  }

  ghost predicate Partitions(bins: seq<seq<Scored>>, rows: seq<Scored>) {
    multiset(Flat(bins)) == multiset(rows)
  }

  function Bias(bin: seq<Scored>): real {
    SumOf(bin, P) - SumOf(bin, Y)
  }

  /** A bin contributes its share of the summed misses. */
  lemma Contribution(bin: seq<Scored>, n: nat)
    requires n > 0
    ensures Share(bin, n) == Abs(Bias(bin)) / n as real
  {
    if bin != [] {
      ShareArithmetic(SumOf(bin, P), SumOf(bin, Y), |bin| as real, n as real);
    }
  }

  lemma ShareArithmetic(p: real, y: real, k: real, n: real)
    requires k > 0.0 && n > 0.0
    ensures k / n * Abs(p / k - y / k) == Abs(p - y) / n
  {
    var g := Abs(p / k - y / k);
    RealDivSum(p, y, k);
    RealDivTimes(p - y, k);
    assert g * k == Abs(p - y);
    RealDivTimes(k, n);
    assert (k / n * g) * n == (k / n * n) * g;
    RealQuotient(k / n * g, Abs(p - y), n);
  }

  function BinnedBias(bins: seq<seq<Scored>>): real {
    if bins == [] then 0.0 else BinnedBias(bins[..|bins| - 1]) + Abs(Bias(bins[|bins| - 1]))
  }

  lemma {:induction false} EceIsBinnedBias(bins: seq<seq<Scored>>, n: nat)
    requires n > 0
    ensures Ece(bins, n) == BinnedBias(bins) / n as real
    decreases |bins|
  {
    if bins != [] {
      var front, last := bins[..|bins| - 1], bins[|bins| - 1];
      EceIsBinnedBias(front, n);
      Contribution(last, n);
      RealDivSum(BinnedBias(front), Abs(Bias(last)), n as real);
    }
  }

  lemma {:induction false} BiasWithinMisses(bin: seq<Scored>)
    ensures Abs(Bias(bin)) <= SumOf(bin, Miss)
  {
    if bin != [] {
      BiasWithinMisses(bin[1..]);
    }
  }

  lemma {:induction false} BinnedBiasBetween(bins: seq<seq<Scored>>)
    ensures Abs(Bias(Flat(bins))) <= BinnedBias(bins) <= SumOf(Flat(bins), Miss)
    decreases |bins|
  {
    if bins != [] {
      var front, last := bins[..|bins| - 1], bins[|bins| - 1];
      BinnedBiasBetween(front);
      BiasWithinMisses(last);
      SumOfAppend(Flat(front), last, P);
      SumOfAppend(Flat(front), last, Y);
      SumOfAppend(Flat(front), last, Miss);
    }
  }

  /** One more term of the Cauchy-Schwarz inequality. */
  lemma CauchyStep(A: real, Q: real, n: real, a: real)
    requires n >= 0.0 && SquareWithin(A, n, Q) && Q >= 0.0 && (n == 0.0 ==> A == 0.0)
    ensures SquareWithin(A + a, n + 1.0, Q + a * a)
  {
    assert (A + a) * (A + a) == A * A + 2.0 * (A * a) + a * a;
    assert (n + 1.0) * (Q + a * a) == n * Q + n * (a * a) + Q + a * a;
    assert 2.0 * (A * a) <= n * (a * a) + Q by {
      if n == 0.0 {
        assert A * a == 0.0;
      } else {
        var t := n * a - A;
        assert t * t >= 0.0;
        assert t * t == n * (n * (a * a)) - 2.0 * (n * (A * a)) + A * A;
        var excess := n * (a * a) + Q - 2.0 * (A * a);
        assert n * excess == n * (n * (a * a)) + n * Q - 2.0 * (n * (A * a));
        assert n * excess >= 0.0;
      }
    }
  }

  predicate SquareWithin(x: real, n: real, y: real) {
    x * x <= n * y
  }

  /** `(sum of |p - y|)^2 <= n * sum of (p - y)^2`. */
  lemma {:induction false} CauchySchwarz(rows: seq<Scored>)
    ensures SumOf(rows, SquaredMiss) >= 0.0
    ensures rows == [] ==> SumOf(rows, Miss) == 0.0
    ensures SquareWithin(SumOf(rows, Miss), |rows| as real, SumOf(rows, SquaredMiss))
  {
    if rows != [] {
      CauchySchwarz(rows[1..]);
      var a := Miss(rows[0]);
      assert a * a >= 0.0;
      assert a * a == SquaredMiss(rows[0]);
      assert |rows| as real == |rows[1..]| as real + 1.0;
      CauchyStep(SumOf(rows[1..], Miss), SumOf(rows[1..], SquaredMiss), |rows[1..]| as real, a);
    }
  }

  lemma BinnedBiasBounds(bins: seq<seq<Scored>>, rows: seq<Scored>)
    requires ValidRows(rows) && Partitions(bins, rows)
    ensures Abs(SumOf(rows, P) - SumOf(rows, Y)) <= BinnedBias(bins) <= SumOf(rows, Miss) <= |rows| as real
  {
    BinnedBiasBetween(bins);
    SumOfPermutes(Flat(bins), rows, P);
    SumOfPermutes(Flat(bins), rows, Y);
    SumOfPermutes(Flat(bins), rows, Miss);
    assert forall r :: r in rows ==> ValidRow(r) && Miss(r) <= One(r);
    SumOfLeq(rows, Miss, One);
    SumOfOne(rows);
  }

  function Mean(rows: seq<Scored>, f: Scored -> real): real
    requires rows != []
  {
    SumOf(rows, f) / |rows| as real
  }

  /** The bounds the error has to respect. */
  predicate WithinBounds(ece: real, rows: seq<Scored>)
    requires rows != []
  {
    Bounded(ece, Mean(rows, P), Mean(rows, Y), Mean(rows, SquaredMiss))
  }

  predicate Bounded(ece: real, meanP: real, meanY: real, brier: real) {
    Abs(meanP - meanY) <= ece <= 1.0 && ece * ece <= brier
  }

  lemma BoundedQuotients(p: real, y: real, binned: real, misses: real, squares: real, n: real, ece: real, meanP: real, meanY: real, brier: real)
    requires n > 0.0 && Abs(p - y) <= binned <= misses <= n && SquareWithin(misses, n, squares)
    requires ece == binned / n && meanP == p / n && meanY == y / n && brier == squares / n
    ensures Bounded(ece, meanP, meanY, brier)
  {
    DifferenceOfQuotients(p, y, binned, n);
    QuotientAtMostOne(binned, n);
    SquaresBound(binned, misses, squares, n);
  }

  /** What the bounds come to once the bins are reduced to one number. */
  lemma BoundsFrom(rows: seq<Scored>, binned: real, ece: real)
    requires rows != [] && ece == binned / |rows| as real
    requires Abs(SumOf(rows, P) - SumOf(rows, Y)) <= binned <= SumOf(rows, Miss) <= |rows| as real
    ensures WithinBounds(ece, rows)
  {
    CauchySchwarz(rows);
    BoundedQuotients(SumOf(rows, P), SumOf(rows, Y), binned, SumOf(rows, Miss), SumOf(rows, SquaredMiss), |rows| as real,
                     ece, Mean(rows, P), Mean(rows, Y), Mean(rows, SquaredMiss));
  }

  /** For every binning: bias <= ECE <= 1 and ECE squared <= Brier. */
  lemma EceBounds(bins: seq<seq<Scored>>, rows: seq<Scored>)
    requires rows != [] && ValidRows(rows) && Partitions(bins, rows)
    ensures WithinBounds(Ece(bins, |rows|), rows)
  {
    EceIsBinnedBias(bins, |rows|);
    BinnedBiasBounds(bins, rows);
    BoundsFrom(rows, BinnedBias(bins), Ece(bins, |rows|));
  }

  lemma DifferenceOfQuotients(p: real, y: real, bound: real, n: real)
    requires n > 0.0 && Abs(p - y) <= bound
    ensures Abs(p / n - y / n) <= bound / n
  {
    RealDivSum(p, y, n);
    RealDivSum(y, p, n);
    RealDivMonotone(p - y, bound, n);
    RealDivMonotone(y - p, bound, n);
  }

  lemma QuotientAtMostOne(x: real, n: real)
    requires n > 0.0 && x <= n
    ensures x / n <= 1.0
  {
    RealDivMonotone(x, n, n);
    RealQuotient(1.0, n, n);
  }

  lemma SquaresBound(binned: real, misses: real, squares: real, n: real)
    requires n > 0.0 && 0.0 <= binned <= misses && misses * misses <= n * squares
    ensures (binned / n) * (binned / n) <= squares / n
  {
    SquareMonotone(binned, misses);
    SquareOfQuotient(binned, squares, n);
  }

  // ---- the same, from the rows' own columns ----

  function Total(xs: seq<real>): real {
    if xs == [] then 0.0 else xs[0] + Total(xs[1..])
  }

  function Probabilities(rows: seq<Scored>): seq<real> { seq(|rows|, i requires 0 <= i < |rows| => rows[i].p) }
  function Occurrences(rows: seq<Scored>): seq<real> { seq(|rows|, i requires 0 <= i < |rows| => rows[i].y as real) }

  function Square(x: real): real { x * x }

  function SquaredErrors(rows: seq<Scored>): seq<real> {
    seq(|rows|, i requires 0 <= i < |rows| => Square(rows[i].p - rows[i].y as real))
  }

  lemma {:induction false} SumsAreTotals(rows: seq<Scored>)
    ensures SumOf(rows, P) == Total(Probabilities(rows)) && SumOf(rows, Y) == Total(Occurrences(rows))
    ensures SumOf(rows, SquaredMiss) == Total(SquaredErrors(rows))
  {
    if rows != [] {
      SumsAreTotals(rows[1..]);
      assert Probabilities(rows)[1..] == Probabilities(rows[1..]);
      assert Occurrences(rows)[1..] == Occurrences(rows[1..]);
      assert SquaredErrors(rows)[1..] == SquaredErrors(rows[1..]);
      assert SquaredMiss(rows[0]) == SquaredErrors(rows)[0];
    }
  }

  /** By how much the probabilities of a bin exceed, or fall short of, what came true. */
  function Excess(bin: seq<Scored>): real {
    Abs(Total(Probabilities(bin)) - Total(Occurrences(bin)))
  }

  function Excesses(bins: seq<seq<Scored>>): seq<real> {
    seq(|bins|, k requires 0 <= k < |bins| => Excess(bins[k]))
  }

  lemma {:induction false} TotalSnoc(xs: seq<real>, x: real)
    ensures Total(xs + [x]) == Total(xs) + x
  {
    if xs != [] {
      assert (xs + [x])[1..] == xs[1..] + [x];
      TotalSnoc(xs[1..], x);
    } else {
      assert [x][1..] == [] && xs + [x] == [x];
    }
  }

  lemma {:induction false} BinnedBiasIsExcess(bins: seq<seq<Scored>>)
    ensures BinnedBias(bins) == Total(Excesses(bins))
    decreases |bins|
  {
    if bins != [] {
      var init, last := bins[..|bins| - 1], bins[|bins| - 1];
      BinnedBiasIsExcess(init);
      SumsAreTotals(last);
      TotalSnoc(Excesses(init), Excess(last));
      assert Excesses(bins) == Excesses(init) + [Excess(last)];
    }
  }

  /** The error is the excesses of the bins, averaged over all rows. */
  lemma EceIsExcess(bins: seq<seq<Scored>>, n: nat)
    requires n > 0
    ensures Ece(bins, n) == Total(Excesses(bins)) / n as real
  {
    EceIsBinnedBias(bins, n);
    BinnedBiasIsExcess(bins);
  }

  /** The bounds, said of the rows: mean probability against frequency, and the Brier score. */
  lemma EceBoundsAre(bins: seq<seq<Scored>>, rows: seq<Scored>)
    requires rows != [] && ValidRows(rows) && Partitions(bins, rows)
    ensures var n, ece := |rows| as real, Ece(bins, |rows|);
            Bounded(ece, Total(Probabilities(rows)) / n, Total(Occurrences(rows)) / n, Total(SquaredErrors(rows)) / n)
  {
    EceBounds(bins, rows);
    SumsAreTotals(rows);
  }

  // ---- equal mass ----

  /** `sorted(rows, key=(p, forecast_id, score_id))`. */
  predicate ScoreLeq(a: Scored, b: Scored) {
    if a.p != b.p then a.p < b.p
    else if a.forecastId != b.forecastId then StrLt(a.forecastId, b.forecastId)
    else StrLeq(a.scoreId, b.scoreId)
  }

  lemma ScoreLeqOrder()
    ensures TotalPreorder(ScoreLeq)
    ensures forall a, b :: ScoreLeq(a, b) && ScoreLeq(b, a) ==> a.scoreId == b.scoreId
  {
    StrLeqOrder();
    forall a, b ensures ScoreLeq(a, b) || ScoreLeq(b, a) {
      StrTotal(a.forecastId, b.forecastId);
      StrTotal(a.scoreId, b.scoreId);
    }
    forall a, b, c | ScoreLeq(a, b) && ScoreLeq(b, c) ensures ScoreLeq(a, c) {
      ScoreTransitive(a, b, c);
    }
    forall a, b | ScoreLeq(a, b) && ScoreLeq(b, a) ensures a.scoreId == b.scoreId {
      StrAsymmetric(a.forecastId, b.forecastId);
    }
  }

  lemma ScoreTransitive(a: Scored, b: Scored, c: Scored)
    requires ScoreLeq(a, b) && ScoreLeq(b, c)
    ensures ScoreLeq(a, c)
  {
    StrLeqOrder();
    StrAsymmetric(a.forecastId, b.forecastId);
    if StrLt(a.forecastId, b.forecastId) && StrLt(b.forecastId, c.forecastId) {
      StrTransitive(a.forecastId, b.forecastId, c.forecastId);
      StrAsymmetric(a.forecastId, c.forecastId);
    }
  }

  /** The scores table has one row per score id. */
  ghost predicate UniqueScores(rows: seq<Scored>) {
    forall a, b :: a in rows && b in rows && a.scoreId == b.scoreId ==> a == b
  }

  const BIN_COUNT: nat := 10

  /** Where run `k` of `b` starts. */
  function Cut(k: nat, n: nat, b: nat): nat
    requires b > 0
  {
    k * n / b
  }

  /** The runs start at 0, end at `n`, and are `n / b` or one more rows long. */
  lemma CutFacts(k: nat, n: nat, b: nat)
    requires b > 0
    ensures Cut(0, n, b) == 0 && Cut(b, n, b) == n
    ensures Cut(k, n, b) + n / b <= Cut(k + 1, n, b) <= Cut(k, n, b) + n / b + 1
  {
    DivUnique(b * n, b, n);
    DivUnique(0, b, 0);
    assert (k + 1) * n == k * n + n;
    DivSum(k * n, n, b);
  }

  lemma {:induction false} CutMonotone(j: nat, k: nat, n: nat, b: nat)
    requires b > 0 && j <= k
    ensures Cut(j, n, b) <= Cut(k, n, b)
    decreases k - j
  {
    if j < k {
      CutFacts(j, n, b);
      CutMonotone(j + 1, k, n, b);
    }
  }

  lemma CutBounds(k: nat, n: nat, b: nat)
    requires k < b
    ensures 0 <= Cut(k, n, b) <= Cut(k + 1, n, b) <= n
  {
    CutFacts(0, n, b);
    CutMonotone(k, k + 1, n, b);
    CutMonotone(k + 1, b, n, b);
  }

  function BinsFor(n: nat): (b: nat)
    ensures b <= n && b <= BIN_COUNT && (b == n || b == BIN_COUNT)
  {
    if n < BIN_COUNT then n else BIN_COUNT
  }

  function Run(ordered: seq<Scored>, k: nat): seq<Scored>
    requires k < BinsFor(|ordered|)
  {
    var n, b := |ordered|, BinsFor(|ordered|);
    CutBounds(k, n, b);
    ordered[Cut(k, n, b)..Cut(k + 1, n, b)]
  }

  function EqualMass(rows: seq<Scored>): seq<seq<Scored>> {
    var ordered := SortBy(rows, ScoreLeq);
    seq(BinsFor(|ordered|), k requires 0 <= k < BinsFor(|ordered|) => Run(ordered, k))
  }

  lemma FlatSnoc(bins: seq<seq<Scored>>, ordered: seq<Scored>, k: nat, lo: nat, hi: nat)
    requires k < |bins| && lo <= hi <= |ordered|
    requires Flat(bins[..k]) == ordered[..lo] && bins[k] == ordered[lo..hi]
    ensures Flat(bins[..k + 1]) == ordered[..hi]
  {
    assert bins[..k + 1][..k] == bins[..k];
    assert ordered[..lo] + ordered[lo..hi] == ordered[..hi];
  }

  lemma RunIs(rows: seq<Scored>, k: nat)
    requires k < |EqualMass(rows)|
    ensures var n, b := |rows|, BinsFor(|rows|);
            && |EqualMass(rows)| == b && Cut(k, n, b) <= Cut(k + 1, n, b) <= n
            && EqualMass(rows)[k] == SortBy(rows, ScoreLeq)[Cut(k, n, b)..Cut(k + 1, n, b)]
  {
    CutBounds(k, |rows|, BinsFor(|rows|));
    assert EqualMass(rows)[k] == Run(SortBy(rows, ScoreLeq), k);
  }

  lemma {:induction false} RunsFlatten(rows: seq<Scored>, k: nat)
    requires k <= |EqualMass(rows)| && rows != []
    ensures Cut(k, |rows|, BinsFor(|rows|)) <= |rows|
    ensures Flat(EqualMass(rows)[..k]) == SortBy(rows, ScoreLeq)[..Cut(k, |rows|, BinsFor(|rows|))]
  {
    var n, b := |rows|, BinsFor(|rows|);
    if k == 0 {
      CutFacts(0, n, b);
    } else {
      RunsFlatten(rows, k - 1);
      RunIs(rows, k - 1);
      FlatSnoc(EqualMass(rows), SortBy(rows, ScoreLeq), k - 1, Cut(k - 1, n, b), Cut(k, n, b));
    }
  }

  lemma RunSize(rows: seq<Scored>, k: nat)
    requires k < |EqualMass(rows)|
    ensures BinsFor(|rows|) > 0 && 1 <= |rows| / BinsFor(|rows|)
    ensures |rows| / BinsFor(|rows|) <= |EqualMass(rows)[k]| <= |rows| / BinsFor(|rows|) + 1
  {
    RunIs(rows, k);
    CutFacts(k, |rows|, BinsFor(|rows|));
    DivSum(|rows| - BinsFor(|rows|), BinsFor(|rows|), BinsFor(|rows|));
    DivUnique(BinsFor(|rows|), BinsFor(|rows|), 1);
  }

  lemma PlaceInRun(rows: seq<Scored>, k: nat, a: Scored) returns (x: nat)
    requires k < |EqualMass(rows)| && a in EqualMass(rows)[k]
    ensures Cut(k, |rows|, BinsFor(|rows|)) <= x < Cut(k + 1, |rows|, BinsFor(|rows|)) <= |rows|
    ensures SortBy(rows, ScoreLeq)[x] == a
  {
    CutBounds(k, |rows|, BinsFor(|rows|));
    var run := EqualMass(rows)[k];
    assert run == Run(SortBy(rows, ScoreLeq), k);
    var at :| 0 <= at < |run| && run[at] == a;
    x := Cut(k, |rows|, BinsFor(|rows|)) + at;
  }

  lemma SortedPair(rows: seq<Scored>, x: nat, y: nat)
    requires x < y < |rows|
    ensures ScoreLeq(SortBy(rows, ScoreLeq)[x], SortBy(rows, ScoreLeq)[y])
  {
    ScoreLeqOrder();
    SortBySorts(rows, ScoreLeq);
  }

  lemma RunsAscend(rows: seq<Scored>, j: nat, k: nat, a: Scored, b: Scored)
    requires j < k < |EqualMass(rows)| && a in EqualMass(rows)[j] && b in EqualMass(rows)[k]
    ensures ScoreLeq(a, b)
  {
    CutMonotone(j + 1, k, |rows|, BinsFor(|rows|));
    var x := PlaceInRun(rows, j, a);
    var y := PlaceInRun(rows, k, b);
    SortedPair(rows, x, y);
  }

  /** Lower probability first, then by forecast and score. */
  predicate NotAbove(a: Scored, b: Scored) {
    || a.p < b.p
    || (a.p == b.p && StrLt(a.forecastId, b.forecastId))
    || (a.p == b.p && a.forecastId == b.forecastId && (a.scoreId == b.scoreId || StrLt(a.scoreId, b.scoreId)))
  }

  predicate IsRun(run: seq<Scored>, ordered: seq<Scored>, k: nat, b: nat)
    requires b > 0
  {
    var lo, hi := k * |ordered| / b, (k + 1) * |ordered| / b;
    0 <= lo <= hi <= |ordered| && run == ordered[lo..hi]
  }

  /** Run `k` of `b` holds the rows from `k * n / b`, rounded down, of the sorted list. */
  lemma RunsAre(rows: seq<Scored>) returns (ordered: seq<Scored>)
    requires rows != []
    ensures multiset(ordered) == multiset(rows) && |ordered| == |rows|
    ensures forall i, j :: 0 <= i < j < |ordered| ==> NotAbove(ordered[i], ordered[j])
    ensures |EqualMass(rows)| == if |rows| < 10 then |rows| else 10
    ensures forall k :: 0 <= k < |EqualMass(rows)| ==> IsRun(EqualMass(rows)[k], ordered, k, |EqualMass(rows)|)
  {
    ordered := SortBy(rows, ScoreLeq);
    ScoreLeqOrder();
    SortBySorts(rows, ScoreLeq);
    forall i, j | 0 <= i < j < |ordered| ensures NotAbove(ordered[i], ordered[j]) {
      assert ScoreLeq(ordered[i], ordered[j]);
    }
    forall k | 0 <= k < |EqualMass(rows)| ensures IsRun(EqualMass(rows)[k], ordered, k, |EqualMass(rows)|) {
      CutBounds(k, |rows|, BinsFor(|rows|));
    }
  }

  /** Equal-mass binning, whatever the input order: `min(10, n)` consecutive non-empty runs of
      the sorted rows, sizes differing by at most one, that partition the rows. */
  lemma EqualMassRuns(rows: seq<Scored>)
    requires rows != []
    ensures Partitions(EqualMass(rows), rows) && |EqualMass(rows)| == BinsFor(|rows|)
    ensures Flat(EqualMass(rows)) == SortBy(rows, ScoreLeq)
    ensures forall k :: 0 <= k < |EqualMass(rows)| ==> EqualMass(rows)[k] != []
    ensures forall j, k :: 0 <= j < |EqualMass(rows)| && 0 <= k < |EqualMass(rows)| ==>
              |EqualMass(rows)[j]| <= |EqualMass(rows)[k]| + 1
    ensures forall j, k, a, b :: 0 <= j < k < |EqualMass(rows)| && a in EqualMass(rows)[j] && b in EqualMass(rows)[k] ==>
              ScoreLeq(a, b)
  {
    var ordered, bins := SortBy(rows, ScoreLeq), EqualMass(rows);
    RunsFlatten(rows, |bins|);
    CutFacts(0, |rows|, |bins|);
    assert bins[..|bins|] == bins && ordered[..|rows|] == ordered;
    forall k | 0 <= k < |bins| ensures |rows| / |bins| <= |bins[k]| <= |rows| / |bins| + 1 && bins[k] != [] {
      RunSize(rows, k);
    }
    forall j, k, a, b | 0 <= j < k < |bins| && a in bins[j] && b in bins[k] ensures ScoreLeq(a, b) {
      RunsAscend(rows, j, k, a, b);
    }
  }

  // ---- equal width ----

  function BinIndex(p: real): nat
    requires 0.0 <= p <= 1.0
  {
    var i := (p * 10.0).Floor;
    if i < 9 then i else 9
  }

  /** The lower edge belongs to the upper bin; the top bin is closed. */
  lemma BinIndexIff(p: real, k: nat)
    requires 0.0 <= p <= 1.0 && k <= 9
    ensures BinIndex(p) == k <==> k as real / 10.0 <= p && (k == 9 || p < (k + 1) as real / 10.0)
  {
  }

  function InBin(k: nat): Scored -> bool {
    (r: Scored) => 0.0 <= r.p <= 1.0 && BinIndex(r.p) == k
  }

  lemma {:induction false} FlatUpdate(bins: seq<seq<Scored>>, k: nat, r: Scored)
    requires k < |bins|
    ensures multiset(Flat(bins[k := bins[k] + [r]])) == multiset(Flat(bins)) + multiset{r}
    decreases |bins|
  {
    var after, last := bins[k := bins[k] + [r]], |bins| - 1;
    if k == last {
      assert after[..last] == bins[..last];
    } else {
      assert after[..last] == bins[..last][k := bins[k] + [r]];
      FlatUpdate(bins[..last], k, r);
    }
  }

  function EqualWidth(rows: seq<Scored>): seq<seq<Scored>> {
    seq(10, k requires 0 <= k < 10 => Filter(rows, InBin(k)))
  }

  lemma EqualWidthSnoc(rows: seq<Scored>, r: Scored)
    requires ValidRow(r)
    ensures var before, k := EqualWidth(rows), BinIndex(r.p);
            k < 10 && EqualWidth(rows + [r]) == before[k := before[k] + [r]]
  {
    var before, after, at := EqualWidth(rows), EqualWidth(rows + [r]), BinIndex(r.p);
    forall k | 0 <= k < 10 ensures after[k] == before[at := before[at] + [r]][k] {
      FilterSnoc(rows, r, InBin(k));
      assert after[k] == Filter(rows + [r], InBin(k)) && before[k] == Filter(rows, InBin(k));
    }
  }

  /** Bin `k` of the default policy holds the rows from `k / 10` up to, but for the last, the next
      edge, in their order. */
  lemma EqualWidthIs(rows: seq<Scored>, k: nat, r: Scored)
    requires k < 10 && ValidRows(rows)
    ensures multiset(EqualWidth(rows)[k])[r]
         == if k as real / 10.0 <= r.p && (k == 9 || r.p < (k + 1) as real / 10.0) then multiset(rows)[r] else 0
    ensures |EqualWidth(rows)| == 10
  {
    FilterMultiset(rows, InBin(k), r);
    if r in rows {
      BinIndexIff(r.p, k);
    }
  }

  method EqualWidthBins(rows: seq<Scored>) returns (bins: seq<seq<Scored>>)
    requires ValidRows(rows)
    ensures bins == EqualWidth(rows) && Partitions(bins, rows)
  {
    bins := seq(10, i => []);
    FlatOfEmpty(bins);
    for i := 0 to |rows|
      invariant bins == EqualWidth(rows[..i]) && Partitions(bins, rows[..i])
    {
      assert ValidRow(rows[i]);
      var idx := BinIndex(rows[i].p);
      assert rows[..i + 1] == rows[..i] + [rows[i]];
      EqualWidthSnoc(rows[..i], rows[i]);
      FlatUpdate(bins, idx, rows[i]);
      bins := bins[idx := bins[idx] + [rows[i]]];
    }
    assert rows[..|rows|] == rows;
  }

  lemma {:induction false} FlatOfEmpty(bins: seq<seq<Scored>>)
    requires forall k :: 0 <= k < |bins| ==> bins[k] == []
    ensures Flat(bins) == []
    decreases |bins|
  {
    if bins != [] {
      FlatOfEmpty(bins[..|bins| - 1]);
    }
  }

  // ---- the two policies ----

  datatype BinReport = BinReport(
    index: nat, lower: real, upper: real, count: nat,
    meanProbability: Option<real>, observedFrequency: Option<real>, gap: Option<real>)

  function Report(k: nat, lower: real, upper: real, bin: seq<Scored>): BinReport {
    if bin == [] then BinReport(k, lower, upper, 0, None, None, None)
    else BinReport(k, lower, upper, |bin|, Some(SumOf(bin, P) / |bin| as real), Some(SumOf(bin, Y) / |bin| as real), Some(Gap(bin)))
  }

  /** Whatever its edges, an entry reports this bin. */
  predicate Describes(b: BinReport, bin: seq<Scored>, k: nat) {
    b == Report(k, b.lower, b.upper, bin)
  }

  /** What an entry says: its bin's place and size, the mean of its probabilities, the frequency
      with which they came true, and by how much the first exceeds the second. */
  lemma EntryTells(b: BinReport, bin: seq<Scored>, k: nat)
    requires Describes(b, bin, k)
    ensures b.index == k && b.count == |bin|
    ensures bin == [] ==> b.meanProbability == None && b.observedFrequency == None && b.gap == None
    ensures bin != [] ==>
              && b.meanProbability == Some(Total(Probabilities(bin)) / |bin| as real)
              && b.observedFrequency == Some(Total(Occurrences(bin)) / |bin| as real)
              && b.gap == Some(b.meanProbability.value - b.observedFrequency.value)
  {
    SumsAreTotals(bin);
  }

  ghost predicate Panel(panel: seq<BinReport>, bins: seq<seq<Scored>>) {
    |panel| == |bins| && forall k :: 0 <= k < |panel| ==> Describes(panel[k], bins[k], k)
  }

  lemma PanelSnoc(panel: seq<BinReport>, bins: seq<seq<Scored>>, k: nat, entry: BinReport)
    requires k < |bins| && Panel(panel, bins[..k]) && Describes(entry, bins[k], k)
    ensures Panel(panel + [entry], bins[..k + 1])
  {
  }

  ghost predicate Decades(panel: seq<BinReport>) {
    forall k :: 0 <= k < |panel| ==> panel[k].lower == k as real / 10.0 && panel[k].upper == (k + 1) as real / 10.0
  }

  /** `_ece_and_bins`, the default policy. */
  method EceEqualWidth(rows: seq<Scored>) returns (ece: real, panel: seq<BinReport>)
    requires rows != [] && ValidRows(rows)
    ensures ece == Ece(EqualWidth(rows), |rows|) && Panel(panel, EqualWidth(rows)) && Decades(panel)
    ensures Partitions(EqualWidth(rows), rows)
  {
    var bins := EqualWidthBins(rows);
    ece, panel := ReportDecades(bins, |rows|);
  }

  /** The reporting loop: empty bins are reported but add nothing. */
  method ReportDecades(bins: seq<seq<Scored>>, n: nat) returns (ece: real, panel: seq<BinReport>)
    requires n > 0
    ensures ece == Ece(bins, n) && Panel(panel, bins) && Decades(panel)
  {
    ece, panel := 0.0, [];
    for k := 0 to |bins|
      invariant ece == Ece(bins[..k], n) && Panel(panel, bins[..k]) && Decades(panel)
    {
      var bin, lower, upper := bins[k], k as real / 10.0, (k + 1) as real / 10.0;
      EceSnoc(bins, k, n);
      PanelSnoc(panel, bins, k, Report(k, lower, upper, bin));
      if bin == [] {
        panel := panel + [BinReport(k, lower, upper, 0, None, None, None)];
        continue;
      }
      var gap := Gap(bin);
      ece, panel := ece + Weighted(|bin|, n, gap), panel + [Report(k, lower, upper, bin)];
    }
    assert bins[..|bins|] == bins;
  }

  method EqualMassBins(rows: seq<Scored>) returns (bins: seq<seq<Scored>>)
    requires rows != []
    ensures bins == EqualMass(rows)
  {
    var ordered := SortBy(rows, ScoreLeq);
    var n := |ordered|;
    var count := if n < BIN_COUNT then n else BIN_COUNT;
    bins := [];
    for idx := 0 to count
      invariant bins == EqualMass(rows)[..idx]
    {
      CutBounds(idx, n, count);
      var start, end := idx * n / count, (idx + 1) * n / count;
      assert EqualMass(rows)[idx] == Run(ordered, idx);
      bins := bins + [ordered[start..end]];
    }
  }

  ghost predicate Spans(panel: seq<BinReport>, bins: seq<seq<Scored>>)
    requires |panel| == |bins|
  {
    forall k :: 0 <= k < |panel| ==>
      && (forall r :: r in bins[k] ==> panel[k].lower <= r.p <= panel[k].upper)
      && (exists r :: r in bins[k] && r.p == panel[k].lower) && exists r :: r in bins[k] && r.p == panel[k].upper
  }

  ghost predicate Extremes(bin: seq<Scored>, lower: real, upper: real) {
    && (forall r :: r in bin ==> lower <= r.p <= upper)
    && (exists r :: r in bin && r.p == lower) && exists r :: r in bin && r.p == upper
  }

  lemma SpansSnoc(panel: seq<BinReport>, bins: seq<seq<Scored>>, k: nat, entry: BinReport)
    requires |panel| == k < |bins| && Spans(panel, bins[..k]) && Spans([entry], [bins[k]])
    ensures Spans(panel + [entry], bins[..k + 1])
  {
    var after := panel + [entry];
    forall j | 0 <= j <= k
      ensures (forall r :: r in bins[j] ==> after[j].lower <= r.p <= after[j].upper)
              && (exists r :: r in bins[j] && r.p == after[j].lower) && exists r :: r in bins[j] && r.p == after[j].upper
    {
      if j < k {
        assert bins[..k][j] == bins[j] && after[j] == panel[j];
      } else {
        assert [bins[k]][0] == bins[j] && after[j] == [entry][0];
      }
    }
  }

  lemma RunReported(panel: seq<BinReport>, bins: seq<seq<Scored>>, k: nat, n: nat, lower: real, upper: real)
    requires n > 0 && |panel| == k < |bins| && bins[k] != []
    requires Panel(panel, bins[..k]) && Spans(panel, bins[..k]) && Extremes(bins[k], lower, upper)
    ensures var after := panel + [Report(k, lower, upper, bins[k])];
            |after| == |bins[..k + 1]| && Panel(after, bins[..k + 1]) && Spans(after, bins[..k + 1])
    ensures Ece(bins[..k + 1], n) == Ece(bins[..k], n) + Weighted(|bins[k]|, n, Gap(bins[k]))
  {
    var entry := Report(k, lower, upper, bins[k]);
    EceSnoc(bins, k, n);
    PanelSnoc(panel, bins, k, entry);
    assert Spans([entry], [bins[k]]);
    SpansSnoc(panel, bins, k, entry);
  }

  /** The reporting loop of `_ece_equal_mass`. */
  method ReportRuns(bins: seq<seq<Scored>>, n: nat) returns (ece: real, panel: seq<BinReport>)
    requires n > 0 && forall k :: 0 <= k < |bins| ==> bins[k] != []
    ensures ece == Ece(bins, n) && Panel(panel, bins) && Spans(panel, bins)
  {
    ece, panel := 0.0, [];
    for k := 0 to |bins|
      invariant ece == Ece(bins[..k], n) && Panel(panel, bins[..k]) && Spans(panel, bins[..k])
    {
      var bin := bins[k];
      var lower, upper := LowestAndHighest(bin);
      var gap := Gap(bin);
      RunReported(panel, bins, k, n, lower, upper);
      ece, panel := ece + Weighted(|bin|, n, gap), panel + [Report(k, lower, upper, bin)];
    }
    assert bins[..|bins|] == bins;
  }

  /** `_ece_equal_mass`. */
  method EceEqualMass(rows: seq<Scored>) returns (ece: real, panel: seq<BinReport>)
    ensures rows == [] ==> ece == 0.0 && panel == []
    ensures rows != [] ==> ece == Ece(EqualMass(rows), |rows|)
    ensures Panel(panel, EqualMass(rows)) && Spans(panel, EqualMass(rows))
  {
    if rows == [] {
      return 0.0, [];
    }
    var bins := EqualMassBins(rows);
    EqualMassRuns(rows);
    ece, panel := ReportRuns(bins, |rows|);
  }

  method LowestAndHighest(bin: seq<Scored>) returns (lower: real, upper: real)
    requires bin != []
    ensures Extremes(bin, lower, upper)
  {
    lower, upper := bin[0].p, bin[0].p;
    for i := 1 to |bin|
      invariant forall r :: r in bin[..i] ==> lower <= r.p <= upper
      invariant (exists r :: r in bin && r.p == lower) && exists r :: r in bin && r.p == upper
    {
      assert bin[..i + 1] == bin[..i] + [bin[i]];
      assert bin[i] in bin;
      lower, upper := Min(lower, bin[i].p), Max(upper, bin[i].p);
    }
    assert bin[..|bin|] == bin;
  }

  /** The reported error does not depend on the order the rows come in, under either policy. */
  lemma EceIgnoresOrder(a: seq<Scored>, b: seq<Scored>)
    requires multiset(a) == multiset(b) && a != [] && |a| == |b|
    requires UniqueScores(a)
    ensures EqualMass(a) == EqualMass(b)
    ensures Ece(EqualWidth(a), |a|) == Ece(EqualWidth(b), |b|)
  {
    ScoreLeqOrder();
    SortIgnoresOrder(a, b, ScoreLeq);
    forall k | 0 <= k < 10 ensures multiset(EqualWidth(a)[k]) == multiset(EqualWidth(b)[k]) {
      FilterPermutes(a, b, InBin(k));
    }
    BinnedBiasPermutes(EqualWidth(a), EqualWidth(b));
    EceIsBinnedBias(EqualWidth(a), |a|);
    EceIsBinnedBias(EqualWidth(b), |b|);
  }

  lemma {:induction false} BinnedBiasPermutes(a: seq<seq<Scored>>, b: seq<seq<Scored>>)
    requires |a| == |b| && forall k :: 0 <= k < |a| ==> multiset(a[k]) == multiset(b[k])
    ensures BinnedBias(a) == BinnedBias(b)
    decreases |a|
  {
    if a != [] {
      var last := |a| - 1;
      BinnedBiasPermutes(a[..last], b[..last]);
      SumOfPermutes(a[last], b[last], P);
      SumOfPermutes(a[last], b[last], Y);
    }
  }
}
