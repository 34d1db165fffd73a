/** The proleptic Gregorian calendar, as Python's `datetime` counts it: microseconds from the
    day before 0001-01-01, and the civil fields they stand for. */
module CivilTime {
  import opened Arithmetic

  datatype Civil = Civil(year: nat, month: nat, day: nat, hour: nat, minute: nat, second: nat, micro: nat)

  const MAX_YEAR: nat := 9999

  predicate IsLeap(y: nat) {
    y % 4 == 0 && (y % 100 != 0 || y % 400 == 0)
  }

  function DaysInMonth(y: nat, m: nat): nat {
    if m == 2 then if IsLeap(y) then 29 else 28
    else if m in {4, 6, 9, 11} then 30
    else 31
  }

  function DaysBeforeYear(y: nat): nat
    requires y >= 1
  {
    var p := y - 1;
    p * 365 + p / 4 - p / 100 + p / 400
  }

  function DaysBeforeMonth(y: nat, m: nat): nat
    requires m >= 1
  {
    if m == 1 then 0 else DaysBeforeMonth(y, m - 1) + DaysInMonth(y, m - 1)
  }

  predicate ValidDate(y: nat, m: nat, d: nat) {
    1 <= y <= MAX_YEAR && 1 <= m <= 12 && 1 <= d <= DaysInMonth(y, m)
  }

  predicate Valid(c: Civil) {
    ValidDate(c.year, c.month, c.day) && c.hour < 24 && c.minute < 60 && c.second < 60 && c.micro < 1_000_000
  }

  function Ordinal(y: nat, m: nat, d: nat): nat
    requires y >= 1 && m >= 1
  {
    DaysBeforeYear(y) + DaysBeforeMonth(y, m) + d
  }

  lemma DivStep(p: nat, k: nat)
    requires k > 0
    ensures (p + 1) / k == p / k + if (p + 1) % k == 0 then 1 else 0
  {
    var q, r := p / k, p % k;
    assert p == k * q + r;
    if r == k - 1 {
      assert p + 1 == k * (q + 1);
      DivModOf(p + 1, k, q + 1, 0);
    } else {
      DivModOf(p + 1, k, q, r + 1);
    }
  }

  lemma DivModOf(n: nat, k: nat, q: nat, r: nat)
    requires k > 0 && n == k * q + r && r < k
    ensures n / k == q && n % k == r
  {
    DivUnique(n, k, q);
  }

  lemma YearLength(y: nat)
    requires y >= 1
    ensures DaysBeforeYear(y + 1) == DaysBeforeYear(y) + if IsLeap(y) then 366 else 365
  {
    DivStep(y - 1, 4);
    DivStep(y - 1, 100);
    DivStep(y - 1, 400);
    MultipleOfMultiple(y, 4, 25);
    MultipleOfMultiple(y, 100, 4);
    var p := y - 1;
    assert p + 1 == y && DaysBeforeYear(y + 1) == y * 365 + y / 4 - y / 100 + y / 400;
  }

  lemma MultipleOfMultiple(n: nat, k: nat, j: nat)
    requires k > 0 && j > 0
    ensures k * j > 0 && (n % (k * j) == 0 ==> n % k == 0)
  {
    assert k * j > 0;
    if n % (k * j) == 0 {
      var q := n / (k * j);
      assert n == k * j * q;
      assert k * j * q == k * (j * q);
      DivModOf(n, k, j * q, 0);
    }
  }

  lemma MonthTable(y: nat)
    ensures DaysBeforeMonth(y, 13) == if IsLeap(y) then 366 else 365
  {
    assert DaysBeforeMonth(y, 2) == 31;
    assert DaysBeforeMonth(y, 4) == 31 + DaysInMonth(y, 2) + 31;
    assert DaysBeforeMonth(y, 6) == DaysBeforeMonth(y, 4) + 30 + 31;
    assert DaysBeforeMonth(y, 8) == DaysBeforeMonth(y, 6) + 30 + 31;
    assert DaysBeforeMonth(y, 10) == DaysBeforeMonth(y, 8) + 31 + 30;
    assert DaysBeforeMonth(y, 12) == DaysBeforeMonth(y, 10) + 31 + 30;
  }

  lemma {:induction false} MonthsAscend(y: nat, m: nat, n: nat)
    requires 1 <= m < n
    ensures DaysBeforeMonth(y, m) + DaysInMonth(y, m) <= DaysBeforeMonth(y, n)
    decreases n
  {
    if m < n - 1 {
      MonthsAscend(y, m, n - 1);
    }
  }

  lemma {:induction false} YearsAscend(y: nat, z: nat)
    requires 1 <= y < z
    ensures DaysBeforeYear(y + 1) <= DaysBeforeYear(z)
    decreases z
  {
    if y + 1 < z {
      YearsAscend(y, z - 1);
      YearLength(z - 1);
    }
  }

  lemma OrdinalInYear(y: nat, m: nat, d: nat)
    requires ValidDate(y, m, d)
    ensures DaysBeforeYear(y) < Ordinal(y, m, d) <= DaysBeforeYear(y + 1)
  {
    YearLength(y);
    MonthTable(y);
    MonthsAscend(y, m, 13);
  }

  predicate DateLt(y: nat, m: nat, d: nat, y2: nat, m2: nat, d2: nat) {
    y < y2 || (y == y2 && (m < m2 || (m == m2 && d < d2)))
  }

  lemma EarlierDate(y: nat, m: nat, d: nat, y2: nat, m2: nat, d2: nat)
    requires ValidDate(y, m, d) && ValidDate(y2, m2, d2) && DateLt(y, m, d, y2, m2, d2)
    ensures Ordinal(y, m, d) < Ordinal(y2, m2, d2)
  {
    if y < y2 {
      OrdinalInYear(y, m, d);
      OrdinalInYear(y2, m2, d2);
      YearsAscend(y, y2);
    } else if m < m2 {
      MonthsAscend(y, m, m2);
    }
  }

  /** Day numbers order dates. */
  lemma OrdinalOrder(y: nat, m: nat, d: nat, y2: nat, m2: nat, d2: nat)
    requires ValidDate(y, m, d) && ValidDate(y2, m2, d2)
    ensures Ordinal(y, m, d) < Ordinal(y2, m2, d2) <==> DateLt(y, m, d, y2, m2, d2)
  {
    if DateLt(y, m, d, y2, m2, d2) {
      EarlierDate(y, m, d, y2, m2, d2);
    } else if DateLt(y2, m2, d2, y, m, d) {
      EarlierDate(y2, m2, d2, y, m, d);
    }
  }

  /** Leap years and the lengths of the months. */
  lemma MonthsAre(y: nat, m: nat)
    requires 1 <= m <= 12
    ensures IsLeap(y) <==> y % 4 == 0 && (y % 100 != 0 || y % 400 == 0)
    ensures DaysInMonth(y, m) == if m == 2 then (if IsLeap(y) then 29 else 28) else if m in {4, 6, 9, 11} then 30 else 31
  {
  }

  /** The Unix epoch is day 719163, as `date.toordinal` has it. */
  lemma EpochDay()
    ensures Ordinal(1970, 1, 1) == 719_163
  {
    assert DaysBeforeYear(1970) == 719_162;
  }

  /** Days are counted one after the other from 0001-01-01: within a month, ... */
  lemma NextDay(y: nat, m: nat, d: nat)
    requires ValidDate(y, m, d) && ValidDate(y, m, d + 1)
    ensures Ordinal(1, 1, 1) == 1
    ensures Ordinal(y, m, d + 1) == Ordinal(y, m, d) + 1
  {
  }

  /** ... across the end of a month, ... */
  lemma NextMonth(y: nat, m: nat)
    requires y >= 1 && 1 <= m < 12
    ensures Ordinal(y, m + 1, 1) == Ordinal(y, m, DaysInMonth(y, m)) + 1
  {
  }

  /** ... and across the end of a year. */
  lemma NextYear(y: nat)
    requires y >= 1
    ensures Ordinal(y + 1, 1, 1) == Ordinal(y, 12, DaysInMonth(y, 12)) + 1
  {
    YearLength(y);
    MonthTable(y);
    assert DaysBeforeMonth(y, 13) == DaysBeforeMonth(y, 12) + DaysInMonth(y, 12);
    assert DaysBeforeMonth(y + 1, 1) == 0;
  }

  // ---- from a day number back to a date ----

  function YearOf(n: nat, y: nat): (r: nat)
    requires y >= 1 && DaysBeforeYear(y) < n <= DaysBeforeYear(MAX_YEAR + 1) && y <= MAX_YEAR
    ensures y <= r <= MAX_YEAR && DaysBeforeYear(r) < n <= DaysBeforeYear(r + 1)
    decreases MAX_YEAR - y
  {
    if n <= DaysBeforeYear(y + 1) then y else YearOf(n, y + 1)
  }

  function MonthOf(y: nat, k: nat, m: nat): (r: nat)
    requires 1 <= m <= 12 && DaysBeforeMonth(y, m) < k <= DaysBeforeMonth(y, 13)
    ensures m <= r <= 12 && DaysBeforeMonth(y, r) < k <= DaysBeforeMonth(y, r + 1)
    decreases 12 - m
  {
    if k <= DaysBeforeMonth(y, m + 1) then m else MonthOf(y, k, m + 1)
  }

  const DAY: int := 86_400_000_000
  const MIN_MICROS: int := DAY
  const END_MICROS: int := (DaysBeforeYear(MAX_YEAR + 1) + 1) * DAY

  predicate InRange(t: int) {
    MIN_MICROS <= t < END_MICROS
  }

  function TimeOfDay(c: Civil): nat {
    ((c.hour * 60 + c.minute) * 60 + c.second) * 1_000_000 + c.micro
  }

  function Micros(c: Civil): int
    requires Valid(c)
  {
    Ordinal(c.year, c.month, c.day) * DAY + TimeOfDay(c)
  }

  /** Microseconds of an instant: of its day, and of the clock within it. */
  lemma MicrosAre(c: Civil)
    requires Valid(c)
    ensures Micros(c) == Ordinal(c.year, c.month, c.day) * 86_400_000_000
                         + c.hour * 3_600_000_000 + c.minute * 60_000_000 + c.second * 1_000_000 + c.micro
  {
  }

  datatype Date = Date(year: nat, month: nat, day: nat)

  function DateOf(n: nat): (r: Date)
    requires 1 <= n <= DaysBeforeYear(MAX_YEAR + 1)
    ensures ValidDate(r.year, r.month, r.day) && Ordinal(r.year, r.month, r.day) == n
  {
    var y := YearOf(n, 1);
    YearLength(y);
    MonthTable(y);
    var k := n - DaysBeforeYear(y);
    var m := MonthOf(y, k, 1);
    Date(y, m, k - DaysBeforeMonth(y, m))
  }

  /** Hours, minutes and seconds of a second of the day. */
  lemma ClockFields(s: nat)
    requires s < 86_400
    ensures s / 3600 < 24 && (s / 3600 * 60 + s / 60 % 60) * 60 + s % 60 == s
  {
    assert s / 60 / 60 == s / 3600;
  }

  function FromMicros(t: int): (c: Civil)
    requires InRange(t)
    ensures Valid(c) && Micros(c) == t
  {
    var date, rest := DateOf(t / DAY), t % DAY;
    var s := rest / 1_000_000;
    ClockFields(s);
    Civil(date.year, date.month, date.day, s / 3600, s / 60 % 60, s % 60, rest % 1_000_000)
  }

  lemma MicrosInRange(c: Civil)
    requires Valid(c)
    ensures InRange(Micros(c))
  {
    OrdinalInYear(c.year, c.month, c.day);
    if c.year < MAX_YEAR {
      YearsAscend(c.year, MAX_YEAR + 1);
    }
    if c.year > 1 {
      YearsAscend(1, c.year);
    }
    assert TimeOfDay(c) < DAY;
  }

  predicate TimeLt(a: Civil, b: Civil) {
    a.hour < b.hour || (a.hour == b.hour && (a.minute < b.minute || (a.minute == b.minute && a.second < b.second)))
  }

  /** Whole seconds since the epoch of the count. */
  function Seconds(c: Civil): int
    requires Valid(c)
  {
    Ordinal(c.year, c.month, c.day) * 86_400 + (c.hour * 60 + c.minute) * 60 + c.second
  }

  predicate SecondsLt(a: Civil, b: Civil) {
    DateLt(a.year, a.month, a.day, b.year, b.month, b.day)
    || (a.year == b.year && a.month == b.month && a.day == b.day && TimeLt(a, b))
  }

  predicate SameSecond(a: Civil, b: Civil) {
    a == b.(micro := a.micro)
  }

  /** Counting seconds orders civil times as their fields do. */
  lemma SecondsOrder(a: Civil, b: Civil)
    requires Valid(a) && Valid(b)
    ensures Seconds(a) < Seconds(b) <==> SecondsLt(a, b)
    ensures Seconds(a) == Seconds(b) <==> SameSecond(a, b)
  {
    OrdinalOrder(a.year, a.month, a.day, b.year, b.month, b.day);
    OrdinalOrder(b.year, b.month, b.day, a.year, a.month, a.day);
    var x, y := (a.hour * 60 + a.minute) * 60 + a.second, (b.hour * 60 + b.minute) * 60 + b.second;
    assert x < 86_400 && y < 86_400;
    assert x < y <==> TimeLt(a, b);
    assert x == y <==> a.hour == b.hour && a.minute == b.minute && a.second == b.second;
  }

  lemma MicrosSplit(c: Civil)
    requires Valid(c)
    ensures Micros(c) == Seconds(c) * 1_000_000 + c.micro
    ensures Micros(c) / 1_000_000 == Seconds(c) && Micros(c) % 1_000_000 == c.micro
  {
  }

  /** A civil time is determined by its instant. */
  lemma MicrosInjective(a: Civil, b: Civil)
    requires Valid(a) && Valid(b) && Micros(a) == Micros(b)
    ensures a == b
  {
    MicrosSplit(a);
    MicrosSplit(b);
    SecondsOrder(a, b);
  }
}
