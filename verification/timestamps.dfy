/** Canonical UTC timestamps (src/trade_trace/timestamps.py).

    Tables keep instants as text and compare the text.  For `YYYY-MM-DDTHH:MM:SS.mmmZ` that is
    shown to be sound: text order is the order of the instants truncated to milliseconds. */
module Timestamps {
  import opened Outcomes
  import opened Orders
  import opened Decimals
  import opened CivilTime

  /** A Python `datetime`, naive or with an offset from UTC in microseconds. */
  datatype Value = Naive(local: Civil) | Aware(local: Civil, offset: int)

  datatype TimestampError = NotAware | OutOfRange

  predicate ValidValue(v: Value) {
    Valid(v.local) && (v.Aware? ==> -DAY < v.offset < DAY)
  }

  function Instant(v: Value): int
    requires ValidValue(v) && v.Aware?
  {
    Micros(v.local) - v.offset
  }

  // ---- text ----

  lemma Widths()
    ensures Pow10(2) == 100 && Pow10(3) == 1000 && Pow10(4) == 10_000 && Pow10(6) == 1_000_000
  {
    assert Pow10(3) == 10 * Pow10(2);
    assert Pow10(4) == 10 * Pow10(3);
    assert Pow10(5) == 10 * Pow10(4);
    assert Pow10(6) == 10 * Pow10(5);
  }

  function ClockText(c: Civil, tail: string): string
    requires Valid(c)
  {
    Widths();
    Pad(c.hour, 2) + (":" + (Pad(c.minute, 2) + (":" + (Pad(c.second, 2) + tail))))
  }

  /** `YYYY-MM-DDTHH:MM:SS` and what follows. */
  function DateText(c: Civil, tail: string): string
    requires Valid(c)
  {
    Widths();
    assert DaysInMonth(c.year, c.month) <= 31;
    Pad(c.year, 4) + ("-" + (Pad(c.month, 2) + ("-" + (Pad(c.day, 2) + ("T" + ClockText(c, tail))))))
  }

  function MilliTail(c: Civil): string
    requires Valid(c)
  {
    Widths();
    "." + (Pad(c.micro / 1000, 3) + "Z")
  }

  /** `isoformat(timespec="milliseconds")` in UTC, with `Z` for the offset. */
  function Canonical(c: Civil): string
    requires Valid(c)
  {
    DateText(c, MilliTail(c))
  }

  /** `to_utc_iso8601` of a parsed value. */
  function ToUtcIso8601(v: Value): Result<string, TimestampError>
    requires ValidValue(v)
  {
    if v.Naive? then Err(NotAware)
    else if !InRange(Instant(v)) then Err(OutOfRange)
    else Ok(Canonical(FromMicros(Instant(v))))
  }

  /** What is stored is the local time less its offset, in UTC; a time without an offset is
      refused, and so is one that falls outside years 1 to 9999. */
  lemma StoredIsUtc(v: Value)
    requires ValidValue(v)
    ensures v.Naive? ==> ToUtcIso8601(v) == Err(NotAware)
    ensures v.Aware? && !InRange(Micros(v.local) - v.offset) ==> ToUtcIso8601(v) == Err(OutOfRange)
    ensures v.Aware? && InRange(Micros(v.local) - v.offset) ==>
              exists utc :: Valid(utc) && Micros(utc) + v.offset == Micros(v.local) && ToUtcIso8601(v) == Ok(Canonical(utc))
  {
    if v.Aware? && InRange(Instant(v)) {
      var utc := FromMicros(Instant(v));
      assert Valid(utc) && Micros(utc) + v.offset == Micros(v.local);
    }
  }

  // ---- order ----

  /** A separator never decides. */
  lemma SeparatedOrder(n: nat, m: nat, w: nat, sep: string, a: string, b: string)
    requires n < Pow10(w) && m < Pow10(w)
    ensures StrLt(Pad(n, w) + (sep + a), Pad(m, w) + (sep + b)) <==> n < m || (n == m && StrLt(a, b))
  {
    FieldOrder(n, m, w, sep + a, sep + b);
    StrPrefix(sep, a, b);
  }

  lemma ClockOrder(a: Civil, b: Civil, x: string, y: string)
    requires Valid(a) && Valid(b)
    ensures StrLt(ClockText(a, x), ClockText(b, y))
       <==> TimeLt(a, b) || (a.hour == b.hour && a.minute == b.minute && a.second == b.second && StrLt(x, y))
  {
    Widths();
    var s, t := Pad(a.second, 2) + x, Pad(b.second, 2) + y;
    SeparatedOrder(a.hour, b.hour, 2, ":", Pad(a.minute, 2) + (":" + s), Pad(b.minute, 2) + (":" + t));
    SeparatedOrder(a.minute, b.minute, 2, ":", s, t);
    FieldOrder(a.second, b.second, 2, x, y);
  }

  /** The first nineteen characters order whole seconds; the rest decides within a second. */
  lemma DateTextOrder(a: Civil, b: Civil, x: string, y: string)
    requires Valid(a) && Valid(b)
    ensures StrLt(DateText(a, x), DateText(b, y))
       <==> Seconds(a) < Seconds(b) || (Seconds(a) == Seconds(b) && StrLt(x, y))
  {
    Widths();
    var p, q := "T" + ClockText(a, x), "T" + ClockText(b, y);
    var s, t := Pad(a.day, 2) + p, Pad(b.day, 2) + q;
    SeparatedOrder(a.year, b.year, 4, "-", Pad(a.month, 2) + ("-" + s), Pad(b.month, 2) + ("-" + t));
    SeparatedOrder(a.month, b.month, 2, "-", s, t);
    SeparatedOrder(a.day, b.day, 2, "T", ClockText(a, x), ClockText(b, y));
    ClockOrder(a, b, x, y);
    SecondsOrder(a, b);
  }

  lemma MilliTailOrder(a: Civil, b: Civil)
    requires Valid(a) && Valid(b)
    ensures StrLt(MilliTail(a), MilliTail(b)) <==> a.micro / 1000 < b.micro / 1000
  {
    Widths();
    StrPrefix(".", Pad(a.micro / 1000, 3) + "Z", Pad(b.micro / 1000, 3) + "Z");
    FieldOrder(a.micro / 1000, b.micro / 1000, 3, "Z", "Z");
    StrAsymmetric("Z", "Z");
  }

  function Millis(c: Civil): int
    requires Valid(c)
  {
    Micros(c) / 1000
  }

  lemma MillisSplit(c: Civil)
    requires Valid(c)
    ensures Millis(c) == Seconds(c) * 1000 + c.micro / 1000
  {
    MicrosSplit(c);
  }

  lemma MillisOrder(a: Civil, b: Civil)
    requires Valid(a) && Valid(b)
    ensures Millis(a) < Millis(b)
       <==> Seconds(a) < Seconds(b) || (Seconds(a) == Seconds(b) && a.micro / 1000 < b.micro / 1000)
  {
    MillisSplit(a);
    MillisSplit(b);
  }

  lemma CanonicalLt(a: Civil, b: Civil)
    requires Valid(a) && Valid(b)
    ensures StrLt(Canonical(a), Canonical(b)) <==> Millis(a) < Millis(b)
  {
    DateTextOrder(a, b, MilliTail(a), MilliTail(b));
    MilliTailOrder(a, b);
    MillisOrder(a, b);
  }

  /** Canonical text compares as the truncated instants do, and is equal for equal ones. */
  lemma CanonicalOrder(a: Civil, b: Civil)
    requires Valid(a) && Valid(b)
    ensures StrLt(Canonical(a), Canonical(b)) <==> Millis(a) < Millis(b)
    ensures Canonical(a) == Canonical(b) <==> Millis(a) == Millis(b)
  {
    CanonicalLt(a, b);
    CanonicalLt(b, a);
    StrTotal(Canonical(a), Canonical(b));
    StrAsymmetric(Canonical(a), Canonical(b));
  }

  /** Whatever offsets they were given in, stored timestamps sort as their instants. */
  lemma StoredOrder(v: Value, w: Value)
    requires ValidValue(v) && ValidValue(w) && ToUtcIso8601(v).Ok? && ToUtcIso8601(w).Ok?
    ensures StrLt(ToUtcIso8601(v).value, ToUtcIso8601(w).value) <==> Instant(v) / 1000 < Instant(w) / 1000
    ensures ToUtcIso8601(v) == ToUtcIso8601(w) <==> Instant(v) / 1000 == Instant(w) / 1000
  {
    CanonicalOrder(FromMicros(Instant(v)), FromMicros(Instant(w)));
  }

  // ---- reading canonical text back ----

  function ReadField(s: string, w: nat): Option<(nat, string)> {
    if |s| >= w && AllDigits(s[..w]) then Some((ParseDecimal(s[..w]), s[w..])) else None
  }

  function Expect(s: string, c: string): Option<string>
    requires |c| == 1
  {
    if s != "" && s[0] == c[0] then Some(s[1..]) else None
  }

  function ReadSeparated(s: string, w: nat, sep: string): Option<(nat, string)>
    requires |sep| == 1
  {
    match ReadField(s, w)
    case None => None
    case Some(f) =>
      match Expect(f.1, sep)
      case None => None
      case Some(rest) => Some((f.0, rest))
  }

  /** The fields of a canonical timestamp in order; `None` for any other text. */
  function ReadFields(s: string, widths: seq<(nat, string)>): Option<(seq<nat>, string)>
    requires forall i :: 0 <= i < |widths| ==> |widths[i].1| == 1
    decreases |widths|
  {
    if widths == [] then Some(([], s))
    else
      match ReadSeparated(s, widths[0].0, widths[0].1)
      case None => None
      case Some(f) =>
        match ReadFields(f.1, widths[1..])
        case None => None
        case Some(rest) => Some(([f.0] + rest.0, rest.1))
  }

  const LAYOUT: seq<(nat, string)> := [(4, "-"), (2, "-"), (2, "T"), (2, ":"), (2, ":"), (2, "."), (3, "Z")]

  function ReadCanonical(s: string): (r: Option<Value>)
    ensures r.Some? ==> ValidValue(r.value) && r.value.Aware?
  {
    match ReadFields(s, LAYOUT)
    case None => None
    case Some((f, rest)) =>
      if |f| != 7 || rest != "" then None
      else
        var c := Civil(f[0], f[1], f[2], f[3], f[4], f[5], f[6] * 1000);
        if Valid(c) then Some(Aware(c, 0)) else None
  }

  function Truncated(c: Civil): Civil {
    c.(micro := c.micro / 1000 * 1000)
  }

  lemma ReadStep(n: nat, w: nat, sep: string, rest: string, widths: seq<(nat, string)>, f: seq<nat>)
    requires n < Pow10(w) && |sep| == 1 && forall i :: 0 <= i < |widths| ==> |widths[i].1| == 1
    requires ReadFields(rest, widths) == Some((f, ""))
    ensures ReadFields(Pad(n, w) + (sep + rest), [(w, sep)] + widths) == Some(([n] + f, ""))
  {
    var s := Pad(n, w) + (sep + rest);
    assert s[..w] == Pad(n, w) && s[w..] == sep + rest;
    ParseOfPad(n, w);
    assert (sep + rest)[1..] == rest;
    assert ([(w, sep)] + widths)[1..] == widths;
  }

  /** One field more in front, in terms of the fixed layout. */
  lemma ReadLayout(k: nat, n: nat, rest: string, f: seq<nat>)
    requires k < |LAYOUT| && n < Pow10(LAYOUT[k].0)
    requires ReadFields(rest, LAYOUT[k + 1..]) == Some((f, ""))
    ensures ReadFields(Pad(n, LAYOUT[k].0) + (LAYOUT[k].1 + rest), LAYOUT[k..]) == Some(([n] + f, ""))
  {
    ReadStep(n, LAYOUT[k].0, LAYOUT[k].1, rest, LAYOUT[k + 1..], f);
    assert [LAYOUT[k]] + LAYOUT[k + 1..] == LAYOUT[k..];
  }

  lemma ReadClock(c: Civil)
    requires Valid(c)
    ensures ReadFields(ClockText(c, MilliTail(c)), LAYOUT[3..])
         == Some(([c.hour] + ([c.minute] + ([c.second] + ([c.micro / 1000] + []))), ""))
  {
    Widths();
    var ms := Pad(c.micro / 1000, 3) + "Z";
    assert ms == Pad(c.micro / 1000, 3) + ("Z" + "");
    assert ReadFields("", LAYOUT[7..]) == Some(([], ""));
    ReadLayout(6, c.micro / 1000, "", []);
    ReadLayout(5, c.second, ms, [c.micro / 1000] + []);
    ReadLayout(4, c.minute, Pad(c.second, 2) + ("." + ms), [c.second] + ([c.micro / 1000] + []));
    ReadLayout(3, c.hour, Pad(c.minute, 2) + (":" + (Pad(c.second, 2) + ("." + ms))), [c.minute] + ([c.second] + ([c.micro / 1000] + [])));
    assert MilliTail(c) == "." + ms;
  }

  lemma ReadDate(c: Civil)
    requires Valid(c)
    ensures ReadFields(Canonical(c), LAYOUT)
         == Some(([c.year] + ([c.month] + ([c.day] + ([c.hour] + ([c.minute] + ([c.second] + ([c.micro / 1000] + [])))))), ""))
  {
    Widths();
    var clock := ClockText(c, MilliTail(c));
    var f := [c.hour] + ([c.minute] + ([c.second] + ([c.micro / 1000] + [])));
    ReadClock(c);
    ReadLayout(2, c.day, clock, f);
    ReadLayout(1, c.month, Pad(c.day, 2) + ("T" + clock), [c.day] + f);
    ReadLayout(0, c.year, Pad(c.month, 2) + ("-" + (Pad(c.day, 2) + ("T" + clock))), [c.month] + ([c.day] + f));
    assert LAYOUT[0..] == LAYOUT;
  }

  /** Reading canonical text gives back the instant, truncated. */
  lemma ReadOfCanonical(c: Civil)
    requires Valid(c)
    ensures ReadCanonical(Canonical(c)) == Some(Aware(Truncated(c), 0))
  {
    ReadDate(c);
  }

  /** A field of a text: digits in these places, worth this much. */
  predicate Reads(s: string, from: nat, to: nat, n: nat) {
    from <= to <= |s| && AllDigits(s[from..to]) && ParseDecimal(s[from..to]) == n
  }

  lemma PadReads(s: string, before: string, n: nat, w: nat, rest: string)
    requires n < Pow10(w) && s == before + (Pad(n, w) + rest)
    ensures |Pad(n, w)| == w && Reads(s, |before|, |before| + w, n)
    ensures s[|before| + w..] == rest
  {
    ParseOfPad(n, w);
    assert s[|before|..|before| + w] == Pad(n, w);
  }

  /** A separator and the field behind it. */
  lemma PartReads(s: string, at: nat, sep: string, n: nat, w: nat, rest: string)
    requires at <= |s| && |sep| == 1 && n < Pow10(w) && s[at..] == sep + (Pad(n, w) + rest)
    ensures at + 1 + w <= |s| && s[at] == sep[0] && Reads(s, at + 1, at + 1 + w, n) && s[at + 1 + w..] == rest
  {
    assert s[at] == s[at..][0];
    assert s == s[..at] + s[at..] && s == (s[..at] + sep) + (Pad(n, w) + rest);
    PadReads(s, s[..at] + sep, n, w, rest);
  }

  lemma ClockReads(c: Civil, tail: string)
    requires Valid(c)
    ensures var s := ClockText(c, tail);
            && |s| == 8 + |tail|
            && Reads(s, 0, 2, c.hour) && s[2] == ':' && Reads(s, 3, 5, c.minute) && s[5] == ':' && Reads(s, 6, 8, c.second)
            && s[8..] == tail
  {
    Widths();
    var s, seconds := ClockText(c, tail), Pad(c.second, 2) + tail;
    PadReads(s, "", c.hour, 2, ":" + (Pad(c.minute, 2) + (":" + seconds)));
    PartReads(s, 2, ":", c.minute, 2, ":" + seconds);
    PartReads(s, 5, ":", c.second, 2, tail);
  }

  lemma DateReads(c: Civil, tail: string)
    requires Valid(c)
    ensures var s := DateText(c, tail);
            && |s| == 11 + |ClockText(c, tail)|
            && Reads(s, 0, 4, c.year) && s[4] == '-' && Reads(s, 5, 7, c.month) && s[7] == '-' && Reads(s, 8, 10, c.day)
            && s[10] == 'T' && s[11..] == ClockText(c, tail)
  {
    Widths();
    assert DaysInMonth(c.year, c.month) <= 31;
    var s, clock := DateText(c, tail), ClockText(c, tail);
    var days := Pad(c.day, 2) + ("T" + clock);
    PadReads(s, "", c.year, 4, "-" + (Pad(c.month, 2) + ("-" + days)));
    PartReads(s, 4, "-", c.month, 2, "-" + days);
    PartReads(s, 7, "-", c.day, 2, "T" + clock);
    assert s[10] == s[10..][0] && s[11..] == s[10..][1..];
  }

  lemma ReadsFurther(s: string, k: nat, from: nat, to: nat, n: nat)
    requires k <= |s| && Reads(s[k..], from, to, n)
    ensures Reads(s, k + from, k + to, n)
  {
    assert s[k..][from..to] == s[k + from..k + to];
  }

  lemma TimeReads(s: string, c: Civil, tail: string)
    requires Valid(c) && 11 <= |s| && s[11..] == ClockText(c, tail)
    ensures |s| == 19 + |tail| && s[19..] == tail
    ensures Reads(s, 11, 13, c.hour) && s[13] == ':' && Reads(s, 14, 16, c.minute) && s[16] == ':' && Reads(s, 17, 19, c.second)
  {
    ClockReads(c, tail);
    ReadsFurther(s, 11, 0, 2, c.hour);
    ReadsFurther(s, 11, 3, 5, c.minute);
    ReadsFurther(s, 11, 6, 8, c.second);
    assert s[19..] == s[11..][8..];
    assert s[13] == s[11..][2] && s[16] == s[11..][5];
  }

  lemma TailReads(s: string, c: Civil)
    requires Valid(c) && 19 <= |s| && s[19..] == MilliTail(c)
    ensures |s| == 24 && s[19] == '.' && Reads(s, 20, 23, c.micro / 1000) && s[23] == 'Z'
  {
    Widths();
    PadReads(s[19..], ".", c.micro / 1000, 3, "Z");
    ReadsFurther(s, 19, 1, 4, c.micro / 1000);
    assert s[19] == s[19..][0] && s[23] == s[19..][4];
  }

  /** The text itself: `YYYY-MM-DDTHH:MM:SS.mmmZ`. */
  lemma CanonicalReads(c: Civil)
    requires Valid(c)
    ensures var s := Canonical(c);
            && |s| == 24
            && Reads(s, 0, 4, c.year) && s[4] == '-' && Reads(s, 5, 7, c.month) && s[7] == '-' && Reads(s, 8, 10, c.day)
            && s[10] == 'T' && Reads(s, 11, 13, c.hour) && s[13] == ':' && Reads(s, 14, 16, c.minute) && s[16] == ':'
            && Reads(s, 17, 19, c.second) && s[19] == '.' && Reads(s, 20, 23, c.micro / 1000) && s[23] == 'Z'
  {
    DateReads(c, MilliTail(c));
    TimeReads(Canonical(c), c, MilliTail(c));
    TailReads(Canonical(c), c);
  }

  /** Normalising is idempotent: a stored timestamp, read and normalised again, is itself. */
  lemma NormalizeIdempotent(v: Value)
    requires ValidValue(v) && ToUtcIso8601(v).Ok?
    ensures var s := ToUtcIso8601(v).value;
            ReadCanonical(s).Some? && ToUtcIso8601(ReadCanonical(s).value) == Ok(s)
            && Instant(ReadCanonical(s).value) == Instant(v) / 1000 * 1000
  {
    var c := FromMicros(Instant(v));
    ReadOfCanonical(c);
    var t := Truncated(c);
    MicrosSplit(c);
    MicrosSplit(t);
    MicrosInRange(t);
    MicrosInjective(FromMicros(Micros(t)), t);
    MillisSplit(c);
    MillisSplit(t);
    CanonicalOrder(c, t);
  }

  // ---- text without a fixed fraction ----

  /** `isoformat()` omits the fraction of a whole second and otherwise writes six digits. */
  function IsoTail(micro: nat): string
    requires micro < 1_000_000
  {
    Widths();
    if micro == 0 then "Z" else "." + (Pad(micro, 6) + "Z")
  }

  function IsoText(t: int): string
    requires InRange(t)
  {
    var c := FromMicros(t);
    DateText(c, IsoTail(c.micro))
  }

  /** "." sorts below "Z", so a whole second sorts after its fractions. */
  function TextFraction(t: int): int {
    if t % 1_000_000 == 0 then 1_000_000 else t % 1_000_000
  }

  predicate TextBefore(t: int, u: int) {
    t / 1_000_000 < u / 1_000_000 || (t / 1_000_000 == u / 1_000_000 && TextFraction(t) < TextFraction(u))
  }

  /** The text itself: a whole second ends in `Z` at once, any other in six digits and `Z`. */
  lemma IsoReads(t: int)
    requires InRange(t)
    ensures var s, c := IsoText(t), FromMicros(t);
            && |s| == (if c.micro == 0 then 20 else 27) && s[|s| - 1] == 'Z'
            && (c.micro != 0 ==> s[19] == '.' && Reads(s, 20, 26, c.micro))
            && Reads(s, 0, 4, c.year) && s[4] == '-' && Reads(s, 5, 7, c.month) && s[7] == '-' && Reads(s, 8, 10, c.day) && s[10] == 'T'
            && Reads(s, 11, 13, c.hour) && s[13] == ':' && Reads(s, 14, 16, c.minute) && s[16] == ':' && Reads(s, 17, 19, c.second)
  {
    var s, c := IsoText(t), FromMicros(t);
    DateReads(c, IsoTail(c.micro));
    TimeReads(s, c, IsoTail(c.micro));
    IsoTailReads(s, c.micro);
  }

  lemma IsoTailReads(s: string, micro: nat)
    requires micro < 1_000_000 && 19 <= |s| && s[19..] == IsoTail(micro)
    ensures |s| == (if micro == 0 then 20 else 27) && s[|s| - 1] == 'Z'
    ensures micro != 0 ==> s[19] == '.' && Reads(s, 20, 26, micro)
  {
    Widths();
    if micro != 0 {
      PadReads(s[19..], ".", micro, 6, "Z");
      ReadsFurther(s, 19, 1, 7, micro);
      assert s[19] == s[19..][0] && s[26] == s[19..][7];
    } else {
      assert s[19] == s[19..][0];
    }
  }

  lemma IsoTailOrder(m: nat, n: nat)
    requires m < 1_000_000 && n < 1_000_000
    ensures StrLt(IsoTail(m), IsoTail(n)) <==> (m != 0 && (n == 0 || m < n))
  {
    Widths();
    if m == 0 && n == 0 {
      StrAsymmetric("Z", "Z");
    } else if m != 0 && n != 0 {
      StrPrefix(".", Pad(m, 6) + "Z", Pad(n, 6) + "Z");
      FieldOrder(m, n, 6, "Z", "Z");
      StrAsymmetric("Z", "Z");
    }
  }

  lemma IsoTextOrder(t: int, u: int)
    requires InRange(t) && InRange(u)
    ensures StrLt(IsoText(t), IsoText(u)) <==> TextBefore(t, u)
    ensures IsoText(t) == IsoText(u) <==> t == u
  {
    var a, b := FromMicros(t), FromMicros(u);
    MicrosSplit(a);
    MicrosSplit(b);
    DateTextOrder(a, b, IsoTail(a.micro), IsoTail(b.micro));
    DateTextOrder(b, a, IsoTail(b.micro), IsoTail(a.micro));
    IsoTailOrder(a.micro, b.micro);
    IsoTailOrder(b.micro, a.micro);
    StrAsymmetric(IsoText(t), IsoText(u));
    StrTotal(IsoText(t), IsoText(u));
  }

  /** Text order is instant order, except between a whole second and its own fractions. */
  lemma TextBeforeIff(t: int, u: int)
    ensures (TextBefore(t, u) <==> t < u)
       <==> !(t / 1_000_000 == u / 1_000_000 && (t % 1_000_000 == 0) != (u % 1_000_000 == 0))
  {
  }
}
