/** File names of exported events (src/trade_trace/exporter.py).

    The event type in a name is sanitised lossily, so what keeps two events apart is the id: it
    is read back here from any name the exporter can produce. */
module ExportPaths {
  import opened Decimals

  // ---- file names ----

  /** ASCII letters, digits, dot, underscore and dash. */
  predicate IsSafe(c: char) {
    'a' <= c <= 'z' || 'A' <= c <= 'Z' || IsDigit(c) || c == '.' || c == '_' || c == '-'
  }

  function SafeEventType(eventType: string): (r: string)
    ensures r != "" && forall i :: 0 <= i < |r| ==> IsSafe(r[i])
    ensures (forall i :: 0 <= i < |eventType| ==> IsSafe(eventType[i])) && eventType != "" ==> r == eventType
  {
    if eventType == "" then "_"
    else seq(|eventType|, i requires 0 <= i < |eventType| => if IsSafe(eventType[i]) then eventType[i] else '_')
  }

  /** Character by character: what is safe stays, anything else becomes an underscore. */
  lemma SafeEventTypeReads(eventType: string)
    ensures eventType == "" ==> SafeEventType(eventType) == "_"
    ensures eventType != "" ==> |SafeEventType(eventType)| == |eventType|
    ensures forall i :: 0 <= i < |eventType| ==> SafeEventType(eventType)[i] == if IsSafe(eventType[i]) then eventType[i] else '_'
  {
  }

  const FINAL_SUFFIX := ".jsonl"
  const TMP_SUFFIX := ".jsonl.tmp"

  function FileName(eventType: string, id: nat): string {
    SafeEventType(eventType) + "-" + Decimal(id) + FINAL_SUFFIX
  }

  /** The event type never moves a file out of its date directory: nothing in a name is a path
      separator or NUL. */
  lemma FileNameStaysInDirectory(eventType: string, id: nat)
    ensures forall c :: c in FileName(eventType, id) ==> c != '/' && c != '\\' && c != '\0'
  {
    var name := FileName(eventType, id);
    forall i | 0 <= i < |name| ensures IsSafe(name[i]) {
      var head, digits := SafeEventType(eventType), Decimal(id);
      if i < |head| {
        assert name[i] == head[i];
      } else if |head| < i <= |head| + |digits| {
        assert name[i] == digits[i - |head| - 1];
      }
    }
  }

  /** A name is the sanitised type, a dash, the digits of the id, and the suffix. */
  lemma FileNameReads(eventType: string, id: nat) returns (digits: string)
    ensures FileName(eventType, id) == SafeEventType(eventType) + "-" + digits + ".jsonl"
    ensures digits != "" && AllDigits(digits) && ParseDecimal(digits) == id
  {
    digits := Decimal(id);
    ParseOfDecimal(id);
  }

  /** Of two strings of equal length, head-dash-digits, the one with fewer digits has its dash
      where the other has a digit. */
  lemma DashAgainstDigit(p: string, q: string, d: string, e: string)
    requires AllDigits(e) && |p| + |d| == |q| + |e| && |d| < |e|
    ensures (p + "-" + d)[|p|] != (q + "-" + e)[|p|]
  {
    assert (p + "-" + d)[|p|] == '-';
    assert (q + "-" + e)[|p|] == e[|p| - |q| - 1];
  }

  /** So the digit tail of such a string is unique. */
  lemma DashSplit(p: string, q: string, d: string, e: string)
    requires AllDigits(d) && AllDigits(e)
    requires p + "-" + d == q + "-" + e
    ensures d == e
  {
    var s, t := p + "-" + d, q + "-" + e;
    assert |s| == |t|;
    if |d| < |e| {
      DashAgainstDigit(p, q, d, e);
    } else if |e| < |d| {
      DashAgainstDigit(q, p, e, d);
    } else {
      forall i | 0 <= i < |d| ensures d[i] == e[i] {
        assert s[|p| + 1 + i] == d[i] && t[|p| + 1 + i] == e[i];
      }
    }
  }

  /** Distinct event ids never share a name, whatever the event types. */
  lemma NameNamesTheEvent(t: string, i: nat, u: string, j: nat)
    requires FileName(t, i) == FileName(u, j)
    ensures i == j
  {
    var a, b := SafeEventType(t) + "-" + Decimal(i), SafeEventType(u) + "-" + Decimal(j);
    assert a == FileName(t, i)[..|FileName(t, i)| - |FINAL_SUFFIX|];
    assert b == FileName(u, j)[..|FileName(u, j)| - |FINAL_SUFFIX|];
    DashSplit(SafeEventType(t), SafeEventType(u), Decimal(i), Decimal(j));
    ParseOfDecimal(i);
    ParseOfDecimal(j);
  }
}
