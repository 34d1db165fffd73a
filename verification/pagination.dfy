/** Keyset pagination (src/trade_trace/reporting/pagination.py, and the in-memory pages of
    src/trade_trace/reports/lifecycle.py). */
module Pagination {
  // A page is the first `limit` rows after a cursor; its own cursor is the key of its last row.
  // The cursor text (base64url of JSON) is modelled by the value it decodes to, which SQLite
  // binds under the affinity of the column it is compared with.

  import opened Outcomes
  import opened Orders
  import opened SemanticKeys

  /** A stored value; numbers sort before text. */
  datatype Cell = Num(x: real) | Text(s: string)

  predicate CellLt(a: Cell, b: Cell) {
    match (a, b)
    case (Num(x), Num(y)) => x < y
    case (Text(s), Text(t)) => StrLt(s, t)
    case _ => a.Num? && b.Text?
  }

  lemma CellLtStrict(a: Cell, b: Cell, c: Cell)
    ensures !CellLt(a, a) && !(CellLt(a, b) && CellLt(b, a))
    ensures CellLt(a, b) || a == b || CellLt(b, a)
    ensures CellLt(a, b) && CellLt(b, c) ==> CellLt(a, c)
  {
    if a.Text? && b.Text? {
      StrAsymmetric(a.s, b.s);
      StrTotal(a.s, b.s);
      if c.Text? && StrLt(a.s, b.s) && StrLt(b.s, c.s) {
        StrTransitive(a.s, b.s, c.s);
      }
    }
    if a.Text? {
      StrAsymmetric(a.s, a.s);
    }
  }

  /** The order key of a row; a single-column order has an empty second part. */
  datatype Key = Key(first: Cell, id: string)

  datatype Row = Row(key: Key, data: string)

  datatype Direction = Asc | Desc

  predicate KeyLt(a: Key, b: Key) {
    CellLt(a.first, b.first) || (a.first == b.first && StrLt(a.id, b.id))
  }

  /** `a` is listed before `b`. */
  predicate Before(dir: Direction, a: Key, b: Key) {
    if dir.Asc? then KeyLt(a, b) else KeyLt(b, a)
  }

  function ListedBy(dir: Direction): (Row, Row) -> bool {
    (a: Row, b: Row) => a.key == b.key || Before(dir, a.key, b.key)
  }

  lemma KeyLtStrict(a: Key, b: Key, c: Key)
    ensures !KeyLt(a, a) && !(KeyLt(a, b) && KeyLt(b, a))
    ensures KeyLt(a, b) || a == b || KeyLt(b, a)
    ensures KeyLt(a, b) && KeyLt(b, c) ==> KeyLt(a, c)
  {
    CellLtStrict(a.first, b.first, c.first);
    StrAsymmetric(a.id, b.id);
    StrAsymmetric(a.id, a.id);
    StrTotal(a.id, b.id);
    if StrLt(a.id, b.id) && StrLt(b.id, c.id) {
      StrTransitive(a.id, b.id, c.id);
    }
  }

  lemma BeforeStrict(dir: Direction)
    ensures forall a: Key, b: Key :: Before(dir, a, b) ==> a != b && !Before(dir, b, a)
    ensures forall a: Key, b: Key :: Before(dir, a, b) || a == b || Before(dir, b, a)
    ensures forall a, b, c :: Before(dir, a, b) && Before(dir, b, c) ==> Before(dir, a, c)
  {
    forall a: Key, b: Key, c: Key
      ensures !KeyLt(a, a) && !(KeyLt(a, b) && KeyLt(b, a))
      ensures KeyLt(a, b) || a == b || KeyLt(b, a)
      ensures KeyLt(a, b) && KeyLt(b, c) ==> KeyLt(a, c)
    {
      KeyLtStrict(a, b, c);
    }
  }

  lemma ListedByOrder(dir: Direction)
    ensures TotalPreorder(ListedBy(dir))
  {
    BeforeStrict(dir);
  }

  /** Keys are unique: the id is the table's primary key. */
  ghost predicate UniqueKeys(table: seq<Row>) {
    forall i, j :: 0 <= i < j < |table| ==> table[i].key != table[j].key
  }

  /** Strictly in listing order, so without repetition. */
  ghost predicate Strict(dir: Direction, rows: seq<Row>) {
    forall i, j :: 0 <= i < j < |rows| ==> Before(dir, rows[i].key, rows[j].key)
  }

  // ---- one page ----

  const MAX_LIMIT: int := 500

  function Clamp(limit: int): (n: nat)
    ensures 1 <= n <= MAX_LIMIT
    ensures 1 <= limit <= 500 ==> n == limit
    ensures limit < 1 ==> n == 1
    ensures limit > 500 ==> n == 500
  {
    var n := if limit < MAX_LIMIT then limit else MAX_LIMIT;
    if n < 1 then 1 else n
  }

  function IsAfter(dir: Direction, cursor: Option<Key>): Row -> bool {
    (r: Row) => cursor.None? || Before(dir, cursor.value, r.key)
  }

  /** All rows after the cursor, in listing order. */
  function Rest(table: seq<Row>, dir: Direction, cursor: Option<Key>): seq<Row> {
    SortBy(Filter(table, IsAfter(dir, cursor)), ListedBy(dir))
  }

  datatype Page = Page(rows: seq<Row>, next: Option<Key>)

  function PageOf(table: seq<Row>, dir: Direction, cursor: Option<Key>, n: nat): Page
    requires n > 0
  {
    var rest := Rest(table, dir, cursor);
    if |rest| > n then Page(rest[..n], Some(rest[n - 1].key)) else Page(rest, None)
  }

  // ---- cursors ----

  /** A cursor as decoded. */
  datatype Cursor = Absent | Malformed | After(value: Json)

  datatype PageError = BadCursor | NotComposite | Unbindable

  /** A column's affinity: text, or numeric.  `asText` and `asNumber` are SQLite's conversions;
      `asNumber` is `None` for text that is no number. */
  datatype Column = Column(numeric: bool, asText: Json -> string, asNumber: string -> Option<real>)

  datatype Bound = Refused | Nothing | Bound(cell: Cell)

  predicate In64Bits(i: int) {
    -0x8000_0000_0000_0000 <= i < 0x8000_0000_0000_0000
  }

  /** What a column is compared with when a decoded value is bound: NULL for null, and an error
      for lists, objects and integers beyond 64 bits. */
  function Bind(col: Column, v: Json): Bound {
    match v
    case Null => Nothing
    case Arr(_) => Refused
    case Obj(_) => Refused
    case Str(s) => Bound(if col.numeric && col.asNumber(s).Some? then Num(col.asNumber(s).value) else Text(s))
    case Int(i) => if !In64Bits(i) then Refused else Bound(if col.numeric then Num(i as real) else Text(col.asText(v)))
    case Float(x) => Bound(if col.numeric then Num(x) else Text(col.asText(v)))
    case Bool(b) => Bound(if col.numeric then Num(if b then 1.0 else 0.0) else Text(col.asText(v)))
  }

  /** A value the column can store. */
  predicate Stores(col: Column, c: Cell) {
    if col.numeric then c.Text? ==> col.asNumber(c.s).None? else c.Text?
  }

  /** The JSON a stored value is written as. */
  predicate WrittenAs(c: Cell, v: Json) {
    match c
    case Text(s) => v == Str(s)
    case Num(x) => v == Float(x) || (v.Int? && In64Bits(v.i) && v.i as real == x)
  }

  /** A cursor made from a stored value is compared as that value. */
  lemma CursorBindsBack(col: Column, c: Cell, v: Json)
    requires Stores(col, c) && WrittenAs(c, v)
    ensures Bind(col, v) == Bound(c)
  {
  }

  /** Into a numeric column every number is bound by its value, true and false as 1 and 0, and
      text that reads as a number too; into a text column everything is bound as text. */
  lemma BindsByValue(col: Column, v: Json)
    ensures Bind(col, v).Nothing? <==> v == Null
    ensures Bind(col, v).Refused? <==>
              v.Arr? || v.Obj? || (v.Int? && !(-0x8000_0000_0000_0000 <= v.i < 0x8000_0000_0000_0000))
    ensures Bind(col, v).Bound? && col.numeric && IsNumber(v) ==> Bind(col, v).cell == Num(NumberOf(v))
    ensures Bind(col, v).Bound? && !col.numeric && IsNumber(v) ==> Bind(col, v).cell == Text(col.asText(v))
    ensures v.Str? ==> Bind(col, v) == Bound(match (col.numeric, col.asNumber(v.s)) case (true, Some(x)) => Num(x) case _ => Text(v.s))
  {
  }

  predicate SingleColumn(table: seq<Row>) {
    forall r :: r in table ==> r.key.id == ""
  }

  const NO_ROWS := Page([], None)

  /** `paginate_query` over a single column.  Comparing with NULL selects nothing. */
  method PaginateQuery(table: seq<Row>, col: Column, dir: Direction, cursor: Cursor, limit: int) returns (r: Result<Page, PageError>)
    requires SingleColumn(table)
    ensures cursor.Absent? ==> r == Ok(PageOf(table, dir, None, Clamp(limit)))
    ensures cursor.Malformed? ==> r == Err(BadCursor)
    ensures cursor.After? && Bind(col, cursor.value).Refused? ==> r == Err(Unbindable)
    ensures cursor.After? && Bind(col, cursor.value).Nothing? ==> r == Ok(NO_ROWS)
    ensures cursor.After? && Bind(col, cursor.value).Bound? ==>
              r == Ok(PageOf(table, dir, Some(Key(Bind(col, cursor.value).cell, "")), Clamp(limit)))
  {
    var after: Option<Key> := None;
    match cursor {
      case Absent =>
      case Malformed => return Err(BadCursor);
      case After(v) =>
        match Bind(col, v) {
          case Refused => return Err(Unbindable);
          case Nothing => return Ok(NO_ROWS);
          case Bound(c) => after := Some(Key(c, ""));
        }
    }
    var page := FetchPage(table, dir, after, Clamp(limit));
    return Ok(page);
  }

  /** Fetch one row more than the page holds; it only decides whether there is a next page. */
  method FetchPage(table: seq<Row>, dir: Direction, after: Option<Key>, clamped: nat) returns (page: Page)
    requires clamped > 0
    ensures page == PageOf(table, dir, after, clamped)
  {
    var rows := Rest(table, dir, after);
    if |rows| > clamped + 1 {
      rows := rows[..clamped + 1];
    }
    var next: Option<Key> := None;
    if |rows| > clamped {
      rows := rows[..clamped];
      next := Some(rows[|rows| - 1].key);
    }
    assert |Rest(table, dir, after)| > clamped ==> rows == Rest(table, dir, after)[..clamped];
    return Page(rows, next);
  }

  function LegacyKey(after: Cell): Key { Key(after, "") }

  predicate IsPair(v: Json) {
    v.Arr? && |v.items| == 2
  }

  /** What the two columns are compared with: a pair, or any other value with no id. */
  function BindBoth(created: Column, id: Column, v: Json): (Bound, Bound) {
    if IsPair(v) then (Bind(created, v.items[0]), Bind(id, v.items[1])) else (Bind(created, v), Bound(Text("")))
  }

  /** The key that two bound values stand for.  An id of NULL, like an empty one, ties with no row. */
  function KeyOfBound(first: Cell, id: Bound): Key {
    if id.Bound? && id.cell.Text? then Key(first, id.cell.s) else LegacyKey(first)
  }

  /** `paginate_created_at_id_query`: newest first.  Ids are text. */
  method PaginateCreatedAtIdQuery(table: seq<Row>, created: Column, id: Column, cursor: Cursor, limit: int, requireComposite: bool)
    returns (r: Result<Page, PageError>)
    requires !id.numeric
    ensures cursor.Absent? ==> r == Ok(PageOf(table, Desc, None, Clamp(limit)))
    ensures cursor.Malformed? ==> r == Err(BadCursor)
    ensures cursor.After? && !IsPair(cursor.value) && requireComposite ==> r == Err(NotComposite)
    ensures cursor.After? && (IsPair(cursor.value) || !requireComposite) ==>
              var (first, second) := BindBoth(created, id, cursor.value);
              r == if first.Refused? || second.Refused? then Err(Unbindable)
                   else if first.Nothing? then Ok(NO_ROWS)
                   else Ok(PageOf(table, Desc, Some(KeyOfBound(first.cell, second)), Clamp(limit)))
  {
    var after: Option<Key> := None;
    match cursor {
      case Absent =>
      case Malformed => return Err(BadCursor);
      case After(v) =>
        if !IsPair(v) && requireComposite {
          return Err(NotComposite);
        }
        var (first, second) := BindBoth(created, id, v);
        if first.Refused? || second.Refused? {
          return Err(Unbindable);
        }
        if first.Nothing? {
          return Ok(NO_ROWS);
        }
        after := Some(KeyOfBound(first.cell, second));
    }
    var page := FetchPage(table, Desc, after, Clamp(limit));
    return Ok(page);
  }

  /** A composite cursor made from a row's key leads back to that key; a value that is no pair
      stands for its timestamp with no id; an id of null ties with no row. */
  lemma CompositeCursorBindsBack(created: Column, id: Column, key: Key, v: Json)
    requires Stores(created, key.first) && WrittenAs(key.first, v) && !id.numeric
    ensures var (first, second) := BindBoth(created, id, Arr([v, Str(key.id)]));
            first == Bound(key.first) && second.Bound? && KeyOfBound(key.first, second) == key
    ensures var (first, second) := BindBoth(created, id, Arr([v, Null]));
            first == Bound(key.first) && KeyOfBound(key.first, second) == Key(key.first, "")
    ensures var (first, second) := BindBoth(created, id, v);
            first == Bound(key.first) && second.Bound? && KeyOfBound(key.first, second) == Key(key.first, "")
  {
    CursorBindsBack(created, key.first, v);
  }

  // ---- what follows a page ----

  lemma {:induction false} UniqueKeysSorted(table: seq<Row>, dir: Direction, cursor: Option<Key>)
    requires UniqueKeys(table)
    ensures Strict(dir, Rest(table, dir, cursor))
    ensures forall r :: r in Rest(table, dir, cursor) <==> r in table && IsAfter(dir, cursor)(r)
  {
    var kept := Filter(table, IsAfter(dir, cursor));
    ListedByOrder(dir);
    SortBySorts(kept, ListedBy(dir));
    SameMembers(SortBy(kept, ListedBy(dir)), kept);
    KeysOfFilter(table, IsAfter(dir, cursor));
    KeysOfPermutation(kept, SortBy(kept, ListedBy(dir)));
  }

  lemma {:induction false} KeysOfFilter(s: seq<Row>, keep: Row -> bool)
    requires UniqueKeys(s)
    ensures UniqueKeys(Filter(s, keep))
  {
    if s != [] {
      KeysOfFilter(s[1..], keep);
      var f := Filter(s[1..], keep);
      forall i | 0 <= i < |f| ensures f[i].key != s[0].key {
        assert f[i] in s[1..];
      }
    }
  }

  /** Unique keys depend on the multiset of rows only. */
  lemma KeysOfPermutation(a: seq<Row>, b: seq<Row>)
    requires UniqueKeys(a) && multiset(a) == multiset(b)
    ensures UniqueKeys(b)
  {
    SameMembers(a, b);
    assert Distinct(a);
    DistinctPermutes(a, b);
    forall i, j | 0 <= i < j < |b| ensures b[i].key != b[j].key {
      assert b[i] in a && b[j] in a && b[i] != b[j];
    }
  }

  lemma SameEmptiness(a: seq<Row>, b: seq<Row>)
    requires forall r :: r in a <==> r in b
    ensures a == [] <==> b == []
  {
    assert a != [] ==> a[0] in a;
    assert b != [] ==> b[0] in b;
  }

  /** Two strictly ordered lists with the same members are the same list. */
  lemma {:induction false} StrictUnique(dir: Direction, a: seq<Row>, b: seq<Row>)
    requires Strict(dir, a) && Strict(dir, b)
    requires forall r :: r in a <==> r in b
    ensures a == b
  {
    BeforeStrict(dir);
    SameEmptiness(a, b);
    if a != [] {
      assert a[0] in b && b[0] in a;
      var i :| 0 <= i < |b| && b[i] == a[0];
      var j :| 0 <= j < |a| && a[j] == b[0];
      assert a[0] == b[0];
      forall r ensures r in a[1..] <==> r in b[1..] {
        StrictTail(dir, a, r);
        StrictTail(dir, b, r);
      }
      StrictUnique(dir, a[1..], b[1..]);
      assert a == [a[0]] + a[1..] && b == [b[0]] + b[1..];
    }
  }

  lemma StrictTail(dir: Direction, s: seq<Row>, r: Row)
    requires Strict(dir, s) && s != []
    ensures r in s[1..] <==> r in s && r != s[0]
  {
    BeforeStrict(dir);
    assert s == [s[0]] + s[1..];
    if r in s[1..] {
      var i :| 1 <= i < |s| && s[i] == r;
    }
  }

  /** In a strict list, what follows position `n - 1` is what lies after its key. */
  lemma AfterInStrict(dir: Direction, rest: seq<Row>, n: nat, r: Row)
    requires Strict(dir, rest) && 0 < n <= |rest|
    ensures r in rest[n..] <==> r in rest && Before(dir, rest[n - 1].key, r.key)
  {
    BeforeStrict(dir);
    assert forall k :: 0 <= k < n - 1 ==> Before(dir, rest[k].key, rest[n - 1].key);
    if r in rest[n..] {
      var i :| n <= i < |rest| && rest[i] == r;
    }
    if r in rest && Before(dir, rest[n - 1].key, r.key) {
      var i :| 0 <= i < |rest| && rest[i] == r;
      assert rest[n..][i - n] == r;
    }
  }

  /** After a full page, what is left is what was left before, less the page. */
  lemma RestAfterPage(table: seq<Row>, dir: Direction, cursor: Option<Key>, n: nat)
    requires UniqueKeys(table) && 0 < n <= |Rest(table, dir, cursor)|
    ensures Rest(table, dir, Some(Rest(table, dir, cursor)[n - 1].key)) == Rest(table, dir, cursor)[n..]
  {
    var rest := Rest(table, dir, cursor);
    var last := rest[n - 1].key;
    var tail := Rest(table, dir, Some(last));
    UniqueKeysSorted(table, dir, cursor);
    UniqueKeysSorted(table, dir, Some(last));
    BeforeStrict(dir);
    assert rest[n - 1] in rest;
    forall r ensures r in tail <==> r in rest[n..] {
      AfterInStrict(dir, rest, n, r);
    }
    StrictUnique(dir, tail, rest[n..]);
  }

  // ---- what a page holds ----

  /** Numbers below text, numbers by value, text by code point. */
  predicate CellBelow(a: Cell, b: Cell) {
    || (a.Num? && b.Num? && a.x < b.x)
    || (a.Num? && b.Text?)
    || (a.Text? && b.Text? && StrLt(a.s, b.s))
  }

  predicate KeyBelow(a: Key, b: Key) {
    CellBelow(a.first, b.first) || (a.first == b.first && StrLt(a.id, b.id))
  }

  /** Ascending pages go up, descending pages down. */
  predicate Onward(dir: Direction, a: Key, b: Key) {
    if dir == Asc then KeyBelow(a, b) else KeyBelow(b, a)
  }

  predicate Follows(dir: Direction, cursor: Option<Key>, r: Row) {
    cursor.Some? ==> Onward(dir, cursor.value, r.key)
  }

  function Following(table: seq<Row>, dir: Direction, cursor: Option<Key>): set<Row> {
    set r | r in table && Follows(dir, cursor, r)
  }

  /** The page holds the first `n` of these rows, in order, and hands out a cursor, its last key,
      exactly when it leaves one out. */
  ghost predicate HoldsFirst(page: Page, rows: set<Row>, dir: Direction, n: nat) {
    && |page.rows| <= n
    && (forall i, j :: 0 <= i < j < |page.rows| ==> Onward(dir, page.rows[i].key, page.rows[j].key))
    && (forall r :: r in page.rows ==> r in rows)
    && (forall r :: r in rows && r !in page.rows ==> |page.rows| == n && forall t :: t in page.rows ==> Onward(dir, t.key, r.key))
    && (page.next.Some? <==> exists r :: r in rows && r !in page.rows)
    && (page.next.Some? ==> page.rows != [] && page.next == Some(page.rows[|page.rows| - 1].key))
  }

  /** A page holds the first `n` rows that follow the cursor. */
  lemma PageIs(table: seq<Row>, dir: Direction, cursor: Option<Key>, n: nat)
    requires n > 0 && UniqueKeys(table)
    ensures HoldsFirst(PageOf(table, dir, cursor, n), Following(table, dir, cursor), dir, n)
  {
    var rest := Rest(table, dir, cursor);
    UniqueKeysSorted(table, dir, cursor);
    OnwardIsBefore(dir);
    forall r ensures r in rest <==> r in table && Follows(dir, cursor, r) {
    }
    CutHoldsFirst(rest, dir, PageOf(table, dir, cursor, n), n, Following(table, dir, cursor));
  }

  lemma CutHoldsFirst(rest: seq<Row>, dir: Direction, page: Page, n: nat, rows: set<Row>)
    requires n > 0 && Strict(dir, rest) && forall r :: r in rows <==> r in rest
    requires page == if |rest| > n then Page(rest[..n], Some(rest[n - 1].key)) else Page(rest, None)
    ensures HoldsFirst(page, rows, dir, n)
  {
    CutOff(rest, dir, page, n);
    OnwardIsBefore(dir);
  }

  lemma OnwardIsBefore(dir: Direction)
    ensures forall a: Key, b: Key :: Onward(dir, a, b) <==> Before(dir, a, b)
  {
  }

  lemma CutOff(rest: seq<Row>, dir: Direction, page: Page, n: nat)
    requires n > 0 && Strict(dir, rest)
    requires page == if |rest| > n then Page(rest[..n], Some(rest[n - 1].key)) else Page(rest, None)
    ensures forall r :: r in page.rows ==> r in rest
    ensures forall r :: r in rest && r !in page.rows ==> |page.rows| == n && forall t :: t in page.rows ==> Before(dir, t.key, r.key)
    ensures page.next.Some? <==> exists r :: r in rest && r !in page.rows
  {
    assert forall i :: 0 <= i < |page.rows| ==> page.rows[i] == rest[i] && page.rows[i] in page.rows;
    forall r | r in rest && r !in page.rows ensures |page.rows| == n && forall t :: t in page.rows ==> Before(dir, t.key, r.key) {
      var k :| 0 <= k < |rest| && rest[k] == r;
    }
    if page.next.Some? {
      var r := rest[n];
      BeforeStrict(dir);
      forall t | t in page.rows ensures t != r {
        var i :| 0 <= i < n && rest[i] == t;
        assert Before(dir, rest[i].key, rest[n].key);
      }
      assert r in rest && r !in page.rows;
    }
  }

  // ---- walks over a table that does not change ----

  function Concat(pages: seq<Page>): seq<Row> {
    if pages == [] then [] else Concat(pages[..|pages| - 1]) + pages[|pages| - 1].rows
  }

  lemma {:induction false} ConcatCons(p: Page, pages: seq<Page>)
    ensures Concat([p] + pages) == p.rows + Concat(pages)
    decreases |pages|
  {
    if pages == [] {
      assert ([p] + pages)[..0] == [];
    } else {
      assert ([p] + pages)[..|pages|] == [p] + pages[..|pages| - 1];
      ConcatCons(p, pages[..|pages| - 1]);
    }
  }

  /** Follow the cursors until there is none. */
  function Walk(table: seq<Row>, dir: Direction, cursor: Option<Key>, n: nat): seq<Page>
    requires n > 0 && UniqueKeys(table)
    decreases |Rest(table, dir, cursor)|
  {
    var page := PageOf(table, dir, cursor, n);
    if page.next.None? then [page]
    else
      RestAfterPage(table, dir, cursor, n);
      [page] + Walk(table, dir, page.next, n)
  }

  lemma WalkEnds(table: seq<Row>, dir: Direction, cursor: Option<Key>, n: nat)
    requires n > 0 && UniqueKeys(table) && PageOf(table, dir, cursor, n).next.None?
    ensures Walk(table, dir, cursor, n) == [PageOf(table, dir, cursor, n)]
    ensures Concat(Walk(table, dir, cursor, n)) == Rest(table, dir, cursor)
    ensures |Rest(table, dir, cursor)| <= n
  {
    var page := PageOf(table, dir, cursor, n);
    assert [page][..0] == [];
    assert Concat([page]) == Concat([]) + page.rows;
  }

  lemma RestSplits(table: seq<Row>, dir: Direction, cursor: Option<Key>, n: nat)
    requires n > 0 && UniqueKeys(table) && PageOf(table, dir, cursor, n).next.Some?
    ensures var page := PageOf(table, dir, cursor, n);
            Rest(table, dir, cursor) == page.rows + Rest(table, dir, page.next) && |page.rows| == n
  {
    RestAfterPage(table, dir, cursor, n);
    CutJoins(Rest(table, dir, cursor), n);
  }

  lemma CutJoins(rows: seq<Row>, n: nat)
    requires n <= |rows|
    ensures rows == rows[..n] + rows[n..] && |rows[..n]| == n
  {
  }

  lemma WalkGoesOn(table: seq<Row>, dir: Direction, cursor: Option<Key>, n: nat)
    requires n > 0 && UniqueKeys(table) && PageOf(table, dir, cursor, n).next.Some?
    ensures var page := PageOf(table, dir, cursor, n);
            Walk(table, dir, cursor, n) == [page] + Walk(table, dir, page.next, n)
  {
  }

  /** A walk ends, and its pages are together exactly what lies after its cursor: from no
      cursor, every row once, in order. */
  lemma {:induction false} WalkIsExact(table: seq<Row>, dir: Direction, cursor: Option<Key>, n: nat)
    requires n > 0 && UniqueKeys(table)
    ensures Concat(Walk(table, dir, cursor, n)) == Rest(table, dir, cursor)
    decreases |Rest(table, dir, cursor)|
  {
    var page := PageOf(table, dir, cursor, n);
    if page.next.None? {
      WalkEnds(table, dir, cursor, n);
    } else {
      RestSplits(table, dir, cursor, n);
      WalkGoesOn(table, dir, cursor, n);
      WalkIsExact(table, dir, page.next, n);
      ConcatCons(page, Walk(table, dir, page.next, n));
    }
  }

  lemma FullWalkIsSorted(table: seq<Row>, dir: Direction, n: nat)
    requires n > 0 && UniqueKeys(table)
    ensures Concat(Walk(table, dir, None, n)) == SortBy(table, ListedBy(dir))
  {
    WalkIsExact(table, dir, None, n);
    FilterAll(table, IsAfter(dir, None));
  }

  ghost predicate FullButLast(pages: seq<Page>, n: nat) {
    && pages != []
    && (forall i :: 0 <= i < |pages| - 1 ==> |pages[i].rows| == n && pages[i].next.Some?)
    && |pages[|pages| - 1].rows| <= n && pages[|pages| - 1].next.None?
  }

  /** Only the last page may be short. */
  lemma {:induction false} WalkLength(table: seq<Row>, dir: Direction, cursor: Option<Key>, n: nat)
    requires n > 0 && UniqueKeys(table)
    ensures FullButLast(Walk(table, dir, cursor, n), n)
    decreases |Rest(table, dir, cursor)|
  {
    var page := PageOf(table, dir, cursor, n);
    if page.next.None? {
      WalkEnds(table, dir, cursor, n);
    } else {
      RestSplits(table, dir, cursor, n);
      WalkGoesOn(table, dir, cursor, n);
      WalkLength(table, dir, page.next, n);
      FullButLastCons(page, Walk(table, dir, page.next, n), n);
    }
  }

  lemma FullButLastCons(page: Page, pages: seq<Page>, n: nat)
    requires FullButLast(pages, n) && |page.rows| == n && page.next.Some?
    ensures FullButLast([page] + pages, n)
  {
  }

  // ---- walks over a table that changes between pages ----

  function CursorAt(pages: seq<Page>, i: nat): Option<Key>
    requires i <= |pages|
  {
    if i == 0 then None else pages[i - 1].next
  }

  /** Page `i` is read from `tables[i]`. */
  ghost predicate PageAt(tables: seq<seq<Row>>, limits: seq<int>, dir: Direction, pages: seq<Page>, i: nat)
    requires |tables| == |limits| == |pages| && i < |pages|
  {
    && UniqueKeys(tables[i])
    && pages[i] == PageOf(tables[i], dir, CursorAt(pages, i), Clamp(limits[i]))
    && (i > 0 ==> CursorAt(pages, i).Some?)
  }

  /** Every page but the last handed out the cursor of the next. */
  ghost predicate IsWalk(tables: seq<seq<Row>>, limits: seq<int>, dir: Direction, pages: seq<Page>) {
    && |tables| == |limits| == |pages|
    && forall i :: 0 <= i < |pages| ==> PageAt(tables, limits, dir, pages, i)
  }

  /** Strictly ordered and not beyond `upTo`. */
  ghost predicate ListedUpTo(dir: Direction, rows: seq<Row>, upTo: Option<Key>) {
    Strict(dir, rows) && (upTo.Some? ==> forall r :: r in rows ==> r.key == upTo.value || Before(dir, r.key, upTo.value))
  }

  lemma CutStrict(dir: Direction, rest: seq<Row>, n: nat)
    requires Strict(dir, rest) && 0 < n < |rest|
    ensures ListedUpTo(dir, rest[..n], Some(rest[n - 1].key))
    ensures forall r :: r in rest && r !in rest[..n] ==> Before(dir, rest[n - 1].key, r.key)
  {
    forall r | r in rest[..n] ensures r.key == rest[n - 1].key || Before(dir, r.key, rest[n - 1].key) {
      var i :| 0 <= i < n && rest[i] == r;
    }
    forall r | r in rest && r !in rest[..n] ensures Before(dir, rest[n - 1].key, r.key) {
      var i :| 0 <= i < |rest| && rest[i] == r;
      assert i >= n;
    }
  }

  lemma PageFacts(table: seq<Row>, dir: Direction, cursor: Option<Key>, n: nat)
    requires n > 0 && UniqueKeys(table)
    ensures var page := PageOf(table, dir, cursor, n);
            && ListedUpTo(dir, page.rows, page.next)
            && (forall r :: r in page.rows ==> r in table && IsAfter(dir, cursor)(r))
            && (forall r :: r in table && IsAfter(dir, cursor)(r) && r !in page.rows ==> page.next.Some? && IsAfter(dir, page.next)(r))
  {
    var rest := Rest(table, dir, cursor);
    UniqueKeysSorted(table, dir, cursor);
    if |rest| > n {
      CutStrict(dir, rest, n);
      assert forall r :: r in rest[..n] ==> r in rest;
    }
  }

  lemma StrictJoin(dir: Direction, a: seq<Row>, b: seq<Row>, at: Option<Key>, upTo: Option<Key>)
    requires ListedUpTo(dir, a, at) && ListedUpTo(dir, b, upTo)
    requires a != [] ==> at.Some?
    requires forall r :: r in b ==> IsAfter(dir, at)(r)
    requires at.Some? && upTo.Some? ==> Before(dir, at.value, upTo.value)
    ensures ListedUpTo(dir, a + b, upTo)
  {
    BeforeStrict(dir);
    forall i, j | 0 <= i < j < |a + b| ensures Before(dir, (a + b)[i].key, (a + b)[j].key) {
      if i < |a| <= j {
        assert a[i] in a && b[j - |a|] in b;
      }
    }
  }

  lemma CursorAdvances(table: seq<Row>, dir: Direction, cursor: Option<Key>, n: nat)
    requires n > 0 && UniqueKeys(table)
    ensures var next := PageOf(table, dir, cursor, n).next;
            cursor.Some? && next.Some? ==> Before(dir, cursor.value, next.value)
  {
    var rest := Rest(table, dir, cursor);
    UniqueKeysSorted(table, dir, cursor);
    if |rest| > n {
      assert rest[n - 1] in rest;
    }
  }

  /** Where a walk stands after `k` pages: what it showed is in order up to its cursor, and
      every row that was always there is shown or lies after the cursor. */
  ghost predicate Stands(tables: seq<seq<Row>>, dir: Direction, out: seq<Row>, at: Option<Key>, k: nat)
    requires k <= |tables|
  {
    && ListedUpTo(dir, out, at)
    && (forall r :: (forall i :: 0 <= i < k ==> r in tables[i]) ==>
          r in out || k == 0 || (at.Some? && IsAfter(dir, at)(r)))
    && (forall r :: r in out ==> exists i :: 0 <= i < k && r in tables[i])
  }

  lemma StandsNext(tables: seq<seq<Row>>, dir: Direction, out: seq<Row>, at: Option<Key>, k: nat, n: nat)
    requires k < |tables| && n > 0 && UniqueKeys(tables[k]) && Stands(tables, dir, out, at, k)
    requires k == 0 <==> at.None?
    requires k == 0 ==> out == []
    ensures var page := PageOf(tables[k], dir, at, n);
            Stands(tables, dir, out + page.rows, page.next, k + 1)
  {
    var page := PageOf(tables[k], dir, at, n);
    PageFacts(tables[k], dir, at, n);
    CursorAdvances(tables[k], dir, at, n);
    StrictJoin(dir, out, page.rows, at, page.next);
    forall r | forall i :: 0 <= i < k + 1 ==> r in tables[i]
      ensures r in out + page.rows || (page.next.Some? && IsAfter(dir, page.next)(r))
    {
      assert r in tables[k];
    }
    forall r | r in out + page.rows ensures exists i :: 0 <= i < k + 1 && r in tables[i] {
      if r in page.rows {
        assert r in tables[k];
      }
    }
  }

  lemma WalkStep(tables: seq<seq<Row>>, limits: seq<int>, dir: Direction, pages: seq<Page>, k: nat)
    requires IsWalk(tables, limits, dir, pages) && 0 < k <= |pages|
    ensures Concat(pages[..k]) == Concat(pages[..k - 1]) + pages[k - 1].rows
    ensures pages[k - 1] == PageOf(tables[k - 1], dir, CursorAt(pages, k - 1), Clamp(limits[k - 1]))
    ensures k - 1 == 0 <==> CursorAt(pages, k - 1).None?
    ensures UniqueKeys(tables[k - 1])
  {
    assert PageAt(tables, limits, dir, pages, k - 1);
    assert pages[..k][..k - 1] == pages[..k - 1];
  }

  lemma {:induction false} WalkSoFar(tables: seq<seq<Row>>, limits: seq<int>, dir: Direction, pages: seq<Page>, k: nat)
    requires IsWalk(tables, limits, dir, pages) && k <= |pages|
    ensures Stands(tables, dir, Concat(pages[..k]), CursorAt(pages, k), k)
  {
    if k > 0 {
      WalkSoFar(tables, limits, dir, pages, k - 1);
      WalkStep(tables, limits, dir, pages, k);
      assert k == 1 ==> Concat(pages[..k - 1]) == [];
      StandsNext(tables, dir, Concat(pages[..k - 1]), CursorAt(pages, k - 1), k - 1, Clamp(limits[k - 1]));
    }
  }

  lemma {:induction false} StrictCountsOnce(dir: Direction, rows: seq<Row>, r: Row)
    requires Strict(dir, rows) && r in rows
    ensures multiset(rows)[r] == 1
  {
    BeforeStrict(dir);
    assert Distinct(rows);
    CountOnce(rows, r);
  }

  lemma StandsAtEnd(tables: seq<seq<Row>>, dir: Direction, out: seq<Row>)
    requires tables != [] && Stands(tables, dir, out, None, |tables|)
    ensures Strict(dir, out)
    ensures forall r :: r in out ==> exists i :: 0 <= i < |tables| && r in tables[i]
    ensures forall r :: (forall i :: 0 <= i < |tables| ==> r in tables[i]) ==> multiset(out)[r] == 1
  {
    forall r | forall i :: 0 <= i < |tables| ==> r in tables[i] ensures multiset(out)[r] == 1 {
      assert r in out;
      StrictCountsOnce(dir, out, r);
    }
  }

  /** Pagination is exact under concurrent change.  Whatever is inserted or deleted between
      pages, a finished walk is strictly in order, shows only rows that were there, and shows
      each row present throughout exactly once. */
  lemma ChangingWalkIsExact(tables: seq<seq<Row>>, limits: seq<int>, dir: Direction, pages: seq<Page>)
    requires IsWalk(tables, limits, dir, pages) && pages != [] && pages[|pages| - 1].next.None?
    ensures Strict(dir, Concat(pages))
    ensures forall r :: r in Concat(pages) ==> exists i :: 0 <= i < |tables| && r in tables[i]
    ensures forall r :: (forall i :: 0 <= i < |tables| ==> r in tables[i]) ==> multiset(Concat(pages))[r] == 1
  {
    WalkSoFar(tables, limits, dir, pages, |pages|);
    assert pages[..|pages|] == pages;
    StandsAtEnd(tables, dir, Concat(pages));
  }

  // ---- legacy cursors ----

  /** A scalar cursor drops exactly the rows that tie with the last one on its timestamp, so
      the page is complete if and only if no such row is left. */
  lemma LegacyCursorLoses(table: seq<Row>, last: Key)
    requires UniqueKeys(table)
    ensures forall r :: r in Rest(table, Desc, Some(LegacyKey(last.first)))
              <==> r in Rest(table, Desc, Some(last)) && r.key.first != last.first
    ensures Rest(table, Desc, Some(LegacyKey(last.first))) == Rest(table, Desc, Some(last))
       <==> forall r :: r in table && r.key.first == last.first ==> !StrLt(r.key.id, last.id)
  {
    UniqueKeysSorted(table, Desc, Some(last));
    UniqueKeysSorted(table, Desc, Some(LegacyKey(last.first)));
    var all, kept := Rest(table, Desc, Some(last)), Rest(table, Desc, Some(LegacyKey(last.first)));
    forall r ensures r in kept <==> r in all && r.key.first != last.first {
      CellLtStrict(r.key.first, last.first, last.first);
    }
    if forall r :: r in table && r.key.first == last.first ==> !StrLt(r.key.id, last.id) {
      forall r ensures r in kept <==> r in all {
        CellLtStrict(r.key.first, last.first, last.first);
      }
      StrictUnique(Desc, kept, all);
    } else {
      var r :| r in table && r.key.first == last.first && StrLt(r.key.id, last.id);
      assert r in all && r !in kept;
    }
  }

  lemma TwoStrings(t: Cell)
    ensures !CellLt(t, t) && StrLt("a", "b") && !StrLt("b", "a") && !StrLt("a", "") && !StrLt("b", "")
  {
    CellLtStrict(t, t, t);
  }

  lemma StrictIsRest(table: seq<Row>, cursor: Option<Key>, rows: seq<Row>)
    requires UniqueKeys(table) && Strict(Desc, rows)
    requires forall r :: r in rows <==> r in table && IsAfter(Desc, cursor)(r)
    ensures Rest(table, Desc, cursor) == rows
  {
    UniqueKeysSorted(table, Desc, cursor);
    StrictUnique(Desc, Rest(table, Desc, cursor), rows);
  }

  function Tied(t: Cell, id: string): Row { Row(Key(t, id), "") }

  function TwoTied(t: Cell): seq<Row> { [Tied(t, "b"), Tied(t, "a")] }

  lemma TwoTiedListed(t: Cell)
    ensures UniqueKeys(TwoTied(t)) && Rest(TwoTied(t), Desc, None) == TwoTied(t)
  {
    TwoStrings(t);
    StrictIsRest(TwoTied(t), None, TwoTied(t));
  }

  lemma OneTiedLeft(t: Cell)
    ensures Rest(TwoTied(t), Desc, Some(Key(t, "b"))) == [Tied(t, "a")]
  {
    TwoStrings(t);
    TwoTiedListed(t);
    StrictIsRest(TwoTied(t), Some(Key(t, "b")), [Tied(t, "a")]);
  }

  lemma NoTiedLeft(t: Cell)
    ensures Rest(TwoTied(t), Desc, Some(LegacyKey(t))) == []
  {
    TwoStrings(t);
    TwoTiedListed(t);
    StrictIsRest(TwoTied(t), Some(LegacyKey(t)), []);
  }

  /** For instance: two rows with one timestamp and pages of one.  The composite cursor of the
      first page leads to the other row; the legacy cursor ends the walk before it. */
  lemma LegacyCursorSkips(t: Cell)
    ensures PageOf(TwoTied(t), Desc, None, 1) == Page([Tied(t, "b")], Some(Key(t, "b")))
    ensures PageOf(TwoTied(t), Desc, Some(Key(t, "b")), 1) == Page([Tied(t, "a")], None)
    ensures PageOf(TwoTied(t), Desc, Some(LegacyKey(t)), 1) == NO_ROWS
  {
    TwoTiedListed(t);
    OneTiedLeft(t);
    NoTiedLeft(t);
  }

  // ---- in-memory pages ----

  datatype LifecycleError = BadLimit | BadLifecycleCursor

  /** The index of the first case after `key`. */
  method FirstAfter(cases: seq<Row>, key: Key) returns (start: nat)
    requires Strict(Asc, cases)
    ensures start <= |cases| && cases[start..] == Rest(cases, Asc, Some(key))
  {
    start := 0;
    while start < |cases| && !KeyLt(key, cases[start].key)
      invariant start <= |cases|
      invariant forall i :: 0 <= i < start ==> !KeyLt(key, cases[i].key)
    {
      start := start + 1;
    }
    TailIsRest(cases, Some(key), start);
  }

  /** The tail of `report_lifecycle`: `cases` is sorted by (created_at, case_id). */
  method LifecyclePage(cases: seq<Row>, cursor: Cursor, limit: Option<int>) returns (r: Result<Page, LifecycleError>)
    requires Strict(Asc, cases)
    ensures r.Err? <==> (limit.Some? && limit.value < 1) || !(cursor.Absent? || IsTextPair(cursor))
    ensures r.Ok? && limit.Some? ==> r.value == PageOf(cases, Asc, CursorKey(cursor), Clamp(limit.value))
    ensures r.Ok? && limit.None? ==> r.value == Page(Rest(cases, Asc, CursorKey(cursor)), None)
  {
    if limit.Some? && limit.value < 1 {
      return Err(BadLimit);
    }
    var start := 0;
    match cursor {
      case Absent =>
        TailIsRest(cases, None, 0);
      case After(v) =>
        if !IsTextPair(cursor) {
          return Err(BadLifecycleCursor);
        }
        start := FirstAfter(cases, Key(Text(v.items[0].s), v.items[1].s));
      case Malformed => return Err(BadLifecycleCursor);
    }
    ghost var after := CursorKey(cursor);
    assert cases[start..] == Rest(cases, Asc, after);
    if limit.None? {
      return Ok(Page(cases[start..], None));
    }
    var page := SlicePage(cases, start, if limit.value < MAX_LIMIT then limit.value else MAX_LIMIT);
    return Ok(page);
  }

  /** `cases[start : start + size]` and its cursor. */
  method SlicePage(cases: seq<Row>, start: nat, size: nat) returns (page: Page)
    requires start <= |cases| && size > 0
    ensures var rest := cases[start..];
            page == if |rest| > size then Page(rest[..size], Some(rest[size - 1].key)) else Page(rest, None)
  {
    var end := if start + size < |cases| then start + size else |cases|;
    var rows := cases[start..end];
    assert rows == cases[start..][..end - start];
    var next: Option<Key> := None;
    if rows != [] && start + size < |cases| {
      next := Some(rows[|rows| - 1].key);
    }
    return Page(rows, next);
  }

  predicate IsTextPair(cursor: Cursor) {
    cursor.After? && IsPair(cursor.value) && cursor.value.items[0].Str? && cursor.value.items[1].Str?
  }

  function CursorKey(cursor: Cursor): Option<Key> {
    if IsTextPair(cursor) then Some(Key(Text(cursor.value.items[0].s), cursor.value.items[1].s)) else None
  }

  /** A lifecycle cursor is a timestamp and an id, in that order. */
  lemma LifecycleCursorReads(t: string, id: string)
    ensures CursorKey(After(Arr([Str(t), Str(id)]))) == Some(Key(Text(t), id))
    ensures forall c :: CursorKey(c).Some? <==> c.After? && c.value.Arr? && |c.value.items| == 2 && c.value.items[0].Str? && c.value.items[1].Str?
  {
  }

  lemma TailIsRest(cases: seq<Row>, after: Option<Key>, start: nat)
    requires Strict(Asc, cases) && start <= |cases|
    requires forall i :: 0 <= i < start ==> !IsAfter(Asc, after)(cases[i])
    requires start < |cases| ==> IsAfter(Asc, after)(cases[start])
    ensures Rest(cases, Asc, after) == cases[start..]
  {
    BeforeStrict(Asc);
    assert UniqueKeys(cases);
    UniqueKeysSorted(cases, Asc, after);
    forall r ensures r in cases[start..] <==> r in Rest(cases, Asc, after) {
      if r in cases && IsAfter(Asc, after)(r) {
        var i :| 0 <= i < |cases| && cases[i] == r;
        assert cases[start..][i - start] == r;
      }
      if r in cases[start..] {
        var i :| start <= i < |cases| && cases[i] == r;
        assert i > start ==> Before(Asc, cases[start].key, r.key);
      }
    }
    StrictUnique(Asc, cases[start..], Rest(cases, Asc, after));
  }
}
