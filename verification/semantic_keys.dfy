/** Per-event-type payload equivalence (src/trade_trace/events/semantic_keys.py). */
module SemanticKeys {
  // A payload is a JSON object.  Its canonical form keeps the structural fields only and sorts
  // the arrays that have a sort key; two payloads are equivalent when their canonical forms are
  // equal.  Canonical JSON text is modelled by the value it denotes, and the SHA-256 digest of
  // the derived key by a function parameter.

  import opened Outcomes
  import opened Orders

  datatype Json =
    | Null
    | Bool(b: bool)
    | Int(i: int)
    | Float(r: real)
    | Str(s: string)
    | Arr(items: seq<Json>)
    | Obj(fields: map<string, Json>)

  type Payload = map<string, Json>

  /** `sortKeys` maps an array-valued structural field to the item key it is sorted by;
      `None` sorts by the whole item. */
  datatype SemanticKeySpec = SemanticKeySpec(
    structural: set<string>, freeText: set<string>, sortKeys: map<string, Option<string>>)

  /** `Unregistered` is the default-deny KeyError, `Unsortable` the TypeError or AttributeError
      Python raises when array items cannot be compared. */
  datatype KeyError = Unregistered | Unsortable

  // ---- Python's comparison of sort keys ----

  predicate IsNumber(j: Json) {
    j.Bool? || j.Int? || j.Float?
  }

  function NumberOf(j: Json): real
    requires IsNumber(j)
  {
    match j
    case Bool(b) => if b then 1.0 else 0.0
    case Int(i) => i as real
    case Float(r) => r
  }

  function Rank(j: Json): nat {
    if IsNumber(j) then 0 else if j.Str? then 1 else 2
  }

  /** Numbers (booleans included) compare by value and strings by code point.  Across kinds
      Python raises, so the order chosen there is never observed. */
  predicate ScalarLeq(a: Json, b: Json) {
    Rank(a) < Rank(b)
    || (Rank(a) == Rank(b) == 0 && NumberOf(a) <= NumberOf(b))
    || (Rank(a) == Rank(b) == 1 && StrLeq(a.s, b.s))
    || Rank(a) == Rank(b) == 2
  }

  function SortKeyOf(item: Json, how: Option<string>): Json {
    match how
    case None => item
    case Some(k) => if item.Obj? && k in item.fields then item.fields[k] else Str("")
  }

  function ItemLeq(how: Option<string>): (Json, Json) -> bool {
    (a, b) => ScalarLeq(SortKeyOf(a, how), SortKeyOf(b, how))
  }

  lemma ItemLeqOrder(how: Option<string>)
    ensures TotalPreorder(ItemLeq(how))
  {
    StrLeqOrder();
    var leq := ItemLeq(how);
    forall a, b ensures leq(a, b) || leq(b, a) {
    }
    forall a, b, c | leq(a, b) && leq(b, c) ensures leq(a, c) {
    }
  }

  /** Whether `sorted(items, key=...)` returns: every item must have a key, and with two or
      more items the keys must all be numbers or all be strings. */
  predicate Sortable(items: seq<Json>, how: Option<string>) {
    && (how.Some? ==> forall x :: x in items ==> x.Obj?)
    && (|items| <= 1
        || (forall x :: x in items ==> IsNumber(SortKeyOf(x, how)))
        || (forall x :: x in items ==> SortKeyOf(x, how).Str?))
  }

  // ---- canonical form ----

  predicate SortedField(spec: SemanticKeySpec, key: string, value: Json) {
    value.Arr? && key in spec.sortKeys
  }

  predicate FieldOk(spec: SemanticKeySpec, key: string, value: Json) {
    SortedField(spec, key, value) ==> Sortable(value.items, spec.sortKeys[key])
  }

  function CanonicalField(spec: SemanticKeySpec, key: string, value: Json): Json {
    if SortedField(spec, key, value) then Arr(SortBy(value.items, ItemLeq(spec.sortKeys[key]))) else value
  }

  predicate Strippable(spec: SemanticKeySpec, payload: Payload) {
    forall key :: key in spec.structural && key in payload ==> FieldOk(spec, key, payload[key])
  }

  function Strip(spec: SemanticKeySpec, payload: Payload): Payload {
    map key | key in payload.Keys * spec.structural :: CanonicalField(spec, key, payload[key])
  }

  /** The field loop of `_strip`. */
  method StripPayload(payload: Payload, spec: SemanticKeySpec) returns (r: Result<Payload, KeyError>)
    ensures r == if Strippable(spec, payload) then Ok(Strip(spec, payload)) else Err(Unsortable)
  {
    var out: Payload := map[];
    var todo := spec.structural;
    while todo != {}
      invariant todo <= spec.structural
      invariant forall key :: key in spec.structural - todo && key in payload ==> FieldOk(spec, key, payload[key])
      invariant out.Keys == payload.Keys * (spec.structural - todo)
      invariant forall key :: key in out ==> out[key] == CanonicalField(spec, key, payload[key])
      decreases todo
    {
      var key :| key in todo;
      todo := todo - {key};
      if key in payload {
        var value := payload[key];
        if value.Arr? && key in spec.sortKeys {
          var how := spec.sortKeys[key];
          if !Sortable(value.items, how) {
            return Err(Unsortable);
          }
          value := Arr(SortBy(value.items, ItemLeq(how)));
        }
        out := out[key := value];
      }
    }
    assert out == Strip(spec, payload);
    return Ok(out);
  }

  type Registry = map<string, SemanticKeySpec>

  function Canonicalize(specs: Registry, eventType: string, payload: Payload): Result<Payload, KeyError> {
    if eventType !in specs then Err(Unregistered)
    else if !Strippable(specs[eventType], payload) then Err(Unsortable)
    else Ok(Strip(specs[eventType], payload))
  }

  predicate Equivalent(specs: Registry, eventType: string, old_: Payload, new_: Payload) {
    && Canonicalize(specs, eventType, old_).Ok?
    && Canonicalize(specs, eventType, old_) == Canonicalize(specs, eventType, new_)
  }

  // ---- what the canonical form is ----

  /** What an item is sorted by: itself, or one of its fields, a missing one reading as "". */
  predicate IsSortKey(key: Json, item: Json, how: Option<string>) {
    match how
    case None => key == item
    case Some(k) => item.Obj? && key == if k in item.fields then item.fields[k] else Str("")
  }

  /** Numbers, booleans among them, by value; text by code point. */
  predicate KeyNotAbove(a: Json, b: Json) {
    || (IsNumber(a) && IsNumber(b) && NumberOf(a) <= NumberOf(b))
    || (a.Str? && b.Str? && (a.s == b.s || StrLt(a.s, b.s)))
  }

  /** The items, all of them, ascending by their sort keys. */
  ghost predicate IsSortOf(out: seq<Json>, items: seq<Json>, how: Option<string>) {
    && multiset(out) == multiset(items)
    && forall i, j :: 0 <= i < j < |out| ==> InKeyOrder(out[i], out[j], how)
  }

  ghost predicate InKeyOrder(a: Json, b: Json, how: Option<string>) {
    exists x, y :: IsSortKey(x, a, how) && IsSortKey(y, b, how) && KeyNotAbove(x, y)
  }

  lemma SortIs(items: seq<Json>, how: Option<string>)
    requires Sortable(items, how)
    ensures IsSortOf(SortBy(items, ItemLeq(how)), items, how)
  {
    var out := SortBy(items, ItemLeq(how));
    ItemLeqOrder(how);
    SortBySorts(items, ItemLeq(how));
    SameMembers(out, items);
    forall i, j | 0 <= i < j < |out| ensures InKeyOrder(out[i], out[j], how) {
      assert out[i] in items && out[j] in items && ItemLeq(how)(out[i], out[j]);
      KeysOfTwo(items, out[i], out[j], how);
    }
  }

  lemma KeysOfTwo(items: seq<Json>, a: Json, b: Json, how: Option<string>)
    requires Sortable(items, how) && |items| > 1 && a in items && b in items && ItemLeq(how)(a, b)
    ensures InKeyOrder(a, b, how)
  {
    var x, y := SortKeyOf(a, how), SortKeyOf(b, how);
    assert IsSortKey(x, a, how) && IsSortKey(y, b, how) && KeyNotAbove(x, y);
  }

  /** The canonical form keeps exactly the structural fields that are present, sorts the arrays
      that have a sort key, and changes nothing else. */
  lemma CanonicalIs(specs: Registry, eventType: string, payload: Payload)
    requires Canonicalize(specs, eventType, payload).Ok?
    ensures var spec, out := specs[eventType], Canonicalize(specs, eventType, payload).value;
            && (forall key :: key in out <==> key in payload && key in spec.structural)
            && (forall key :: key in out ==>
                  if payload[key].Arr? && key in spec.sortKeys
                  then out[key].Arr? && IsSortOf(out[key].items, payload[key].items, spec.sortKeys[key])
                  else out[key] == payload[key])
  {
    var spec, out := specs[eventType], Canonicalize(specs, eventType, payload).value;
    forall key | key in out && payload[key].Arr? && key in spec.sortKeys
      ensures out[key].Arr? && IsSortOf(out[key].items, payload[key].items, spec.sortKeys[key])
    {
      assert FieldOk(spec, key, payload[key]);
      SortIs(payload[key].items, spec.sortKeys[key]);
    }
  }

  // ---- what equivalence ignores, exactly ----

  function TiedWith(how: Option<string>, x: Json): Json -> bool {
    y => ItemLeq(how)(x, y) && ItemLeq(how)(y, x)
  }

  /** The items that tie with `x`, in their input order. */
  function TieClass(items: seq<Json>, how: Option<string>, x: Json): seq<Json> {
    Filter(items, TiedWith(how, x))
  }

  /** Two values of a structural field count as the same: equal values or, for a sorted array,
      the same items up to an order that keeps tied items in place. */
  ghost predicate FieldAgrees(spec: SemanticKeySpec, key: string, v: Json, w: Json) {
    if SortedField(spec, key, v) && SortedField(spec, key, w)
    then forall x :: TieClass(v.items, spec.sortKeys[key], x) == TieClass(w.items, spec.sortKeys[key], x)
    else v == w
  }

  lemma InOwnClass(items: seq<Json>, how: Option<string>, k: nat)
    requires k < |items|
    ensures items[k] in TieClass(items, how, items[k])
  {
    ItemLeqOrder(how);
  }

  lemma ClassOfTail(items: seq<Json>, how: Option<string>, x: Json)
    requires items != []
    ensures TieClass(items, how, x)
         == if TiedWith(how, x)(items[0]) then [items[0]] + TieClass(items[1..], how, x)
            else TieClass(items[1..], how, x)
  {
  }

  /** A sorted list is rebuilt from its tie classes. */
  lemma {:induction false} SameClassesSameList(a: seq<Json>, b: seq<Json>, how: Option<string>)
    requires Sorted(a, ItemLeq(how)) && Sorted(b, ItemLeq(how))
    requires forall x :: TieClass(a, how, x) == TieClass(b, how, x)
    ensures a == b
    decreases |a| + |b|
  {
    if b != [] {
      InOwnClass(b, how, 0);
    }
    if a != [] {
      InOwnClass(a, how, 0);
      SameHead(a, b, how);
      forall x ensures TieClass(a[1..], how, x) == TieClass(b[1..], how, x) {
        assert TieClass(a, how, x) == TieClass(b, how, x);
        ClassOfTail(a, how, x);
        ClassOfTail(b, how, x);
        if TiedWith(how, x)(a[0]) {
          assert TieClass(a[1..], how, x) == TieClass(a, how, x)[1..];
          assert TieClass(b[1..], how, x) == TieClass(b, how, x)[1..];
        }
      }
      SameClassesSameList(a[1..], b[1..], how);
    }
  }

  lemma SameHead(a: seq<Json>, b: seq<Json>, how: Option<string>)
    requires a != [] && b != []
    requires Sorted(a, ItemLeq(how)) && Sorted(b, ItemLeq(how))
    requires forall x :: TieClass(a, how, x) == TieClass(b, how, x)
    ensures a[0] == b[0]
  {
    InOwnClass(a, how, 0);
    InOwnClass(b, how, 0);
    assert TieClass(b, how, a[0]) == TieClass(a, how, a[0]);
    assert TieClass(a, how, b[0]) == TieClass(b, how, b[0]);
    assert a[0] in b && b[0] in a;
    ItemLeqOrder(how);
    assert ItemLeq(how)(a[0], b[0]) && ItemLeq(how)(b[0], a[0]);
    assert TiedWith(how, a[0])(b[0]) && TiedWith(how, a[0])(a[0]);
    ClassOfTail(a, how, a[0]);
    ClassOfTail(b, how, a[0]);
    assert TieClass(a, how, a[0])[0] == a[0] && TieClass(b, how, a[0])[0] == b[0];
  }

  /** A stable sort keeps every tie class as it was. */
  lemma SortKeepsClasses(items: seq<Json>, how: Option<string>, x: Json)
    ensures TieClass(SortBy(items, ItemLeq(how)), how, x) == TieClass(items, how, x)
  {
    ItemLeqOrder(how);
    FilterSort(items, TiedWith(how, x), ItemLeq(how));
    var class_ := TieClass(items, how, x);
    forall i, j | 0 <= i < j < |class_| ensures ItemLeq(how)(class_[i], class_[j]) {
      assert class_[i] in class_ && class_[j] in class_;
      assert TiedWith(how, x)(class_[i]) && TiedWith(how, x)(class_[j]);
      assert ItemLeq(how)(class_[i], x) && ItemLeq(how)(x, class_[j]);
    }
    SortFixpoint(class_, ItemLeq(how));
  }

  /** Two arrays sort to the same list exactly when their tie classes agree. */
  lemma SameSortIff(a: seq<Json>, b: seq<Json>, how: Option<string>)
    ensures SortBy(a, ItemLeq(how)) == SortBy(b, ItemLeq(how))
       <==> forall x :: TieClass(a, how, x) == TieClass(b, how, x)
  {
    ItemLeqOrder(how);
    var sa, sb := SortBy(a, ItemLeq(how)), SortBy(b, ItemLeq(how));
    forall x ensures TieClass(sa, how, x) == TieClass(a, how, x) && TieClass(sb, how, x) == TieClass(b, how, x) {
      SortKeepsClasses(a, how, x);
      SortKeepsClasses(b, how, x);
    }
    if forall x :: TieClass(a, how, x) == TieClass(b, how, x) {
      SortBySorts(a, ItemLeq(how));
      SortBySorts(b, ItemLeq(how));
      forall x ensures TieClass(sa, how, x) == TieClass(sb, how, x) {
        assert TieClass(a, how, x) == TieClass(b, how, x);
      }
      SameClassesSameList(sa, sb, how);
    }
  }

  /** The whole of the equivalence: the same structural fields are present and each agrees. */
  lemma EquivalentIff(specs: Registry, eventType: string, p: Payload, q: Payload)
    requires Canonicalize(specs, eventType, p).Ok? && Canonicalize(specs, eventType, q).Ok?
    ensures Equivalent(specs, eventType, p, q)
       <==> forall key :: key in specs[eventType].structural ==>
              (key in p <==> key in q) && (key in p && key in q ==> FieldAgrees(specs[eventType], key, p[key], q[key]))
  {
    var spec := specs[eventType];
    var a, b := Strip(spec, p), Strip(spec, q);
    forall key | key in p && key in q
      ensures CanonicalField(spec, key, p[key]) == CanonicalField(spec, key, q[key])
         <==> FieldAgrees(spec, key, p[key], q[key])
    {
      if SortedField(spec, key, p[key]) && SortedField(spec, key, q[key]) {
        SameSortIff(p[key].items, q[key].items, spec.sortKeys[key]);
      }
    }
    if a == b {
      forall key | key in spec.structural
        ensures (key in p <==> key in q) && (key in p && key in q ==> FieldAgrees(spec, key, p[key], q[key]))
      {
        assert key in a <==> key in p;
        assert key in b <==> key in q;
        if key in p && key in q {
          assert a[key] == b[key];
        }
      }
    }
    if forall key :: key in spec.structural ==>
         (key in p <==> key in q) && (key in p && key in q ==> FieldAgrees(spec, key, p[key], q[key])) {
      assert a.Keys == b.Keys;
      assert a == b;
    }
  }

  /** Swapping two tied but different items changes what the array sorts to. */
  lemma SwapTiedChangesSort(items: seq<Json>, how: Option<string>, i: nat, j: nat)
    requires i < j < |items| && items[i] != items[j]
    requires ItemLeq(how)(items[i], items[j]) && ItemLeq(how)(items[j], items[i])
    ensures SortBy(items[i := items[j]][j := items[i]], ItemLeq(how)) != SortBy(items, ItemLeq(how))
  {
    ItemLeqOrder(how);
    var swapped := items[i := items[j]][j := items[i]];
    var x := items[i];
    var tied := TiedWith(how, x);
    assert items == items[..i] + ([items[i]] + items[i + 1..]);
    assert swapped == items[..i] + ([items[j]] + swapped[i + 1..]);
    FilterAppend(items[..i], [items[i]] + items[i + 1..], tied);
    FilterAppend(items[..i], [items[j]] + swapped[i + 1..], tied);
    FilterAppend([items[i]], items[i + 1..], tied);
    FilterAppend([items[j]], swapped[i + 1..], tied);
    assert Filter([items[i]], tied) == [items[i]] && Filter([items[j]], tied) == [items[j]];
    var head := |Filter(items[..i], tied)|;
    assert TieClass(items, how, x)[head] == items[i];
    assert TieClass(swapped, how, x)[head] == items[j];
    SameSortIff(swapped, items, how);
  }

  /** Every reordering of an array is ignored exactly when no two different items tie. */
  lemma ReorderIgnoredIff(items: seq<Json>, how: Option<string>)
    ensures (forall other :: multiset(other) == multiset(items) ==>
               SortBy(other, ItemLeq(how)) == SortBy(items, ItemLeq(how)))
       <==> TiesIdentical(items, ItemLeq(how))
  {
    ItemLeqOrder(how);
    var leq := ItemLeq(how);
    if TiesIdentical(items, leq) {
      forall other | multiset(other) == multiset(items) ensures SortBy(other, leq) == SortBy(items, leq) {
        SortIgnoresOrder(items, other, leq);
      }
    } else {
      var other := ReorderThatShows(items, how);
    }
  }

  /** When two different items tie, some reordering is noticed. */
  lemma ReorderThatShows(items: seq<Json>, how: Option<string>) returns (other: seq<Json>)
    requires !TiesIdentical(items, ItemLeq(how))
    ensures multiset(other) == multiset(items)
    ensures SortBy(other, ItemLeq(how)) != SortBy(items, ItemLeq(how))
  {
    var x, y :| x in items && y in items && ItemLeq(how)(x, y) && ItemLeq(how)(y, x) && x != y;
    var m :| 0 <= m < |items| && items[m] == x;
    var n :| 0 <= n < |items| && items[n] == y;
    var i, j := if m < n then m else n, if m < n then n else m;
    other := items[i := items[j]][j := items[i]];
    SwapTiedChangesSort(items, how, i, j);
    SwapPermutes(items, i, j);
  }

  lemma SwapPermutes(items: seq<Json>, i: nat, j: nat)
    requires i < j < |items|
    ensures multiset(items[i := items[j]][j := items[i]]) == multiset(items)
  {
  }

  // ---- Python's == ----

  /** Python's `==` on decoded JSON: numbers, booleans among them, compare by value whatever
      their type, so values that read equal may have different JSON text. */
  predicate ReadsEqual(a: Json, b: Json) {
    if IsNumber(a) || IsNumber(b) then IsNumber(a) && IsNumber(b) && NumberOf(a) == NumberOf(b)
    else
      match a
      case Null => b.Null?
      case Str(s) => b == a
      case Arr(items) =>
        b.Arr? && |items| == |b.items| && forall i :: 0 <= i < |items| ==> ReadsEqual(items[i], b.items[i])
      case Obj(fields) =>
        b.Obj? && fields.Keys == b.fields.Keys && forall k :: k in fields.Keys ==> ReadsEqual(fields[k], b.fields[k])
  }

  lemma {:induction false} ReadsEqualReflexive(a: Json)
    ensures ReadsEqual(a, a)
  {
    match a
    case Arr(items) =>
      forall i | 0 <= i < |items| ensures ReadsEqual(items[i], items[i]) {
        ReadsEqualReflexive(items[i]);
      }
    case Obj(fields) =>
      forall k | k in fields.Keys ensures ReadsEqual(fields[k], fields[k]) {
        ReadsEqualReflexive(fields[k]);
      }
    case _ =>
  }

  predicate ReadEqual(a: seq<Json>, b: seq<Json>) {
    |a| == |b| && forall i :: 0 <= i < |a| ==> ReadsEqual(a[i], b[i])
  }

  /** Items that read equal tie, whatever they are sorted by. */
  lemma ReadsEqualTies(a: Json, b: Json, how: Option<string>)
    requires ReadsEqual(a, b)
    ensures TiedWith(how, a)(b)
  {
    var x, y := SortKeyOf(a, how), SortKeyOf(b, how);
    if how.Some? {
      if a.Obj? && how.value in a.fields {
        assert b.Obj? && how.value in b.fields && ReadsEqual(a.fields[how.value], b.fields[how.value]);
      } else {
        assert x == Str("") && y == Str("");
      }
    }
    assert ReadsEqual(x, y);
    assert ScalarLeq(x, y) && ScalarLeq(y, x);
    assert ItemLeq(how)(a, b) && ItemLeq(how)(b, a);
  }

  /** Pointwise equal lists have pointwise equal tie classes. */
  lemma {:induction false} ReadEqualClasses(a: seq<Json>, b: seq<Json>, how: Option<string>, x: Json)
    requires ReadEqual(a, b)
    ensures ReadEqual(TieClass(a, how, x), TieClass(b, how, x))
  {
    if a != [] {
      ReadEqualClasses(a[1..], b[1..], how, x);
      ReadsEqualTies(a[0], b[0], how);
      ItemLeqOrder(how);
      assert TiedWith(how, x)(a[0]) <==> TiedWith(how, x)(b[0]);
      ClassOfTail(a, how, x);
      ClassOfTail(b, how, x);
    }
  }

  ghost predicate ClassesRead(a: seq<Json>, b: seq<Json>, how: Option<string>) {
    forall x :: ReadEqual(TieClass(a, how, x), TieClass(b, how, x))
  }

  lemma HeadOfClass(a: seq<Json>, how: Option<string>, x: Json)
    requires a != [] && TiedWith(how, x)(a[0])
    ensures TieClass(a, how, x) != [] && TieClass(a, how, x)[0] == a[0]
  {
    ClassOfTail(a, how, x);
  }

  /** The heads of two sorted lists whose classes read equal read equal. */
  lemma ReadHead(a: seq<Json>, b: seq<Json>, how: Option<string>)
    requires a != [] && b != []
    requires Sorted(a, ItemLeq(how)) && Sorted(b, ItemLeq(how)) && ClassesRead(a, b, how)
    ensures ReadsEqual(a[0], b[0])
  {
    ItemLeqOrder(how);
    HeadOfClass(a, how, a[0]);
    HeadOfClass(b, how, b[0]);
    assert ReadEqual(TieClass(a, how, a[0]), TieClass(b, how, a[0]));
    assert ReadEqual(TieClass(a, how, b[0]), TieClass(b, how, b[0]));
    var y, z := TieClass(b, how, a[0])[0], TieClass(a, how, b[0])[0];
    assert y in TieClass(b, how, a[0]) && z in TieClass(a, how, b[0]);
    assert y in b && z in a;
    assert ItemLeq(how)(a[0], z) && ItemLeq(how)(z, b[0]);
    assert ItemLeq(how)(b[0], y) && ItemLeq(how)(y, a[0]);
    HeadOfClass(b, how, a[0]);
  }

  /** Sorted lists read equal pointwise when their tie classes do. */
  lemma {:induction false} ClassesReadSameList(a: seq<Json>, b: seq<Json>, how: Option<string>)
    requires Sorted(a, ItemLeq(how)) && Sorted(b, ItemLeq(how)) && ClassesRead(a, b, how)
    ensures ReadEqual(a, b)
    decreases |a| + |b|
  {
    BothEmpty(a, b, how);
    if a != [] {
      ReadHead(a, b, how);
      ClassesReadTail(a, b, how);
      ClassesReadSameList(a[1..], b[1..], how);
      ReadEqualCons(a, b);
    }
  }

  lemma BothEmpty(a: seq<Json>, b: seq<Json>, how: Option<string>)
    requires ClassesRead(a, b, how)
    ensures a == [] <==> b == []
  {
    ItemLeqOrder(how);
    if a != [] {
      HeadOfClass(a, how, a[0]);
      assert ReadEqual(TieClass(a, how, a[0]), TieClass(b, how, a[0]));
    }
    if b != [] {
      HeadOfClass(b, how, b[0]);
      assert ReadEqual(TieClass(a, how, b[0]), TieClass(b, how, b[0]));
    }
  }

  lemma ReadEqualCons(a: seq<Json>, b: seq<Json>)
    requires a != [] && b != [] && ReadsEqual(a[0], b[0]) && ReadEqual(a[1..], b[1..])
    ensures ReadEqual(a, b)
  {
    forall i | 0 <= i < |a| ensures ReadsEqual(a[i], b[i]) {
      assert i > 0 ==> a[i] == a[1..][i - 1] && b[i] == b[1..][i - 1];
    }
  }

  lemma ClassesReadTail(a: seq<Json>, b: seq<Json>, how: Option<string>)
    requires a != [] && b != [] && ReadsEqual(a[0], b[0]) && ClassesRead(a, b, how)
    ensures ClassesRead(a[1..], b[1..], how)
  {
    ItemLeqOrder(how);
    ReadsEqualTies(a[0], b[0], how);
    forall x ensures ReadEqual(TieClass(a[1..], how, x), TieClass(b[1..], how, x)) {
      assert ReadEqual(TieClass(a, how, x), TieClass(b, how, x));
      ClassOfTail(a, how, x);
      ClassOfTail(b, how, x);
      if TiedWith(how, x)(a[0]) {
        assert TieClass(a[1..], how, x) == TieClass(a, how, x)[1..];
        assert TieClass(b[1..], how, x) == TieClass(b, how, x)[1..];
      }
    }
  }

  /** Two arrays sort to lists that read equal exactly when their tie classes do. */
  lemma SortsReadEqualIff(a: seq<Json>, b: seq<Json>, how: Option<string>)
    ensures ReadEqual(SortBy(a, ItemLeq(how)), SortBy(b, ItemLeq(how))) <==> ClassesRead(a, b, how)
  {
    ItemLeqOrder(how);
    var sa, sb := SortBy(a, ItemLeq(how)), SortBy(b, ItemLeq(how));
    forall x ensures TieClass(sa, how, x) == TieClass(a, how, x) && TieClass(sb, how, x) == TieClass(b, how, x) {
      SortKeepsClasses(a, how, x);
      SortKeepsClasses(b, how, x);
    }
    if ReadEqual(sa, sb) {
      forall x ensures ReadEqual(TieClass(a, how, x), TieClass(b, how, x)) {
        ReadEqualClasses(sa, sb, how, x);
      }
    }
    if ClassesRead(a, b, how) {
      forall x ensures ReadEqual(TieClass(sa, how, x), TieClass(sb, how, x)) {
        assert ReadEqual(TieClass(a, how, x), TieClass(b, how, x));
      }
      SortBySorts(a, ItemLeq(how));
      SortBySorts(b, ItemLeq(how));
      ClassesReadSameList(sa, sb, how);
    }
  }

  // ---- payloads_equivalent ----

  /** Python's `.get(key)`: a missing field reads as null. */
  function GetOrNull(p: Payload, key: string): Json {
    if key in p then p[key] else Null
  }

  /** The verdict is decided on JSON text, the difference with `==`. */
  ghost function DiffKeys(specs: Registry, eventType: string, old_: Payload, new_: Payload): set<string>
    requires eventType in specs
  {
    var spec := specs[eventType];
    set key | key in spec.structural
              && !ReadsEqual(GetOrNull(Strip(spec, old_), key), GetOrNull(Strip(spec, new_), key))
  }

  /** `payloads_equivalent`: the verdict and, on a conflict, the names of the fields that differ. */
  method PayloadsEquivalent(specs: Registry, eventType: string, old_: Payload, new_: Payload)
    returns (r: Result<(bool, seq<string>), KeyError>)
    ensures r.Err? <==> Canonicalize(specs, eventType, old_).Err? || Canonicalize(specs, eventType, new_).Err?
    ensures r.Ok? ==> (r.value.0 <==> Equivalent(specs, eventType, old_, new_))
    ensures r.Ok? && !r.value.0 ==>
              && (forall key :: key in r.value.1 <==> key in DiffKeys(specs, eventType, old_, new_))
              && Sorted(r.value.1, StrLeq)
  {
    if eventType !in specs {
      return Err(Unregistered);
    }
    var spec := specs[eventType];
    var oldStripped := StripPayload(old_, spec);
    var newStripped := StripPayload(new_, spec);
    if oldStripped.Err? || newStripped.Err? {
      return Err(Unsortable);
    }
    if oldStripped.value == newStripped.value {
      return Ok((true, []));
    }
    var diff: seq<string> := [];
    var todo := spec.structural;
    while todo != {}
      invariant todo <= spec.structural
      invariant forall key :: key in diff <==>
                  (key in spec.structural - todo
                   && !ReadsEqual(GetOrNull(oldStripped.value, key), GetOrNull(newStripped.value, key)))
      decreases todo
    {
      var key :| key in todo;
      todo := todo - {key};
      if !ReadsEqual(GetOrNull(oldStripped.value, key), GetOrNull(newStripped.value, key)) {
        diff := diff + [key];
      }
    }
    StrLeqOrder();
    SortBySorts(diff, StrLeq);
    SameMembers(SortBy(diff, StrLeq), diff);
    return Ok((false, SortBy(diff, StrLeq)));
  }

  /** Two values of a structural field read the same: a sorted array class by class, anything
      else by `==`. */
  ghost predicate FieldReads(spec: SemanticKeySpec, key: string, v: Json, w: Json) {
    if SortedField(spec, key, v) && SortedField(spec, key, w)
    then ClassesRead(v.items, w.items, spec.sortKeys[key])
    else ReadsEqual(v, w)
  }

  lemma ArraysReadIff(a: seq<Json>, b: seq<Json>)
    ensures ReadsEqual(Arr(a), Arr(b)) <==> ReadEqual(a, b)
  {
  }

  lemma FieldReadsIff(spec: SemanticKeySpec, key: string, v: Json, w: Json)
    ensures ReadsEqual(CanonicalField(spec, key, v), CanonicalField(spec, key, w)) <==> FieldReads(spec, key, v, w)
  {
    if SortedField(spec, key, v) && SortedField(spec, key, w) {
      var leq := ItemLeq(spec.sortKeys[key]);
      SortsReadEqualIff(v.items, w.items, spec.sortKeys[key]);
      ArraysReadIff(SortBy(v.items, leq), SortBy(w.items, leq));
    } else if v.Arr? && w.Arr? {
      assert !SortedField(spec, key, v) && !SortedField(spec, key, w);
    }
  }

  /** Neither side shows the field as different: both have it and it reads the same, or the
      side that has it holds null. */
  ghost predicate Unreported(spec: SemanticKeySpec, key: string, p: Payload, q: Payload) {
    if key in p && key in q then FieldReads(spec, key, p[key], q[key])
    else (key in p ==> p[key] == Null) && (key in q ==> q[key] == Null)
  }

  /** A conflict reports exactly the structural fields that read differently; it reports none
      exactly when all of them read the same, be it as missing against null, as numbers of
      different types, or as tied items that read equal. */
  lemma ConflictWithoutDiffIff(specs: Registry, eventType: string, p: Payload, q: Payload)
    requires Canonicalize(specs, eventType, p).Ok? && Canonicalize(specs, eventType, q).Ok?
    ensures forall key :: key in DiffKeys(specs, eventType, p, q) <==>
              key in specs[eventType].structural && !Unreported(specs[eventType], key, p, q)
    ensures DiffKeys(specs, eventType, p, q) == {}
       <==> forall key :: key in specs[eventType].structural ==> Unreported(specs[eventType], key, p, q)
  {
    var spec := specs[eventType];
    forall key | key in spec.structural
      ensures key !in DiffKeys(specs, eventType, p, q) <==> Unreported(spec, key, p, q)
    {
      if key in p && key in q {
        FieldReadsIff(spec, key, p[key], q[key]);
      } else {
        assert ReadsEqual(Null, Null);
      }
    }
  }

  /** Without a conflict there is nothing to report. */
  lemma EquivalentReportsNothing(specs: Registry, eventType: string, p: Payload, q: Payload)
    requires Equivalent(specs, eventType, p, q)
    ensures DiffKeys(specs, eventType, p, q) == {}
  {
    var spec := specs[eventType];
    assert Strip(spec, p) == Strip(spec, q);
    forall key | key in spec.structural ensures key !in DiffKeys(specs, eventType, p, q) {
      ReadsEqualReflexive(if key in Strip(spec, p) then Strip(spec, p)[key] else Null);
    }
  }

  function OneField(): Registry {
    map["e" := SemanticKeySpec({"f"}, {}, map[])]
  }

  lemma OneFieldConflict(v: Json, w: Json)
    requires v != w && ReadsEqual(v, w)
    ensures !Equivalent(OneField(), "e", map["f" := v], map["f" := w])
    ensures DiffKeys(OneField(), "e", map["f" := v], map["f" := w]) == {}
  {
    var spec := OneField()["e"];
    assert Strip(spec, map["f" := v])["f"] == v && Strip(spec, map["f" := w])["f"] == w;
  }

  /** For instance: 1 against 1.0 is a conflict that names no field, with nothing missing or
      null. */
  lemma NumberConflictWithoutDiff()
    ensures !Equivalent(OneField(), "e", map["f" := Int(1)], map["f" := Float(1.0)])
    ensures DiffKeys(OneField(), "e", map["f" := Int(1)], map["f" := Float(1.0)]) == {}
  {
    OneFieldConflict(Int(1), Float(1.0));
  }

  /** So is a missing field against one that holds null. */
  lemma NullConflictWithoutDiff()
    ensures !Equivalent(OneField(), "e", map[], map["f" := Null])
    ensures DiffKeys(OneField(), "e", map[], map["f" := Null]) == {}
  {
    var spec := OneField()["e"];
    assert "f" in Strip(spec, map["f" := Null]) && "f" !in Strip(spec, map[]);
    assert Strip(spec, map["f" := Null])["f"] == Null;
  }

  // ---- derived idempotency keys ----

  /** The event type a tool writes first: the derivation table of the shipped tools. */
  function PrimaryEvent(tool: string): Option<string> {
    if tool == "venue.add" then Some("venue.created")
    else if tool == "market.bind" then Some("market.bound")
    else if tool == "instrument.add" then Some("instrument.created")
    else if tool == "snapshot.add" then Some("snapshot.added")
    else if tool == "thesis.add" then Some("thesis.created")
    else if tool == "forecast.add" then Some("forecast.created")
    else if tool == "forecast.supersede" then Some("forecast.superseded")
    else if tool == "decision.add" then Some("decision.created")
    else if tool == "resolution.add" then Some("outcome.recorded")
    else if tool == "outcome.add" then Some("outcome.recorded")
    else if tool == "resolve.record" then Some("outcome.recorded")
    else if tool == "source.add" then Some("source.added")
    else if tool == "strategy.upsert" then Some("strategy.created")
    else if tool == "strategy.create" then Some("strategy.created")
    else if tool == "strategy.update" then Some("strategy.updated")
    else if tool == "playbook.upsert" then Some("playbook.created")
    else if tool == "playbook.create" then Some("playbook.created")
    else if tool == "playbook.propose_version" then Some("playbook.proposed_version")
    else if tool == "playbook.record_adherence" then Some("playbook_rule.followed")
    else if tool == "decision.record_adherence" then Some("playbook_rule.followed")
    else if tool == "memory.retain" then Some("memory_node.retained")
    else if tool == "idea.capture" then Some("memory_node.retained")
    else if tool == "risk.policy_version_add" then Some("risk_policy_version.created")
    else if tool == "risk.check_record" then Some("risk_check_receipt.recorded")
    else if tool == "approval.record" then Some("approval_waiver.recorded")
    else if tool == "reconciliation.record" then Some("reconciliation.recorded")
    else if tool == "abstention.record" then Some("abstention.recorded")
    else if tool == "forecast.commit_blind" then Some("forecast.blind_committed")
    else if tool == "forecast.reveal_snapshot" then Some("forecast.independence_revealed")
    else if tool == "forecast.interpret_resolution" then Some("forecast.resolution_interpreted")
    else None
  }

  /** `derive_idempotency_key`: `None` for a tool outside the derivation table. */
  function DeriveKey(specs: Registry, toolEvents: map<string, string>,
                     digest: (string, Payload) -> string, tool: string, args: Payload)
    : Result<Option<string>, KeyError>
  {
    if tool !in toolEvents then Ok(None)
    else
      match Canonicalize(specs, toolEvents[tool], args)
      case Err(e) => Err(e)
      case Ok(c) => Ok(Some("auto:" + digest(tool, c)))
  }
}
