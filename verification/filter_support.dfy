/** Which filters a report accepts and which it echoes (src/trade_trace/reports/_filter_support.py).

    A filter is a tree of named sections with leaf values; a default filter has the same shape.
    Paths are dotted text, as in the declarations of the reports. */
module FilterSupport {
  import opened Outcomes
  import opened Text

  datatype Tree = Leaf(value: string) | Node(fields: seq<Field>)

  datatype Field = Field(name: string, child: Tree)

  /** Field names are identifiers: not empty, without dots, unique in their section. */
  predicate WellNamed(t: Tree) {
    t.Leaf? ||
    ((forall i :: 0 <= i < |t.fields| ==> t.fields[i].name != "" && DOT !in t.fields[i].name)
     && (forall i, j :: 0 <= i < j < |t.fields| ==> t.fields[i].name != t.fields[j].name)
     && (forall i :: 0 <= i < |t.fields| ==> WellNamed(t.fields[i].child)))
  }

  /** Two dumps of one model. */
  predicate SameShape(a: Tree, b: Tree) {
    if a.Leaf? || b.Leaf? then a.Leaf? && b.Leaf?
    else
      && |a.fields| == |b.fields|
      && (forall i :: 0 <= i < |a.fields| ==> a.fields[i].name == b.fields[i].name)
      && (forall i :: 0 <= i < |a.fields| ==> SameShape(a.fields[i].child, b.fields[i].child))
  }

  /** `f"{prefix}.{key}" if prefix else key`. */
  function Extend(prefix: string, name: string): string {
    if prefix != "" then prefix + [DOT] + name else name
  }

  // ---- the difference ----

  function Diff(base: Tree, actual: Tree, prefix: string): seq<string>
    requires SameShape(base, actual)
    decreases base, 1
  {
    if base.Leaf? then if base != actual then [prefix] else []
    else DiffFields(base, actual, prefix, |base.fields|)
  }

  function DiffFields(base: Tree, actual: Tree, prefix: string, n: nat): seq<string>
    requires base.Node? && SameShape(base, actual) && n <= |base.fields|
    decreases base, 0, n
  {
    if n == 0 then []
    else
      DiffFields(base, actual, prefix, n - 1)
      + Diff(base.fields[n - 1].child, actual.fields[n - 1].child, Extend(prefix, base.fields[n - 1].name))
  }

  function FieldDiff(base: Tree, actual: Tree, prefix: string, i: nat): seq<string>
    requires base.Node? && SameShape(base, actual) && i < |base.fields|
  {
    Diff(base.fields[i].child, actual.fields[i].child, Extend(prefix, base.fields[i].name))
  }

  lemma DiffStep(base: Tree, actual: Tree, prefix: string, i: nat)
    requires base.Node? && SameShape(base, actual) && i < |base.fields|
    ensures DiffFields(base, actual, prefix, i + 1) == DiffFields(base, actual, prefix, i) + FieldDiff(base, actual, prefix, i)
  {
  }

  /** `_diff_paths`, appending to `out`. */
  method DiffPaths(base: Tree, actual: Tree, prefix: string, out: seq<string>) returns (r: seq<string>)
    requires SameShape(base, actual)
    ensures r == out + Diff(base, actual, prefix)
    decreases base
  {
    r := out;
    if base.Node? && actual.Node? {
      for i := 0 to |base.fields|
        invariant r == out + DiffFields(base, actual, prefix, i)
      {
        DiffStep(base, actual, prefix, i);
        r := DiffPaths(base.fields[i].child, actual.fields[i].child, Extend(prefix, base.fields[i].name), r);
        assert out + (DiffFields(base, actual, prefix, i) + FieldDiff(base, actual, prefix, i)) == r;
      }
      return;
    }
    if base != actual {
      r := r + [prefix];
    }
  }

  // ---- the view ----

  /** The leaves at supported paths from `actual`, the others from `base`. */
  function Overlay(base: Tree, actual: Tree, prefix: string, supported: set<string>): (r: Tree)
    requires SameShape(base, actual)
    ensures SameShape(r, actual)
    decreases base, 1
  {
    if base.Leaf? then if prefix in supported then actual else base
    else Node(OverlayFields(base, actual, prefix, supported, |base.fields|))
  }

  function OverlayFields(base: Tree, actual: Tree, prefix: string, supported: set<string>, n: nat): (r: seq<Field>)
    requires base.Node? && SameShape(base, actual) && n <= |base.fields|
    ensures |r| == n
    ensures forall i :: 0 <= i < n ==>
              SameShape(r[i].child, actual.fields[i].child)
              && r[i] == Field(base.fields[i].name,
                               Overlay(base.fields[i].child, actual.fields[i].child, Extend(prefix, base.fields[i].name), supported))
    decreases base, 0, n
  {
    if n == 0 then []
    else
      OverlayFields(base, actual, prefix, supported, n - 1)
      + [Field(base.fields[n - 1].name,
               Overlay(base.fields[n - 1].child, actual.fields[n - 1].child, Extend(prefix, base.fields[n - 1].name), supported))]
  }

  /** The `i`-th field of the overlay is the filter's. */
  ghost predicate Restored(base: Tree, actual: Tree, prefix: string, supported: set<string>, i: nat)
    requires base.Node? && SameShape(base, actual) && i < |base.fields|
  {
    Overlay(base.fields[i].child, actual.fields[i].child, Extend(prefix, base.fields[i].name), supported) == actual.fields[i].child
  }

  lemma RestoredAll(base: Tree, actual: Tree, prefix: string, supported: set<string>)
    requires base.Node? && SameShape(base, actual)
    ensures Overlay(base, actual, prefix, supported) == actual
       <==> forall i :: 0 <= i < |base.fields| ==> Restored(base, actual, prefix, supported, i)
  {
    var view := Overlay(base, actual, prefix, supported);
    if forall i :: 0 <= i < |base.fields| ==> Restored(base, actual, prefix, supported, i) {
      forall i | 0 <= i < |base.fields| ensures view.fields[i] == actual.fields[i] {
        assert Restored(base, actual, prefix, supported, i);
      }
      assert view.fields == actual.fields;
    }
    if view == actual {
      forall i | 0 <= i < |base.fields| ensures Restored(base, actual, prefix, supported, i) {
        assert view.fields[i] == actual.fields[i];
      }
    }
  }

  ghost predicate AllSupported(paths: seq<string>, supported: set<string>) {
    forall p :: p in paths ==> p in supported
  }

  /** The overlay restores the filter exactly where every difference is supported. */
  lemma {:induction false} OverlayIff(base: Tree, actual: Tree, prefix: string, supported: set<string>)
    requires SameShape(base, actual)
    ensures Overlay(base, actual, prefix, supported) == actual <==> AllSupported(Diff(base, actual, prefix), supported)
    decreases base, 1
  {
    if base.Node? {
      OverlayFieldsIff(base, actual, prefix, supported, |base.fields|);
      RestoredAll(base, actual, prefix, supported);
      assert RestoredTo(base, actual, prefix, supported, |base.fields|)
        <==> forall i :: 0 <= i < |base.fields| ==> Restored(base, actual, prefix, supported, i);
    }
  }

  ghost predicate RestoredTo(base: Tree, actual: Tree, prefix: string, supported: set<string>, n: nat)
    requires base.Node? && SameShape(base, actual) && n <= |base.fields|
  {
    forall i :: 0 <= i < n ==> Restored(base, actual, prefix, supported, i)
  }

  lemma RestoredStep(base: Tree, actual: Tree, prefix: string, supported: set<string>, n: nat)
    requires base.Node? && SameShape(base, actual) && n < |base.fields|
    ensures RestoredTo(base, actual, prefix, supported, n + 1)
       <==> RestoredTo(base, actual, prefix, supported, n) && Restored(base, actual, prefix, supported, n)
  {
  }

  lemma {:induction false} OverlayFieldsIff(base: Tree, actual: Tree, prefix: string, supported: set<string>, n: nat)
    requires base.Node? && SameShape(base, actual) && n <= |base.fields|
    ensures RestoredTo(base, actual, prefix, supported, n) <==> AllSupported(DiffFields(base, actual, prefix, n), supported)
    decreases base, 0, n
  {
    if n > 0 {
      var k := n - 1;
      OverlayFieldsIff(base, actual, prefix, supported, k);
      OverlayIff(base.fields[k].child, actual.fields[k].child, Extend(prefix, base.fields[k].name), supported);
      DiffStep(base, actual, prefix, k);
      SupportedJoin(DiffFields(base, actual, prefix, k), FieldDiff(base, actual, prefix, k), supported);
      RestoredStep(base, actual, prefix, supported, k);
    }
  }

  lemma SupportedJoin(a: seq<string>, b: seq<string>, supported: set<string>)
    ensures AllSupported(a + b, supported) <==> AllSupported(a, supported) && AllSupported(b, supported)
  {
    if AllSupported(a + b, supported) {
      assert forall p :: p in a ==> p in a + b;
      assert forall p :: p in b ==> p in a + b;
    }
  }

  // ---- reading and assigning by path ----

  function FieldIndex(fields: seq<Field>, name: string): (i: nat)
    ensures i <= |fields|
    ensures i < |fields| ==> fields[i].name == name
    ensures forall j :: 0 <= j < i ==> fields[j].name != name
  {
    if fields == [] then 0 else if fields[0].name == name then 0 else 1 + FieldIndex(fields[1..], name)
  }

  /** The path names a leaf. */
  predicate NamesLeaf(t: Tree, parts: seq<string>)
    decreases |parts|
  {
    if parts == [] then t.Leaf?
    else
      t.Node? && FieldIndex(t.fields, parts[0]) < |t.fields|
      && NamesLeaf(t.fields[FieldIndex(t.fields, parts[0])].child, parts[1..])
  }

  function ReadPath(t: Tree, parts: seq<string>): Tree
    requires NamesLeaf(t, parts)
    decreases |parts|
  {
    if parts == [] then t else ReadPath(t.fields[FieldIndex(t.fields, parts[0])].child, parts[1..])
  }

  function AssignPath(t: Tree, parts: seq<string>, value: Tree): Tree
    requires NamesLeaf(t, parts)
    decreases |parts|
  {
    if parts == [] then value
    else
      var i := FieldIndex(t.fields, parts[0]);
      Node(t.fields[i := Field(parts[0], AssignPath(t.fields[i].child, parts[1..], value))])
  }

  lemma {:induction false} ShapeNames(a: Tree, b: Tree, parts: seq<string>)
    requires SameShape(a, b)
    ensures NamesLeaf(a, parts) <==> NamesLeaf(b, parts)
    decreases |parts|
  {
    if parts != [] && a.Node? {
      SameIndex(a.fields, b.fields, parts[0]);
      var i := FieldIndex(a.fields, parts[0]);
      if i < |a.fields| {
        ShapeNames(a.fields[i].child, b.fields[i].child, parts[1..]);
      }
    }
  }

  lemma {:induction false} SameIndex(a: seq<Field>, b: seq<Field>, name: string)
    requires |a| == |b| && forall i :: 0 <= i < |a| ==> a[i].name == b[i].name
    ensures FieldIndex(a, name) == FieldIndex(b, name)
  {
    if a != [] {
      assert forall i :: 0 <= i < |a[1..]| ==> a[1..][i] == a[i + 1] && b[1..][i] == b[i + 1];
      SameIndex(a[1..], b[1..], name);
    }
  }

  lemma {:induction false} JoinSnoc(parts: seq<string>, name: string)
    requires name != "" && forall i :: 0 <= i < |parts| ==> parts[i] != ""
    ensures Join(parts + [name], DOT) == Extend(Join(parts, DOT), name)
    ensures parts != [] ==> Join(parts, DOT) != ""
  {
    if parts == [] {
      assert parts + [name] == [name];
    } else if |parts| == 1 {
      assert (parts + [name])[1..] == [name];
    } else {
      assert (parts + [name])[1..] == parts[1..] + [name];
      JoinSnoc(parts[1..], name);
      assert parts[0] + [DOT] + (Join(parts[1..], DOT) + [DOT] + name) == Join(parts, DOT) + [DOT] + name;
    }
  }

  ghost predicate Names(parts: seq<string>) {
    forall i :: 0 <= i < |parts| ==> parts[i] != "" && DOT !in parts[i]
  }

  /** Distinct paths have distinct texts. */
  lemma PathInjective(a: seq<string>, b: seq<string>)
    requires Names(a) && Names(b) && a != [] && b != [] && Join(a, DOT) == Join(b, DOT)
    ensures a == b
  {
    SplitOfJoin(a, DOT);
    SplitOfJoin(b, DOT);
  }

  /** Setting the leaf at `above + parts` to the filter's value adds that one path to an overlay. */
  lemma {:induction false} AssignIsOverlay(base: Tree, actual: Tree, above: seq<string>, parts: seq<string>, done: set<string>)
    requires SameShape(base, actual) && WellNamed(base) && Names(above) && Names(parts)
    requires above + parts != []
    requires NamesLeaf(actual, parts) && NamesLeaf(Overlay(base, actual, Join(above, DOT), done), parts)
    ensures AssignPath(Overlay(base, actual, Join(above, DOT), done), parts, ReadPath(actual, parts))
         == Overlay(base, actual, Join(above, DOT), done + {Join(above + parts, DOT)})
    decreases |parts|
  {
    if parts == [] {
      assert above + parts == above;
    } else {
      var i := PathIndex(base, actual, above, parts, done);
      StepDown(base, above, parts, i);
      AssignIsOverlay(base.fields[i].child, actual.fields[i].child, above + [parts[0]], parts[1..], done);
      AssignNode(base, actual, above, parts, done, i);
    }
  }

  lemma StepDown(base: Tree, above: seq<string>, parts: seq<string>, i: nat)
    requires base.Node? && WellNamed(base) && Names(above) && Names(parts) && parts != [] && i < |base.fields|
    ensures WellNamed(base.fields[i].child) && Names(above + [parts[0]]) && Names(parts[1..])
    ensures above + parts == (above + [parts[0]]) + parts[1..] && (above + [parts[0]]) + parts[1..] != []
  {
  }

  /** The field a path goes into, the same in the default, the filter and the overlay. */
  lemma PathIndex(base: Tree, actual: Tree, above: seq<string>, parts: seq<string>, done: set<string>) returns (i: nat)
    requires SameShape(base, actual) && WellNamed(base) && Names(above) && parts != []
    requires NamesLeaf(actual, parts) && NamesLeaf(Overlay(base, actual, Join(above, DOT), done), parts)
    ensures base.Node? && actual.Node? && i < |base.fields| && i < |actual.fields| && base.fields[i].name == parts[0]
    ensures i == FieldIndex(actual.fields, parts[0]) == FieldIndex(Overlay(base, actual, Join(above, DOT), done).fields, parts[0])
    ensures NamesLeaf(actual.fields[i].child, parts[1..])
    ensures SameShape(base.fields[i].child, actual.fields[i].child)
    ensures NamesLeaf(Overlay(base.fields[i].child, actual.fields[i].child, Join(above + [parts[0]], DOT), done), parts[1..])
  {
    i := FieldIndex(actual.fields, parts[0]);
    SameIndex(base.fields, actual.fields, parts[0]);
    SameIndex(Overlay(base, actual, Join(above, DOT), done).fields, actual.fields, parts[0]);
    ChildOverlay(base, actual, above, i, done);
  }

  lemma AssignNode(base: Tree, actual: Tree, above: seq<string>, parts: seq<string>, done: set<string>, i: nat)
    requires SameShape(base, actual) && WellNamed(base) && Names(above) && Names(parts) && parts != []
    requires NamesLeaf(actual, parts) && NamesLeaf(Overlay(base, actual, Join(above, DOT), done), parts)
    requires base.Node? && i < |base.fields| && base.fields[i].name == parts[0]
    requires i == FieldIndex(actual.fields, parts[0]) == FieldIndex(Overlay(base, actual, Join(above, DOT), done).fields, parts[0])
    requires NamesLeaf(Overlay(base.fields[i].child, actual.fields[i].child, Join(above + [parts[0]], DOT), done), parts[1..])
    requires AssignPath(Overlay(base.fields[i].child, actual.fields[i].child, Join(above + [parts[0]], DOT), done), parts[1..],
                        ReadPath(actual.fields[i].child, parts[1..]))
          == Overlay(base.fields[i].child, actual.fields[i].child, Join(above + [parts[0]], DOT), done + {Join(above + parts, DOT)})
    ensures AssignPath(Overlay(base, actual, Join(above, DOT), done), parts, ReadPath(actual, parts))
         == Overlay(base, actual, Join(above, DOT), done + {Join(above + parts, DOT)})
  {
    var before := Overlay(base, actual, Join(above, DOT), done);
    var after := Overlay(base, actual, Join(above, DOT), done + {Join(above + parts, DOT)});
    ChildOverlay(base, actual, above, i, done);
    ChildOverlay(base, actual, above, i, done + {Join(above + parts, DOT)});
    forall j | 0 <= j < |base.fields| && j != i ensures after.fields[j] == before.fields[j] {
      OtherField(base, actual, above, parts, i, j, done);
    }
    ReplaceOne(before.fields, after.fields, i, after.fields[i]);
  }

  lemma ReplaceOne(a: seq<Field>, b: seq<Field>, i: nat, f: Field)
    requires |a| == |b| && i < |a| && b[i] == f && forall j :: 0 <= j < |a| && j != i ==> b[j] == a[j]
    ensures a[i := f] == b
  {
  }

  lemma ChildOverlay(base: Tree, actual: Tree, above: seq<string>, i: nat, supported: set<string>)
    requires base.Node? && SameShape(base, actual) && WellNamed(base) && Names(above) && i < |base.fields|
    ensures Overlay(base, actual, Join(above, DOT), supported).fields[i]
         == Field(base.fields[i].name,
                  Overlay(base.fields[i].child, actual.fields[i].child, Join(above + [base.fields[i].name], DOT), supported))
  {
    JoinSnoc(above, base.fields[i].name);
  }

  lemma OtherField(base: Tree, actual: Tree, above: seq<string>, parts: seq<string>, i: nat, j: nat, done: set<string>)
    requires base.Node? && SameShape(base, actual) && WellNamed(base) && Names(above) && Names(parts) && parts != []
    requires i < |base.fields| && j < |base.fields| && i != j && base.fields[i].name == parts[0]
    ensures Overlay(base, actual, Join(above, DOT), done + {Join(above + parts, DOT)}).fields[j]
         == Overlay(base, actual, Join(above, DOT), done).fields[j]
  {
    var name := base.fields[j].name;
    ChildOverlay(base, actual, above, j, done);
    ChildOverlay(base, actual, above, j, done + {Join(above + parts, DOT)});
    assert name != parts[0] by {
      if i < j { assert base.fields[i].name != base.fields[j].name; } else { assert base.fields[j].name != base.fields[i].name; }
    }
    OtherBranch(base.fields[j].child, actual.fields[j].child, above + [name], above + parts, |above|, done);
  }

  /** A path that leaves `above` before its end supports nothing below it. */
  lemma {:induction false} OtherBranch(base: Tree, actual: Tree, above: seq<string>, path: seq<string>, at: nat, done: set<string>)
    requires SameShape(base, actual) && WellNamed(base) && Names(above) && Names(path) && above != [] && path != []
    requires at < |above| && (at < |path| ==> above[at] != path[at])
    ensures Overlay(base, actual, Join(above, DOT), done + {Join(path, DOT)}) == Overlay(base, actual, Join(above, DOT), done)
    decreases base
  {
    if base.Leaf? {
      if Join(above, DOT) == Join(path, DOT) {
        PathInjective(above, path);
        assert false;
      }
    } else {
      var a, b := Overlay(base, actual, Join(above, DOT), done + {Join(path, DOT)}), Overlay(base, actual, Join(above, DOT), done);
      forall j | 0 <= j < |base.fields| ensures a.fields[j] == b.fields[j] {
        var name := base.fields[j].name;
        JoinSnoc(above, name);
        OtherBranch(base.fields[j].child, actual.fields[j].child, above + [name], path, at, done);
      }
      assert a.fields == b.fields;
    }
  }

  // ---- the same, leaf by leaf ----

  /** The leaf that `parts` names below `above` differs, and `path` is its text. */
  ghost predicate DiffersAt(base: Tree, actual: Tree, above: seq<string>, parts: seq<string>, path: string) {
    && Names(parts) && above + parts != [] && path == Join(above + parts, DOT)
    && NamesLeaf(base, parts) && NamesLeaf(actual, parts) && ReadPath(base, parts) != ReadPath(actual, parts)
  }

  lemma {:induction false} DifferingLeafListed(base: Tree, actual: Tree, above: seq<string>, parts: seq<string>, path: string)
    requires SameShape(base, actual) && WellNamed(base) && Names(above) && DiffersAt(base, actual, above, parts, path)
    ensures path in Diff(base, actual, Join(above, DOT))
    decreases |parts|
  {
    if parts == [] {
      assert above + parts == above;
    } else {
      var i := FieldIndex(base.fields, parts[0]);
      SameIndex(base.fields, actual.fields, parts[0]);
      StepDown(base, above, parts, i);
      JoinSnoc(above, parts[0]);
      DifferingLeafListed(base.fields[i].child, actual.fields[i].child, above + [parts[0]], parts[1..], path);
      ListedInField(base, actual, Join(above, DOT), i, |base.fields|, path);
    }
  }

  lemma {:induction false} ListedInField(base: Tree, actual: Tree, prefix: string, i: nat, n: nat, path: string)
    requires base.Node? && SameShape(base, actual) && i < n <= |base.fields| && path in FieldDiff(base, actual, prefix, i)
    ensures path in DiffFields(base, actual, prefix, n)
  {
    if i < n - 1 {
      ListedInField(base, actual, prefix, i, n - 1, path);
    }
  }

  lemma {:induction false} ListedLeafDiffers(base: Tree, actual: Tree, above: seq<string>, path: string) returns (parts: seq<string>)
    requires SameShape(base, actual) && WellNamed(base) && Names(above) && (above != [] || base.Node?)
    requires path in Diff(base, actual, Join(above, DOT))
    ensures DiffersAt(base, actual, above, parts, path)
    decreases base
  {
    if base.Leaf? {
      parts := [];
      assert above + parts == above;
    } else {
      var i := ListedField(base, actual, Join(above, DOT), |base.fields|, path);
      var name := base.fields[i].name;
      JoinSnoc(above, name);
      var rest := ListedLeafDiffers(base.fields[i].child, actual.fields[i].child, above + [name], path);
      parts := [name] + rest;
      FieldAt(base, actual, i);
      DiffersAbove(base, actual, above, i, rest, path);
    }
  }

  lemma FieldAt(base: Tree, actual: Tree, i: nat)
    requires SameShape(base, actual) && WellNamed(base) && base.Node? && i < |base.fields|
    ensures var name := base.fields[i].name;
            && name != "" && DOT !in name && actual.Node? && i < |actual.fields| && actual.fields[i].name == name
            && FieldIndex(base.fields, name) == i && FieldIndex(actual.fields, name) == i
  {
    OwnIndex(base.fields, i);
    SameIndex(base.fields, actual.fields, base.fields[i].name);
  }

  lemma DiffersAbove(base: Tree, actual: Tree, above: seq<string>, i: nat, rest: seq<string>, path: string)
    requires base.Node? && actual.Node? && i < |base.fields| && i < |actual.fields|
    requires var name := base.fields[i].name;
             && name != "" && DOT !in name && actual.fields[i].name == name
             && FieldIndex(base.fields, name) == i && FieldIndex(actual.fields, name) == i
    requires DiffersAt(base.fields[i].child, actual.fields[i].child, above + [base.fields[i].name], rest, path)
    ensures DiffersAt(base, actual, above, [base.fields[i].name] + rest, path)
  {
    var name := base.fields[i].name;
    assert above + ([name] + rest) == (above + [name]) + rest;
    LeafBelow(base, i, rest);
    LeafBelow(actual, i, rest);
  }

  lemma LeafBelow(t: Tree, i: nat, rest: seq<string>)
    requires t.Node? && i < |t.fields| && FieldIndex(t.fields, t.fields[i].name) == i && NamesLeaf(t.fields[i].child, rest)
    ensures NamesLeaf(t, [t.fields[i].name] + rest) && ReadPath(t, [t.fields[i].name] + rest) == ReadPath(t.fields[i].child, rest)
  {
    assert ([t.fields[i].name] + rest)[1..] == rest;
  }

  lemma {:induction false} ListedField(base: Tree, actual: Tree, prefix: string, n: nat, path: string) returns (i: nat)
    requires base.Node? && SameShape(base, actual) && n <= |base.fields| && path in DiffFields(base, actual, prefix, n)
    ensures i < n && path in FieldDiff(base, actual, prefix, i)
  {
    if path in FieldDiff(base, actual, prefix, n - 1) {
      i := n - 1;
    } else {
      i := ListedField(base, actual, prefix, n - 1, path);
    }
  }

  lemma OwnIndex(fields: seq<Field>, i: nat)
    requires i < |fields| && forall j, k :: 0 <= j < k < |fields| ==> fields[j].name != fields[k].name
    ensures FieldIndex(fields, fields[i].name) == i
  {
    var at := FieldIndex(fields, fields[i].name);
    assert at <= i;
  }

  /** The difference lists exactly the paths of the leaves that differ. */
  lemma DiffIs(base: Tree, actual: Tree, path: string)
    requires SameShape(base, actual) && WellNamed(base) && base.Node?
    ensures path in Diff(base, actual, "") <==> exists parts :: DiffersAt(base, actual, [], parts, path)
  {
    assert Join([], DOT) == "";
    if path in Diff(base, actual, "") {
      var parts := ListedLeafDiffers(base, actual, [], path);
    }
    if parts :| DiffersAt(base, actual, [], parts, path) {
      DifferingLeafListed(base, actual, [], parts, path);
    }
  }

  lemma {:induction false} OverlayReads(base: Tree, actual: Tree, above: seq<string>, parts: seq<string>, supported: set<string>)
    requires SameShape(base, actual) && WellNamed(base) && Names(above) && Names(parts) && NamesLeaf(base, parts)
    requires above + parts != []
    ensures NamesLeaf(actual, parts) && NamesLeaf(Overlay(base, actual, Join(above, DOT), supported), parts)
    ensures ReadPath(Overlay(base, actual, Join(above, DOT), supported), parts)
         == if Join(above + parts, DOT) in supported then ReadPath(actual, parts) else ReadPath(base, parts)
    decreases |parts|
  {
    if parts == [] {
      assert above + parts == above;
    } else {
      var view := Overlay(base, actual, Join(above, DOT), supported);
      var i := FieldIndex(base.fields, parts[0]);
      SameIndex(base.fields, actual.fields, parts[0]);
      SameIndex(view.fields, base.fields, parts[0]);
      StepDown(base, above, parts, i);
      ChildOverlay(base, actual, above, i, supported);
      OverlayReads(base.fields[i].child, actual.fields[i].child, above + [parts[0]], parts[1..], supported);
    }
  }

  /** The view reads, leaf by leaf, as the filter at the supported paths and as the default at the
      others. */
  lemma ViewReads(base: Tree, actual: Tree, parts: seq<string>, supported: set<string>)
    requires SameShape(base, actual) && WellNamed(base) && Names(parts) && parts != [] && NamesLeaf(base, parts)
    ensures NamesLeaf(actual, parts) && NamesLeaf(Overlay(base, actual, "", supported), parts)
    ensures ReadPath(Overlay(base, actual, "", supported), parts)
         == if Join(parts, DOT) in supported then ReadPath(actual, parts) else ReadPath(base, parts)
  {
    assert [] + parts == parts && Join([], DOT) == "";
    OverlayReads(base, actual, [], parts, supported);
  }

  lemma {:induction false} OverlayOfNothing(base: Tree, actual: Tree, prefix: string)
    requires SameShape(base, actual)
    ensures Overlay(base, actual, prefix, {}) == base
    decreases base
  {
    if base.Node? {
      var view := Overlay(base, actual, prefix, {});
      forall i | 0 <= i < |base.fields| ensures view.fields[i] == base.fields[i] {
        OverlayOfNothing(base.fields[i].child, actual.fields[i].child, Extend(prefix, base.fields[i].name));
      }
      assert view.fields == base.fields;
    }
  }

  // ---- the two operations ----

  /** The declaration of a report: dotted paths, each naming a leaf. */
  ghost predicate Declared(supported: set<string>, base: Tree) {
    forall p :: p in supported ==> DeclaredPath(p, base)
  }

  ghost predicate DeclaredPath(path: string, base: Tree) {
    Names(Split(path, DOT)) && NamesLeaf(base, Split(path, DOT))
  }

  /** `enforce_supported_filter`: the unsupported paths, none of which may remain. */
  method EnforceSupportedFilter(base: Tree, actual: Tree, supported: set<string>) returns (unsupported: seq<string>)
    requires SameShape(base, actual)
    ensures forall p :: p in unsupported <==> p in Diff(base, actual, "") && p !in supported
    ensures unsupported == [] <==> Overlay(base, actual, "", supported) == actual
  {
    var paths := DiffPaths(base, actual, "", []);
    assert paths == Diff(base, actual, "");
    unsupported := [];
    for i := 0 to |paths|
      invariant forall p :: p in unsupported <==> p in paths[..i] && p !in supported
    {
      assert paths[..i + 1] == paths[..i] + [paths[i]];
      if paths[i] !in supported {
        unsupported := unsupported + [paths[i]];
      }
    }
    assert paths[..|paths|] == paths;
    OverlayIff(base, actual, "", supported);
    if unsupported != [] {
      assert unsupported[0] in unsupported;
    }
  }

  lemma PathNames(base: Tree, actual: Tree, parts: seq<string>, done: set<string>)
    requires SameShape(base, actual) && NamesLeaf(base, parts)
    ensures NamesLeaf(actual, parts) && NamesLeaf(Overlay(base, actual, "", done), parts)
  {
    ShapeNames(base, actual, parts);
    ShapeNames(Overlay(base, actual, "", done), actual, parts);
  }

  lemma OneMorePath(base: Tree, actual: Tree, parts: seq<string>, done: set<string>)
    requires SameShape(base, actual) && WellNamed(base) && Names(parts) && NamesLeaf(base, parts) && parts != []
    ensures NamesLeaf(actual, parts) && NamesLeaf(Overlay(base, actual, "", done), parts)
    ensures AssignPath(Overlay(base, actual, "", done), parts, ReadPath(actual, parts))
         == Overlay(base, actual, "", done + {Join(parts, DOT)})
  {
    PathNames(base, actual, parts, done);
    assert [] + parts == parts && Join([], DOT) == "";
    AssignIsOverlay(base, actual, [], parts, done);
  }

  /** `_assign_path(result, path, _read_path(actual, path))`. */
  method ApplyPath(view: Tree, base: Tree, actual: Tree, path: string, ghost done: set<string>) returns (r: Tree)
    requires SameShape(base, actual) && WellNamed(base) && DeclaredPath(path, base)
    requires view == Overlay(base, actual, "", done)
    ensures r == Overlay(base, actual, "", done + {path})
  {
    var parts := Split(path, DOT);
    JoinOfSplit(path, DOT);
    OneMorePath(base, actual, parts, done);
    r := AssignPath(view, parts, ReadPath(actual, parts));
  }

  lemma MoveOne(done: set<string>, todo: set<string>, path: string)
    requires path in todo
    ensures (done + {path}) + (todo - {path}) == done + todo
  {
  }

  /** `applied_filter_view`: start from the default and assign leaf by leaf, in whatever order
      the set is walked. */
  method AppliedFilterView(base: Tree, actual: Tree, supported: set<string>) returns (view: Tree)
    requires SameShape(base, actual) && WellNamed(base) && Declared(supported, base)
    ensures view == Overlay(base, actual, "", supported)
  {
    view := base;
    OverlayOfNothing(base, actual, "");
    var todo := supported;
    ghost var done: set<string> := {};
    while todo != {}
      invariant done + todo == supported
      invariant view == Overlay(base, actual, "", done)
      decreases |todo|
    {
      var path :| path in todo;
      assert DeclaredPath(path, base);
      view := ApplyPath(view, base, actual, path, done);
      MoveOne(done, todo, path);
      done, todo := done + {path}, todo - {path};
    }
    assert done + {} == done;
  }

  /** A filter passes the support check if and only if the view echoed for it is the whole
      filter. */
  method ProcessFilter(base: Tree, actual: Tree, supported: set<string>) returns (r: Result<Tree, seq<string>>)
    requires SameShape(base, actual) && WellNamed(base) && Declared(supported, base)
    ensures r.Ok? <==> Overlay(base, actual, "", supported) == actual
    ensures r.Ok? ==> r.value == actual
    ensures r.Err? ==> r.error != [] && forall p :: p in r.error <==> p in Diff(base, actual, "") && p !in supported
  {
    var unsupported := EnforceSupportedFilter(base, actual, supported);
    if unsupported != [] {
      return Err(unsupported);
    }
    var view := AppliedFilterView(base, actual, supported);
    return Ok(view);
  }
}
