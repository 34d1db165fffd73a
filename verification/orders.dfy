/** The outcome types shared by every module. */
module Outcomes {

  datatype Option<+T> = None | Some(value: T)

  datatype Result<+T, +E> = Ok(value: T) | Err(error: E)
}

/** Orderings, sorted sequences and stable sorting.

    SQLite's `ORDER BY` and Python's `sorted` are both modelled by `SortBy`: a stable sort
    under a total preorder.  The two facts every read model rests on are proved here once:
    sorting depends only on the multiset of rows when ties are identical, and sorting never
    reorders tied rows. */
module Orders {

  ghost predicate TotalPreorder<T(!new)>(leq: (T, T) -> bool) {
    && (forall a, b :: leq(a, b) || leq(b, a))
    && (forall a, b, c :: leq(a, b) && leq(b, c) ==> leq(a, c))
  }

  ghost predicate Sorted<T>(s: seq<T>, leq: (T, T) -> bool) {
    forall i, j :: 0 <= i < j < |s| ==> leq(s[i], s[j])
  }

  /** Elements that tie are the same element, as far as the members of `s` are concerned. */
  ghost predicate TiesIdentical<T>(s: seq<T>, leq: (T, T) -> bool) {
    forall a, b :: a in s && b in s && leq(a, b) && leq(b, a) ==> a == b
  }

  function Insert<T>(x: T, s: seq<T>, leq: (T, T) -> bool): (r: seq<T>)
    ensures multiset(r) == multiset{x} + multiset(s)
  {
    if s == [] then [x]
    else if leq(x, s[0]) then [x] + s
    else
      assert s == [s[0]] + s[1..];
      [s[0]] + Insert(x, s[1..], leq)
  }

  /** Stable insertion sort: an element goes in front of the first one it does not exceed. */
  function SortBy<T>(s: seq<T>, leq: (T, T) -> bool): (r: seq<T>)
    ensures multiset(r) == multiset(s)
    ensures |r| == |s|
  {
    if s == [] then []
    else
      assert s == [s[0]] + s[1..];
      var r := Insert(s[0], SortBy(s[1..], leq), leq);
      assert |multiset(r)| == |multiset(s)|;
      r
  }

  lemma SameMembers<T>(a: seq<T>, b: seq<T>)
    requires multiset(a) == multiset(b)
    ensures |a| == |b|
    ensures forall x :: x in a <==> x in b
  {
    assert |multiset(a)| == |multiset(b)|;
    forall x ensures x in a <==> x in b {
      assert x in a <==> x in multiset(a);
      assert x in b <==> x in multiset(b);
    }
  }

  lemma {:induction false} InsertSorted<T(!new)>(x: T, s: seq<T>, leq: (T, T) -> bool)
    requires TotalPreorder(leq) && Sorted(s, leq)
    ensures Sorted(Insert(x, s, leq), leq)
  {
    if s == [] {
    } else if leq(x, s[0]) {
    } else {
      InsertSorted(x, s[1..], leq);
      var r := Insert(x, s[1..], leq);
      SameMembers(r, [x] + s[1..]);
      forall k | 0 <= k < |r| ensures leq(s[0], r[k]) {
        assert r[k] in [x] + s[1..];
      }
    }
  }

  lemma {:induction false} SortBySorts<T(!new)>(s: seq<T>, leq: (T, T) -> bool)
    requires TotalPreorder(leq)
    ensures Sorted(SortBy(s, leq), leq)
  {
    if s != [] {
      SortBySorts(s[1..], leq);
      InsertSorted(s[0], SortBy(s[1..], leq), leq);
    }
  }

  lemma SortedHeads<T(!new)>(a: seq<T>, b: seq<T>, leq: (T, T) -> bool)
    requires TotalPreorder(leq)
    requires Sorted(a, leq) && Sorted(b, leq) && a != [] && b != []
    requires forall x :: x in a <==> x in b
    requires TiesIdentical(a, leq)
    ensures a[0] == b[0]
  {
    assert a[0] in b && b[0] in a;
    var i :| 0 <= i < |b| && b[i] == a[0];
    var j :| 0 <= j < |a| && a[j] == b[0];
    assert leq(a[0], b[0]) && leq(b[0], a[0]);
  }

  lemma MultisetTail<T>(s: seq<T>)
    requires s != []
    ensures multiset(s[1..]) == multiset(s) - multiset{s[0]}
  {
    assert s == [s[0]] + s[1..];
  }

  lemma SortedTail<T(!new)>(s: seq<T>, leq: (T, T) -> bool)
    requires s != [] && Sorted(s, leq)
    ensures Sorted(s[1..], leq)
  {
  }

  lemma TailFacts<T(!new)>(s: seq<T>, leq: (T, T) -> bool)
    requires s != [] && Sorted(s, leq) && TiesIdentical(s, leq)
    ensures Sorted(s[1..], leq) && TiesIdentical(s[1..], leq)
  {
    assert forall x :: x in s[1..] ==> x in s;
  }

  /** Two sorted arrangements of the same rows agree when ties are identical. */
  lemma {:induction false} SortedUnique<T(!new)>(a: seq<T>, b: seq<T>, leq: (T, T) -> bool)
    requires TotalPreorder(leq)
    requires Sorted(a, leq) && Sorted(b, leq)
    requires multiset(a) == multiset(b)
    requires TiesIdentical(a, leq)
    ensures a == b
  {
    SameMembers(a, b);
    if a != [] {
      SortedHeads(a, b, leq);
      MultisetTail(a);
      MultisetTail(b);
      TailFacts(a, leq);
      SortedTail(b, leq);
      SortedUnique(a[1..], b[1..], leq);
      assert a == [a[0]] + a[1..] && b == [b[0]] + b[1..];
    }
  }

  /** Sorting ignores the physical order of the rows when ties are identical. */
  lemma SortIgnoresOrder<T(!new)>(a: seq<T>, b: seq<T>, leq: (T, T) -> bool)
    requires TotalPreorder(leq)
    requires multiset(a) == multiset(b)
    requires TiesIdentical(a, leq)
    ensures SortBy(a, leq) == SortBy(b, leq)
  {
    SortBySorts(a, leq);
    SortBySorts(b, leq);
    SameMembers(a, SortBy(a, leq));
    SortedUnique(SortBy(a, leq), SortBy(b, leq), leq);
  }

  function Filter<T(!new)>(s: seq<T>, keep: T -> bool): (r: seq<T>)
    ensures forall x :: x in r <==> x in s && keep(x)
    ensures |r| <= |s|
  {
    if s == [] then []
    else
      assert s == [s[0]] + s[1..];
      if keep(s[0]) then [s[0]] + Filter(s[1..], keep) else Filter(s[1..], keep)
  }

  lemma {:induction false} FilterAppend<T(!new)>(a: seq<T>, b: seq<T>, keep: T -> bool)
    ensures Filter(a + b, keep) == Filter(a, keep) + Filter(b, keep)
  {
    if a == [] {
      assert a + b == b;
    } else {
      assert (a + b)[1..] == a[1..] + b;
      FilterAppend(a[1..], b, keep);
    }
  }

  lemma FilterSnoc<T(!new)>(s: seq<T>, x: T, keep: T -> bool)
    ensures Filter(s + [x], keep) == Filter(s, keep) + if keep(x) then [x] else []
  {
    FilterAppend(s, [x], keep);
    assert [x][1..] == [];
  }

  lemma {:induction false} FilterMultiset<T(!new)>(s: seq<T>, keep: T -> bool, x: T)
    ensures multiset(Filter(s, keep))[x] == if keep(x) then multiset(s)[x] else 0
  {
    if s != [] {
      assert s == [s[0]] + s[1..];
      FilterMultiset(s[1..], keep, x);
    }
  }

  lemma FilterPermutes<T(!new)>(a: seq<T>, b: seq<T>, keep: T -> bool)
    requires multiset(a) == multiset(b)
    ensures multiset(Filter(a, keep)) == multiset(Filter(b, keep))
  {
    forall x ensures multiset(Filter(a, keep))[x] == multiset(Filter(b, keep))[x] {
      FilterMultiset(a, keep, x);
      FilterMultiset(b, keep, x);
    }
  }

  lemma {:induction false} FilterAll<T(!new)>(s: seq<T>, keep: T -> bool)
    requires forall x :: x in s ==> keep(x)
    ensures Filter(s, keep) == s
  {
    if s != [] {
      FilterAll(s[1..], keep);
    }
  }

  lemma {:induction false} FilterNone<T(!new)>(s: seq<T>, keep: T -> bool)
    requires forall x :: x in s ==> !keep(x)
    ensures Filter(s, keep) == []
  {
    if s != [] {
      FilterNone(s[1..], keep);
    }
  }

  /** Inserting commutes with filtering on a sorted list. */
  lemma {:induction false} FilterInsert<T(!new)>(x: T, s: seq<T>, keep: T -> bool, leq: (T, T) -> bool)
    requires TotalPreorder(leq) && Sorted(s, leq)
    ensures Filter(Insert(x, s, leq), keep)
         == if keep(x) then Insert(x, Filter(s, keep), leq) else Filter(s, keep)
  {
    if s == [] {
    } else if leq(x, s[0]) {
      assert Insert(x, s, leq)[1..] == s;
      var f := Filter(s, keep);
      if keep(x) && f != [] {
        assert f[0] in s;
        assert leq(x, f[0]);
      }
    } else {
      FilterInsert(x, s[1..], keep, leq);
      assert Insert(x, s, leq)[1..] == Insert(x, s[1..], leq);
      assert keep(s[0]) ==> Filter(s, keep)[1..] == Filter(s[1..], keep);
    }
  }

  /** A stable sort and a filter commute: in particular tied rows keep their input order. */
  lemma {:induction false} FilterSort<T(!new)>(s: seq<T>, keep: T -> bool, leq: (T, T) -> bool)
    requires TotalPreorder(leq)
    ensures Filter(SortBy(s, leq), keep) == SortBy(Filter(s, keep), leq)
  {
    if s != [] {
      FilterSort(s[1..], keep, leq);
      SortBySorts(s[1..], leq);
      FilterInsert(s[0], SortBy(s[1..], leq), keep, leq);
      assert keep(s[0]) ==> Filter(s, keep)[1..] == Filter(s[1..], keep);
    }
  }

  /** Sorting a sorted list changes nothing. */
  lemma {:induction false} SortFixpoint<T(!new)>(s: seq<T>, leq: (T, T) -> bool)
    requires TotalPreorder(leq) && Sorted(s, leq)
    ensures SortBy(s, leq) == s
  {
    if s != [] {
      SortFixpoint(s[1..], leq);
      if |s| > 1 {
        assert leq(s[0], s[1]);
      }
    }
  }

  // ---- lists without repetition ----

  ghost predicate Distinct<T>(s: seq<T>) {
    forall i, j :: 0 <= i < j < |s| ==> s[i] != s[j]
  }

  lemma DistinctSnoc<T>(s: seq<T>, x: T)
    requires Distinct(s) && x !in s
    ensures Distinct(s + [x])
  {
  }

  lemma CountTwice<T>(s: seq<T>, i: nat, j: nat)
    requires i < j < |s| && s[i] == s[j]
    ensures multiset(s)[s[i]] >= 2
  {
    assert s == s[..i] + [s[i]] + s[i + 1..j] + [s[j]] + s[j + 1..];
  }

  lemma {:induction false} CountOnce<T>(s: seq<T>, x: T)
    requires Distinct(s)
    ensures multiset(s)[x] <= 1
  {
    if s != [] {
      CountOnce(s[1..], x);
      assert s == [s[0]] + s[1..];
      assert s[0] == x ==> x !in s[1..];
    }
  }

  lemma DistinctPermutes<T>(a: seq<T>, b: seq<T>)
    requires multiset(a) == multiset(b) && Distinct(a)
    ensures Distinct(b)
  {
    forall i, j | 0 <= i < j < |b| ensures b[i] != b[j] {
      CountOnce(a, b[i]);
      if b[i] == b[j] {
        CountTwice(b, i, j);
      }
    }
  }

  // ---- text order (SQLite BINARY collation, Python str comparison) ----

  /** Lexicographic order by code point. */
  predicate StrLt(a: string, b: string) {
    if b == "" then false
    else if a == "" then true
    else a[0] < b[0] || (a[0] == b[0] && StrLt(a[1..], b[1..]))
  }

  predicate StrLeq(a: string, b: string) {
    a == b || StrLt(a, b)
  }

  lemma {:induction false} StrTotal(a: string, b: string)
    ensures StrLt(a, b) || a == b || StrLt(b, a)
  {
    if a != "" && b != "" && a[0] == b[0] {
      StrTotal(a[1..], b[1..]);
      assert a == [a[0]] + a[1..] && b == [b[0]] + b[1..];
    }
  }

  lemma {:induction false} StrAsymmetric(a: string, b: string)
    ensures !(StrLt(a, b) && StrLt(b, a)) && !StrLt(a, a)
  {
    if a != "" {
      StrAsymmetric(a[1..], a[1..]);
      if b != "" {
        StrAsymmetric(a[1..], b[1..]);
      }
    }
  }

  lemma {:induction false} StrTransitive(a: string, b: string, c: string)
    requires StrLt(a, b) && StrLt(b, c)
    ensures StrLt(a, c)
  {
    if a != "" && a[0] == b[0] && b[0] == c[0] {
      StrTransitive(a[1..], b[1..], c[1..]);
    }
  }

  lemma StrLeqOrder()
    ensures TotalPreorder(StrLeq)
    ensures forall a, b :: StrLeq(a, b) && StrLeq(b, a) ==> a == b
  {
    forall a, b ensures StrLeq(a, b) || StrLeq(b, a) {
      StrTotal(a, b);
    }
    forall a, b, c | StrLeq(a, b) && StrLeq(b, c) ensures StrLeq(a, c) {
      if a != b && b != c {
        StrTransitive(a, b, c);
      }
    }
    forall a, b | StrLeq(a, b) && StrLeq(b, a) ensures a == b {
      StrAsymmetric(a, b);
    }
  }

  /** A common prefix does not matter. */
  lemma {:induction false} StrPrefix(p: string, a: string, b: string)
    ensures StrLt(p + a, p + b) == StrLt(a, b)
  {
    if p == "" {
      assert p + a == a && p + b == b;
    } else {
      assert (p + a)[1..] == p[1..] + a && (p + b)[1..] == p[1..] + b;
      StrPrefix(p[1..], a, b);
    }
  }

  /** Strings of equal length that already differ are not reordered by what follows. */
  lemma {:induction false} StrFixedHead(p: string, q: string, a: string, b: string)
    requires |p| == |q| && p != q
    ensures StrLt(p + a, q + b) == StrLt(p, q)
  {
    assert p != "" && q != "";
    assert (p + a)[1..] == p[1..] + a && (q + b)[1..] == q[1..] + b;
    if p[0] == q[0] {
      assert p == [p[0]] + p[1..] && q == [q[0]] + q[1..];
      StrFixedHead(p[1..], q[1..], a, b);
    }
  }

  // ---- reals ----

  function Abs(x: real): (r: real)
    ensures r >= 0.0 && (r == x || r == -x)
  {
    if x < 0.0 then -x else x
  }

  function Max(a: real, b: real): (r: real)
    ensures r >= a && r >= b && (r == a || r == b)
  {
    if a < b then b else a
  }

  function Min(a: real, b: real): (r: real)
    ensures r <= a && r <= b && (r == a || r == b)
  {
    if a < b then a else b
  }
}
