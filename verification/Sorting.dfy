/** Stable sorting by an order, as `sort`, `sort_by_key` and the iteration of a `BTreeSet` use it.
    The point of the module is that a sorted list does not depend on the order in which a hash
    map handed out its entries. */
module Sorting {
  import opened Wrappers

  ghost predicate Transitive<T(!new)>(le: (T, T) -> bool) {
    forall x, y, z :: le(x, y) && le(y, z) ==> le(x, z)
  }

  ghost predicate Connected<T(!new)>(le: (T, T) -> bool) {
    forall x, y :: le(x, y) || le(y, x)
  }

  ghost predicate AntisymmetricOn<T>(le: (T, T) -> bool, xs: seq<T>) {
    forall x, y :: x in xs && y in xs && le(x, y) && le(y, x) ==> x == y
  }

  ghost predicate Sorted<T>(xs: seq<T>, le: (T, T) -> bool) {
    forall i, j :: 0 <= i < j < |xs| ==> le(xs[i], xs[j])
  }

  function Insert<T>(x: T, xs: seq<T>, le: (T, T) -> bool): seq<T> {
    if xs == [] || le(x, xs[0]) then [x] + xs else [xs[0]] + Insert(x, xs[1..], le)
  }

  function Sort<T>(xs: seq<T>, le: (T, T) -> bool): seq<T> {
    if xs == [] then [] else Insert(xs[0], Sort(xs[1..], le), le)
  }

  lemma {:induction false} InsertPermutes<T>(x: T, xs: seq<T>, le: (T, T) -> bool)
    ensures multiset(Insert(x, xs, le)) == multiset{x} + multiset(xs)
  {
    if xs != [] {
      InsertPermutes(x, xs[1..], le);
      assert xs == [xs[0]] + xs[1..];
    }
  }

  lemma {:induction false} InsertSorted<T(!new)>(x: T, xs: seq<T>, le: (T, T) -> bool)
    requires Transitive(le) && Connected(le) && Sorted(xs, le)
    ensures Sorted(Insert(x, xs, le), le)
  {
    if xs == [] || le(x, xs[0]) {
      var r := [x] + xs;
      forall i, j | 0 <= i < j < |r| ensures le(r[i], r[j]) {
        if i == 0 { assert r[j] == xs[j - 1] && (j == 1 || le(xs[0], xs[j - 1])); }
      }
    } else {
      var t := Insert(x, xs[1..], le);
      InsertSorted(x, xs[1..], le);
      InsertPermutes(x, xs[1..], le);
      forall y | y in t ensures le(xs[0], y) {
        assert y in multiset(t);
        if y != x {
          assert y in multiset(xs[1..]);
          assert y in xs[1..];
        }
      }
      forall j | 0 <= j < |t| ensures le(xs[0], t[j]) { assert t[j] in t; }
    }
  }

  lemma {:induction false} SortPermutes<T>(xs: seq<T>, le: (T, T) -> bool)
    ensures multiset(Sort(xs, le)) == multiset(xs) && |Sort(xs, le)| == |xs|
    ensures forall x :: x in Sort(xs, le) <==> x in xs
  {
    if xs != [] {
      SortPermutes(xs[1..], le);
      InsertPermutes(xs[0], Sort(xs[1..], le), le);
      assert xs == [xs[0]] + xs[1..];
    }
    SamePermutation(Sort(xs, le), xs);
  }

  lemma SamePermutation<T>(a: seq<T>, b: seq<T>)
    requires multiset(a) == multiset(b)
    ensures |a| == |b| && forall x :: x in a <==> x in b
  {
    assert |multiset(a)| == |a| && |multiset(b)| == |b|;
    forall x ensures x in a <==> x in b {
      assert x in a <==> x in multiset(a);
      assert x in b <==> x in multiset(b);
    }
  }

  lemma {:induction false} SortSorts<T(!new)>(xs: seq<T>, le: (T, T) -> bool)
    requires Transitive(le) && Connected(le)
    ensures Sorted(Sort(xs, le), le)
  {
    if xs != [] {
      SortSorts(xs[1..], le);
      InsertSorted(xs[0], Sort(xs[1..], le), le);
    }
  }

  lemma {:induction false} SortedIsFixed<T>(xs: seq<T>, le: (T, T) -> bool)
    requires Sorted(xs, le)
    ensures Sort(xs, le) == xs
  {
    if xs != [] {
      SortedIsFixed(xs[1..], le);
      assert xs == [xs[0]] + xs[1..];
    }
  }

  /** The order does not tell apart any two values that the test selects. */
  ghost predicate Ties<T(!new)>(le: (T, T) -> bool, alike: T -> bool) {
    forall x, y :: alike(x) && alike(y) ==> le(x, y)
  }

  /** Sorting is stable: members that the order does not tell apart keep their order. */
  lemma {:induction false} SortIsStable<T(!new)>(xs: seq<T>, le: (T, T) -> bool, alike: T -> bool)
    requires Ties(le, alike)
    ensures Filter(alike, Sort(xs, le)) == Filter(alike, xs)
  {
    if xs != [] {
      SortIsStable(xs[1..], le, alike);
      InsertIsStable(xs[0], Sort(xs[1..], le), le, alike);
    }
  }

  lemma FilterCons<T>(keep: T -> bool, x: T, rest: seq<T>)
    ensures Filter(keep, [x] + rest) == (if keep(x) then [x] else []) + Filter(keep, rest)
  {
    assert ([x] + rest)[1..] == rest;
  }

  lemma {:induction false} InsertIsStable<T(!new)>(x: T, xs: seq<T>, le: (T, T) -> bool, alike: T -> bool)
    requires Ties(le, alike)
    ensures Filter(alike, Insert(x, xs, le)) == (if alike(x) then [x] else []) + Filter(alike, xs)
  {
    if xs == [] || le(x, xs[0]) {
      FilterCons(alike, x, xs);
    } else {
      var rest := Insert(x, xs[1..], le);
      InsertIsStable(x, xs[1..], le, alike);
      FilterCons(alike, xs[0], rest);
      FilterCons(alike, xs[0], xs[1..]);
      assert [xs[0]] + xs[1..] == xs;
      assert !(alike(x) && alike(xs[0]));
    }
  }

  lemma FirstIsLeast<T(!new)>(a: seq<T>, x: T, le: (T, T) -> bool)
    requires Sorted(a, le) && Connected(le) && x in a
    ensures le(a[0], x)
  {
  }

  lemma TailsAgree<T>(a: seq<T>, b: seq<T>)
    requires a != [] && b != [] && a[0] == b[0] && multiset(a) == multiset(b)
    ensures multiset(a[1..]) == multiset(b[1..])
  {
    assert a == [a[0]] + a[1..] && b == [b[0]] + b[1..];
    assert multiset(a[1..]) == multiset(a) - multiset{a[0]};
    assert multiset(b[1..]) == multiset(b) - multiset{b[0]};
  }

  /** A sorted arrangement of a given collection is unique. */
  lemma {:induction false} SortedUnique<T(!new)>(a: seq<T>, b: seq<T>, le: (T, T) -> bool)
    requires Sorted(a, le) && Sorted(b, le) && Connected(le)
    requires multiset(a) == multiset(b) && AntisymmetricOn(le, a)
    ensures a == b
  {
    SamePermutation(a, b);
    if a != [] {
      assert a[0] in a && b[0] in b;
      assert a[0] == b[0] by {
        FirstIsLeast(a, b[0], le);
        FirstIsLeast(b, a[0], le);
      }
      TailsAgree(a, b);
      SortedUnique(a[1..], b[1..], le);
      assert a == [a[0]] + a[1..] && b == [b[0]] + b[1..];
    }
  }

  /** Two enumerations of the same collection sort to the same list. */
  lemma SortForgetsOrder<T(!new)>(a: seq<T>, b: seq<T>, le: (T, T) -> bool)
    requires Transitive(le) && Connected(le) && AntisymmetricOn(le, a)
    requires multiset(a) == multiset(b)
    ensures Sort(a, le) == Sort(b, le)
  {
    SortPermutes(a, le);
    SortPermutes(b, le);
    SortSorts(a, le);
    SortSorts(b, le);
    SortedUnique(Sort(a, le), Sort(b, le), le);
  }

  /** Duplicate-free lists with the same members are permutations of each other. */
  lemma DistinctPermutation<T>(a: seq<T>, b: seq<T>)
    requires Distinct(a) && Distinct(b) && forall x :: x in a <==> x in b
    ensures multiset(a) == multiset(b)
  {
    forall x ensures multiset(a)[x] == multiset(b)[x] {
      DistinctCounts(a, x);
      DistinctCounts(b, x);
    }
  }

  lemma {:induction false} DistinctCounts<T>(a: seq<T>, x: T)
    requires Distinct(a)
    ensures multiset(a)[x] == if x in a then 1 else 0
  {
    if a != [] {
      assert a == [a[0]] + a[1..];
      assert forall i :: 0 <= i < |a[1..]| ==> a[1..][i] == a[i + 1] && a[i + 1] != a[0];
      DistinctCounts(a[1..], x);
    }
  }

  lemma DistinctFromCounts<T>(a: seq<T>)
    requires forall x :: multiset(a)[x] <= 1
    ensures Distinct(a)
  {
    forall i, j | 0 <= i < j < |a| ensures a[i] != a[j] {
      assert a == a[..j] + a[j..];
      assert a[i] == a[..j][i] && a[j] == a[j..][0];
      assert multiset(a) == multiset(a[..j]) + multiset(a[j..]);
      assert a[i] in multiset(a[..j]) && a[j] in multiset(a[j..]);
      assert multiset(a)[a[i]] == multiset(a[..j])[a[i]] + multiset(a[j..])[a[i]];
    }
  }

  lemma DistinctIsPermutable<T>(a: seq<T>, b: seq<T>)
    requires Distinct(a) && multiset(a) == multiset(b)
    ensures Distinct(b)
  {
    forall x ensures multiset(b)[x] <= 1 { DistinctCounts(a, x); }
    DistinctFromCounts(b);
  }

  /* ---------- the order of strings ---------- */

  predicate StringLe(a: string, b: string) {
    a == [] || (b != [] && (a[0] < b[0] || (a[0] == b[0] && StringLe(a[1..], b[1..]))))
  }

  lemma {:induction false} StringLeTransitive(a: string, b: string, c: string)
    requires StringLe(a, b) && StringLe(b, c)
    ensures StringLe(a, c)
  {
    if a != [] && a[0] == b[0] == c[0] { StringLeTransitive(a[1..], b[1..], c[1..]); }
  }

  lemma {:induction false} StringLeConnected(a: string, b: string)
    ensures StringLe(a, b) || StringLe(b, a)
  {
    if a != [] && b != [] && a[0] == b[0] { StringLeConnected(a[1..], b[1..]); }
  }

  lemma {:induction false} StringLeAntisymmetric(a: string, b: string)
    requires StringLe(a, b) && StringLe(b, a)
    ensures a == b
  {
    if a != [] {
      StringLeAntisymmetric(a[1..], b[1..]);
      assert a == [a[0]] + a[1..] && b == [b[0]] + b[1..];
    }
  }

  lemma StringLeIsTotalOrder()
    ensures Transitive(StringLe) && Connected(StringLe)
    ensures forall xs :: AntisymmetricOn(StringLe, xs)
  {
    forall a, b, c | StringLe(a, b) && StringLe(b, c) ensures StringLe(a, c) { StringLeTransitive(a, b, c); }
    forall a, b ensures StringLe(a, b) || StringLe(b, a) { StringLeConnected(a, b); }
    forall a, b | StringLe(a, b) && StringLe(b, a) ensures a == b { StringLeAntisymmetric(a, b); }
  }

  ghost predicate IsLeast(keys: set<string>, k: string) {
    k in keys && forall j :: j in keys ==> StringLe(k, j)
  }

  lemma {:induction false} LeastKey(keys: set<string>) returns (k: string)
    requires keys != {}
    ensures IsLeast(keys, k)
  {
    var x :| x in keys;
    StringLeConnected(x, x);
    if keys == {x} {
      k := x;
    } else {
      var m := LeastKey(keys - {x});
      StringLeConnected(x, m);
      k := if StringLe(x, m) then x else m;
      forall j | j in keys ensures StringLe(k, j) {
        if j != x {
          assert j in keys - {x};
          if StringLe(x, m) { StringLeTransitive(x, m, j); }
        }
      }
    }
  }

  lemma LeastIsUnique(keys: set<string>)
    ensures forall k, k' :: IsLeast(keys, k) && IsLeast(keys, k') ==> k == k'
  {
    forall k, k' | IsLeast(keys, k) && IsLeast(keys, k') ensures k == k' { StringLeAntisymmetric(k, k'); }
  }
}
