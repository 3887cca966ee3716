/** Result types shared by every module of the model. */
module Wrappers {

  datatype Option<+T> = None | Some(value: T) {
    function GetOr(default: T): T {
      match this
      case Some(v) => v
      case None => default
    }
  }

  datatype Result<+T, +E> = Ok(value: T) | Err(error: E)

  function Min(a: nat, b: nat): (m: nat)
    ensures m <= a && m <= b && (m == a || m == b)
  {
    if a <= b then a else b
  }

  /** Concatenates the members of a list of lists. */
  function Flatten<T>(xss: seq<seq<T>>): seq<T> {
    if xss == [] then [] else xss[0] + Flatten(xss[1..])
  }

  lemma {:induction false} FlattenConcat<T>(a: seq<seq<T>>, b: seq<seq<T>>)
    ensures Flatten(a + b) == Flatten(a) + Flatten(b)
  {
    if a == [] {
      assert a + b == b;
    } else {
      assert (a + b)[0] == a[0] && (a + b)[1..] == a[1..] + b;
      FlattenConcat(a[1..], b);
    }
  }

  lemma FlattenPush<T>(a: seq<seq<T>>, x: seq<T>)
    ensures Flatten(a + [x]) == Flatten(a) + x
  {
    FlattenConcat(a, [x]);
    assert Flatten([x]) == x + Flatten<T>([]) == x;
  }

  ghost predicate Distinct<T>(xs: seq<T>) {
    forall i, j :: 0 <= i < j < |xs| ==> xs[i] != xs[j]
  }

  /** The members of a set, each once, in an order that nothing fixes: what iterating over a hash set
      or over the keys of a hash map gives. */
  method Enumerate<T(==)>(xs: set<T>) returns (list: seq<T>)
    ensures Distinct(list) && forall x :: x in list <==> x in xs
  {
    list := [];
    var rest := xs;
    while rest != {}
      invariant Distinct(list) && rest <= xs
      invariant forall x :: x in list <==> x in xs - rest
      decreases rest
    {
      var x :| x in rest;
      assert forall i :: 0 <= i < |list| ==> list[i] in list;
      list, rest := list + [x], rest - {x};
    }
  }

  function Filter<T>(keep: T -> bool, xs: seq<T>): seq<T> {
    if xs == [] then [] else (if keep(xs[0]) then [xs[0]] else []) + Filter(keep, xs[1..])
  }

  lemma {:induction false} FilterMembers<T>(keep: T -> bool, xs: seq<T>)
    ensures forall x :: x in Filter(keep, xs) <==> x in xs && keep(x)
  {
    if xs != [] {
      FilterMembers(keep, xs[1..]);
      assert xs == [xs[0]] + xs[1..];
    }
  }

  lemma {:induction false} FilterConcat<T>(keep: T -> bool, a: seq<T>, b: seq<T>)
    ensures Filter(keep, a + b) == Filter(keep, a) + Filter(keep, b)
  {
    if a == [] {
      assert a + b == b;
    } else {
      var head := if keep(a[0]) then [a[0]] else [];
      assert (a + b)[0] == a[0] && (a + b)[1..] == a[1..] + b;
      FilterConcat(keep, a[1..], b);
      assert head + (Filter(keep, a[1..]) + Filter(keep, b)) == (head + Filter(keep, a[1..])) + Filter(keep, b);
    }
  }

  lemma FilterPush<T>(keep: T -> bool, xs: seq<T>, i: nat)
    requires i < |xs|
    ensures Filter(keep, xs[..i + 1]) == Filter(keep, xs[..i]) + (if keep(xs[i]) then [xs[i]] else [])
  {
    assert xs[..i + 1] == xs[..i] + [xs[i]];
    FilterConcat(keep, xs[..i], [xs[i]]);
    assert [xs[i]][1..] == [];
  }

  lemma {:induction false} FilterKeeps<T>(keep: T -> bool, xs: seq<T>)
    requires forall x :: x in xs ==> keep(x)
    ensures Filter(keep, xs) == xs
  {
    if xs != [] {
      assert xs[0] in xs && forall x :: x in xs[1..] ==> x in xs;
      FilterKeeps(keep, xs[1..]);
    }
  }

  lemma {:induction false} FilterDistinct<T>(keep: T -> bool, xs: seq<T>)
    requires Distinct(xs)
    ensures Distinct(Filter(keep, xs))
  {
    if xs != [] {
      var rest := xs[1..];
      assert forall i :: 0 <= i < |rest| ==> rest[i] == xs[i + 1] != xs[0];
      FilterDistinct(keep, rest);
      FilterMembers(keep, rest);
      DistinctCons(xs[0], Filter(keep, rest));
      assert [] + Filter(keep, rest) == Filter(keep, rest);
    }
  }

  lemma DistinctCons<T>(x: T, rest: seq<T>)
    requires Distinct(rest) && x !in rest
    ensures Distinct([x] + rest)
  {
  }

  /** Each member once, where it first occurs. */
  function Unique<T(==)>(xs: seq<T>): seq<T> {
    if xs == [] then []
    else
      var front, last := Unique(xs[..|xs| - 1]), xs[|xs| - 1];
      if last in front then front else front + [last]
  }

  lemma {:induction false} UniqueFacts<T>(xs: seq<T>)
    ensures Distinct(Unique(xs)) && |Unique(xs)| <= |xs|
    ensures forall x :: x in Unique(xs) <==> x in xs
    ensures Distinct(xs) ==> Unique(xs) == xs
    ensures |Unique(xs)| == |xs| ==> Distinct(xs)
  {
    if xs != [] {
      var n := |xs| - 1;
      UniqueFacts(xs[..n]);
      assert xs == xs[..n] + [xs[n]];
    }
  }

  lemma UniquePush<T>(xs: seq<T>, i: nat)
    requires i < |xs|
    ensures Unique(xs[..i + 1]) == if xs[i] in Unique(xs[..i]) then Unique(xs[..i]) else Unique(xs[..i]) + [xs[i]]
  {
    assert xs[..i + 1][..i] == xs[..i];
  }
}
