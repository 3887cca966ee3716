/** The recursive tree diff of `push_yaml_diff` over string-keyed YAML trees. Paths are key
    sequences; `YamlDiffProgram` renders them with dots as the source does. */
module YamlDiff {
  import opened Wrappers
  import opened Sorting

  datatype Yaml =
    | Null
    | Bool(b: bool)
    | Number(n: int)
    | Str(s: string)
    | Sequence(items: seq<Yaml>)
    | Mapping(fields: map<string, Yaml>)

  type Path = seq<string>

  function Lookup(fields: map<string, Yaml>, key: string): Option<Yaml> {
    if key in fields then Some(fields[key]) else None
  }

  /* ---------- nesting depth, for termination ---------- */

  ghost function MaxOf(s: set<nat>): (m: nat)
    ensures forall x :: x in s ==> x <= m
  {
    if s == {} then 0
    else
      var x :| x in s;
      var m := MaxOf(s - {x});
      assert forall y :: y in s ==> y == x || y in s - {x};
      if x > m then x else m
  }

  ghost function Depth(y: Yaml): nat
    decreases y, 1
  {
    if y.Mapping? then 1 + MaxOf(FieldDepths(y)) else 0
  }

  ghost function FieldDepths(y: Yaml): set<nat>
    requires y.Mapping?
    decreases y, 0
  {
    set k | k in y.fields :: Depth(y.fields[k])
  }

  ghost function DepthOf(y: Option<Yaml>): nat {
    match y
    case Some(v) => 1 + Depth(v)
    case None => 0
  }

  lemma LookupIsShallower(fields: map<string, Yaml>, key: string)
    ensures DepthOf(Lookup(fields, key)) < DepthOf(Some(Mapping(fields)))
  {
    if key in fields {
      assert Depth(fields[key]) in FieldDepths(Mapping(fields));
    }
  }

  /* ---------- keys in order ---------- */

  /** The iteration of a `BTreeSet` of keys. */
  ghost function SortedKeys(keys: set<string>): seq<string>
    decreases |keys|
  {
    if keys == {} then []
    else
      assert exists k :: IsLeast(keys, k) by { var k := LeastKey(keys); }
      var k :| IsLeast(keys, k);
      [k] + SortedKeys(keys - {k})
  }

  lemma {:induction false} SortedKeysFacts(keys: set<string>)
    ensures Distinct(SortedKeys(keys)) && forall k :: k in SortedKeys(keys) <==> k in keys
    decreases |keys|
  {
    if keys != {} {
      var k, rest := SortedKeys(keys)[0], SortedKeys(keys)[1..];
      assert exists k :: IsLeast(keys, k) by { var k := LeastKey(keys); }
      assert IsLeast(keys, k) && rest == SortedKeys(keys - {k});
      SortedKeysFacts(keys - {k});
      DistinctCons(k, rest);
      assert SortedKeys(keys) == [k] + rest;
    }
  }

  /** The keys come in ascending order. */
  lemma {:induction false} SortedKeysAscend(keys: set<string>)
    ensures Sorted(SortedKeys(keys), StringLe)
    decreases |keys|
  {
    if keys != {} {
      var list := SortedKeys(keys);
      assert exists k :: IsLeast(keys, k) by { var k := LeastKey(keys); }
      assert IsLeast(keys, list[0]) && list[1..] == SortedKeys(keys - {list[0]});
      SortedKeysAscend(keys - {list[0]});
      SortedKeysFacts(keys);
      forall j | 0 < j < |list| ensures StringLe(list[0], list[j]) { assert list[j] in list; }
      assert forall i, j :: 0 < i < j < |list| ==> list[i] == list[1..][i - 1] && list[j] == list[1..][j - 1];
    }
  }

  /* ---------- the diff ---------- */

  function Prefixed(key: string, paths: seq<Path>): (r: seq<Path>)
    ensures |r| == |paths| && forall i :: 0 <= i < |r| ==> r[i] == [key] + paths[i]
  {
    seq(|paths|, i requires 0 <= i < |paths| => [key] + paths[i])
  }

  ghost function Diff(current: Option<Yaml>, desired: Option<Yaml>): seq<Path>
    decreases DepthOf(current) + DepthOf(desired), 1, 0
  {
    match (current, desired)
    case (Some(Mapping(c)), Some(Mapping(d))) => DiffKeys(c, d, SortedKeys(c.Keys + d.Keys))
    case _ => if current != desired then [[]] else []
  }

  ghost function DiffKeys(c: map<string, Yaml>, d: map<string, Yaml>, keys: seq<string>): seq<Path>
    decreases DepthOf(Some(Mapping(c))) + DepthOf(Some(Mapping(d))), 0, |keys|
  {
    if keys == [] then []
    else
      LookupIsShallower(c, keys[0]);
      LookupIsShallower(d, keys[0]);
      Prefixed(keys[0], Diff(Lookup(c, keys[0]), Lookup(d, keys[0]))) + DiffKeys(c, d, keys[1..])
  }

  /** What is at a path. */
  function At(y: Option<Yaml>, path: Path): Option<Yaml>
    decreases |path|
  {
    if path == [] then y
    else
      match y
      case Some(Mapping(fields)) => At(Lookup(fields, path[0]), path[1..])
      case _ => None
  }

  /* ---------- which paths are reported ---------- */

  lemma {:induction false} DiffKeysMembers(c: map<string, Yaml>, d: map<string, Yaml>, keys: seq<string>, p: Path)
    ensures p in DiffKeys(c, d, keys)
       <==> p != [] && p[0] in keys && p[1..] in Diff(Lookup(c, p[0]), Lookup(d, p[0]))
    decreases |keys|
  {
    if keys != [] {
      var k, sub := keys[0], Diff(Lookup(c, keys[0]), Lookup(d, keys[0]));
      DiffKeysMembers(c, d, keys[1..], p);
      PrefixedMembers(k, sub, p);
      assert keys == [k] + keys[1..];
      assert p in DiffKeys(c, d, keys) <==> p in Prefixed(k, sub) || p in DiffKeys(c, d, keys[1..]);
    }
  }

  lemma PrefixedMembers(key: string, paths: seq<Path>, p: Path)
    ensures p in Prefixed(key, paths) <==> p != [] && p[0] == key && p[1..] in paths
  {
    var r := Prefixed(key, paths);
    if p in r {
      var i :| 0 <= i < |r| && r[i] == p;
      assert p[1..] == paths[i];
    }
    if p != [] && p[0] == key && p[1..] in paths {
      var i :| 0 <= i < |paths| && paths[i] == p[1..];
      assert r[i] == p;
    }
  }

  /** Members of the diff of two mappings. */
  lemma DiffMembers(c: map<string, Yaml>, d: map<string, Yaml>, p: Path)
    ensures p in Diff(Some(Mapping(c)), Some(Mapping(d)))
       <==> p != [] && p[1..] in Diff(Lookup(c, p[0]), Lookup(d, p[0]))
  {
    SortedKeysFacts(c.Keys + d.Keys);
    DiffKeysMembers(c, d, SortedKeys(c.Keys + d.Keys), p);
  }

  /** The diff is empty exactly when the trees are equal. */
  lemma {:induction false} DiffEmptyIffEqual(current: Option<Yaml>, desired: Option<Yaml>)
    ensures Diff(current, desired) == [] <==> current == desired
    decreases DepthOf(current) + DepthOf(desired)
  {
    match (current, desired)
    case (Some(Mapping(c)), Some(Mapping(d))) =>
      forall k: string ensures Diff(Lookup(c, k), Lookup(d, k)) == [] <==> Lookup(c, k) == Lookup(d, k) {
        LookupIsShallower(c, k);
        LookupIsShallower(d, k);
        DiffEmptyIffEqual(Lookup(c, k), Lookup(d, k));
      }
      if k: string :| Lookup(c, k) != Lookup(d, k) {
        var p := [k] + Diff(Lookup(c, k), Lookup(d, k))[0];
        assert p[1..] == Diff(Lookup(c, k), Lookup(d, k))[0];
        DiffMembers(c, d, p);
        assert p in Diff(current, desired);
      } else {
        SameLookups(c, d);
        forall p: Path ensures p !in Diff(current, desired) { DiffMembers(c, d, p); }
        HasMember(Diff(current, desired));
      }
    case _ =>
  }

  lemma HasMember(paths: seq<Path>)
    ensures paths != [] ==> exists p :: p in paths
  {
    if paths != [] { assert paths[0] in paths; }
  }

  lemma SameLookups(c: map<string, Yaml>, d: map<string, Yaml>)
    requires forall k: string :: Lookup(c, k) == Lookup(d, k)
    ensures c == d
  {
    forall k: string ensures k in c <==> k in d { assert Lookup(c, k) == Lookup(d, k); }
    forall k | k in c ensures c[k] == d[k] { assert Lookup(c, k) == Lookup(d, k); }
  }

  /** Every reported path holds different values in the two trees, and every difference lies at or
      below a reported path. */
  lemma {:induction false} ReportedPathsDiffer(current: Option<Yaml>, desired: Option<Yaml>, p: Path)
    ensures p in Diff(current, desired) ==> At(current, p) != At(desired, p)
    ensures At(current, p) != At(desired, p) ==>
              exists q :: q in Diff(current, desired) && (q <= p || p <= q)
    decreases |p|, DepthOf(current) + DepthOf(desired)
  {
    match (current, desired)
    case (Some(Mapping(c)), Some(Mapping(d))) =>
      if p == [] {
        DiffMembers(c, d, p);
        if current != desired {
          DiffEmptyIffEqual(current, desired);
          var q := Diff(current, desired)[0];
          assert q in Diff(current, desired) && p <= q;
        }
      } else {
        DiffMembers(c, d, p);
        var k := p[0];
        ReportedPathsDiffer(Lookup(c, k), Lookup(d, k), p[1..]);
        if At(current, p) != At(desired, p) {
          var q :| q in Diff(Lookup(c, k), Lookup(d, k)) && (q <= p[1..] || p[1..] <= q);
          DiffMembers(c, d, [k] + q);
          assert ([k] + q)[1..] == q && p == [k] + p[1..];
        }
      }
    case _ =>
      assert forall q :: q in Diff(current, desired) ==> q == [];
      if current != desired {
        assert Diff(current, desired)[0] == [] && [] in Diff(current, desired);
        assert [] <= p;
      }
  }

  /** The report is symmetric. */
  lemma {:induction false} DiffSymmetric(current: Option<Yaml>, desired: Option<Yaml>)
    ensures Diff(current, desired) == Diff(desired, current)
    decreases DepthOf(current) + DepthOf(desired), 1, 0
  {
    match (current, desired)
    case (Some(Mapping(c)), Some(Mapping(d))) =>
      assert c.Keys + d.Keys == d.Keys + c.Keys;
      DiffKeysSymmetric(c, d, SortedKeys(c.Keys + d.Keys));
    case _ =>
  }

  lemma {:induction false} DiffKeysSymmetric(c: map<string, Yaml>, d: map<string, Yaml>, keys: seq<string>)
    ensures DiffKeys(c, d, keys) == DiffKeys(d, c, keys)
    decreases DepthOf(Some(Mapping(c))) + DepthOf(Some(Mapping(d))), 0, |keys|
  {
    if keys != [] {
      LookupIsShallower(c, keys[0]);
      LookupIsShallower(d, keys[0]);
      DiffSymmetric(Lookup(c, keys[0]), Lookup(d, keys[0]));
      DiffKeysSymmetric(c, d, keys[1..]);
    }
  }

  /* ---------- the report is a patch ---------- */

  function SetField(fields: map<string, Yaml>, key: string, value: Option<Yaml>): map<string, Yaml> {
    match value
    case Some(v) => fields[key := v]
    case None => fields - {key}
  }

  /** `current` with desired's value put at the path, or removed if desired has none. */
  function PatchAt(current: Option<Yaml>, desired: Option<Yaml>, path: Path): Option<Yaml>
    decreases |path|
  {
    if path == [] then desired
    else
      match current
      case Some(Mapping(fields)) =>
        Some(Mapping(SetField(fields, path[0], PatchAt(Lookup(fields, path[0]), At(desired, [path[0]]), path[1..]))))
      case _ => current
  }

  function PatchAll(current: Option<Yaml>, desired: Option<Yaml>, paths: seq<Path>): Option<Yaml>
    decreases |paths|
  {
    if paths == [] then current else PatchAll(PatchAt(current, desired, paths[0]), desired, paths[1..])
  }

  lemma {:induction false} PatchConcat(current: Option<Yaml>, desired: Option<Yaml>, a: seq<Path>, b: seq<Path>)
    ensures PatchAll(current, desired, a + b) == PatchAll(PatchAll(current, desired, a), desired, b)
    decreases |a|
  {
    if a == [] {
      assert a + b == b;
    } else {
      assert (a + b)[1..] == a[1..] + b;
      PatchConcat(PatchAt(current, desired, a[0]), desired, a[1..], b);
    }
  }

  /** Patching below one key changes that key's value only. */
  lemma {:induction false} PatchBelow(c: map<string, Yaml>, d: map<string, Yaml>, key: string, paths: seq<Path>)
    ensures PatchAll(Some(Mapping(c)), Some(Mapping(d)), Prefixed(key, paths))
         == Some(Mapping(SetField(c, key, PatchAll(Lookup(c, key), Lookup(d, key), paths))))
    decreases |paths|
  {
    if paths == [] {
      assert SetField(c, key, Lookup(c, key)) == c;
    } else {
      var p := [key] + paths[0];
      assert p[1..] == paths[0];
      assert At(Some(Mapping(d)), [key]) == Lookup(d, key);
      var c' := SetField(c, key, PatchAt(Lookup(c, key), Lookup(d, key), paths[0]));
      assert PatchAt(Some(Mapping(c)), Some(Mapping(d)), p) == Some(Mapping(c'));
      assert Prefixed(key, paths)[1..] == Prefixed(key, paths[1..]);
      PatchBelow(c', d, key, paths[1..]);
      SetTwice(c, key, PatchAt(Lookup(c, key), Lookup(d, key), paths[0]),
               PatchAll(Lookup(c', key), Lookup(d, key), paths[1..]));
    }
  }

  lemma SetTwice(c: map<string, Yaml>, key: string, v: Option<Yaml>, w: Option<Yaml>)
    ensures SetField(SetField(c, key, v), key, w) == SetField(c, key, w)
    ensures Lookup(SetField(c, key, v), key) == v
  {
  }

  /** Putting desired's value at every reported path of current yields desired. */
  lemma {:induction false} DiffIsAPatch(current: Option<Yaml>, desired: Option<Yaml>)
    ensures PatchAll(current, desired, Diff(current, desired)) == desired
    decreases DepthOf(current) + DepthOf(desired), 1, 0
  {
    match (current, desired)
    case (Some(Mapping(c)), Some(Mapping(d))) =>
      var keys := SortedKeys(c.Keys + d.Keys);
      SortedKeysFacts(c.Keys + d.Keys);
      var r := PatchKeys(c, d, c, keys);
      forall k: string ensures Lookup(r, k) == Lookup(d, k) {
        if k !in keys { assert Lookup(r, k) == Lookup(c, k); }
      }
      SameLookups(r, d);
    case _ =>
      if current != desired { assert Diff(current, desired) == [[]]; assert Diff(current, desired)[1..] == []; }
  }

  /** What is left to patch is untouched: the values at the keys are those of `c`. */
  ghost predicate Untouched(now: map<string, Yaml>, c: map<string, Yaml>, keys: seq<string>) {
    forall k :: k in keys ==> Lookup(now, k) == Lookup(c, k)
  }

  lemma UntouchedTail(now: map<string, Yaml>, c: map<string, Yaml>, keys: seq<string>, value: Option<Yaml>)
    requires keys != [] && Distinct(keys) && Untouched(now, c, keys)
    ensures Distinct(keys[1..]) && keys[0] !in keys[1..] && Untouched(SetField(now, keys[0], value), c, keys[1..])
  {
    assert forall i :: 0 <= i < |keys[1..]| ==> keys[1..][i] == keys[i + 1] != keys[0];
    assert forall k :: k in keys[1..] ==> k in keys;
  }

  lemma {:induction false} PatchKeys(c: map<string, Yaml>, d: map<string, Yaml>, now: map<string, Yaml>,
                                     keys: seq<string>)
    returns (r: map<string, Yaml>)
    requires Distinct(keys) && Untouched(now, c, keys)
    ensures PatchAll(Some(Mapping(now)), Some(Mapping(d)), DiffKeys(c, d, keys)) == Some(Mapping(r))
    ensures forall k :: k in keys ==> Lookup(r, k) == Lookup(d, k)
    ensures forall k: string :: k !in keys ==> Lookup(r, k) == Lookup(now, k)
    decreases DepthOf(Some(Mapping(c))) + DepthOf(Some(Mapping(d))), 0, |keys|
  {
    if keys == [] {
      r := now;
    } else {
      var k, sub := keys[0], Diff(Lookup(c, keys[0]), Lookup(d, keys[0]));
      LookupIsShallower(c, k);
      LookupIsShallower(d, k);
      DiffIsAPatch(Lookup(c, k), Lookup(d, k));
      assert k in keys && Lookup(now, k) == Lookup(c, k);
      PatchBelow(now, d, k, sub);
      var next := SetField(now, k, Lookup(d, k));
      PatchConcat(Some(Mapping(now)), Some(Mapping(d)), Prefixed(k, sub), DiffKeys(c, d, keys[1..]));
      UntouchedTail(now, c, keys, Lookup(d, k));
      r := PatchKeys(c, d, next, keys[1..]);
      assert keys == [k] + keys[1..];
    }
  }
}
