/** Filtering a tree diff by a test on paths: two pairs of trees whose children have the same
    filtered diffs have the same filtered diff. */
module DiffFilter {
  import opened Wrappers
  import opened Sorting
  import opened YamlDiff

  /** The test on the paths below a key. */
  function Under(keep: Path -> bool, key: string): Path -> bool {
    (p: Path) => keep([key] + p)
  }

  lemma {:induction false} FilterPrefixed(keep: Path -> bool, key: string, paths: seq<Path>)
    ensures Filter(keep, Prefixed(key, paths)) == Prefixed(key, Filter(Under(keep, key), paths))
  {
    if paths != [] {
      assert Prefixed(key, paths)[1..] == Prefixed(key, paths[1..]);
      FilterPrefixed(keep, key, paths[1..]);
    }
  }

  /** The filtered diff of the children at one key. */
  ghost function ChildDiff(keep: Path -> bool, c: map<string, Yaml>, d: map<string, Yaml>, key: string): seq<Path> {
    Filter(Under(keep, key), Diff(Lookup(c, key), Lookup(d, key)))
  }

  lemma FilterKey(keep: Path -> bool, c: map<string, Yaml>, d: map<string, Yaml>, keys: seq<string>)
    requires keys != []
    ensures Filter(keep, DiffKeys(c, d, keys))
         == Prefixed(keys[0], ChildDiff(keep, c, d, keys[0])) + Filter(keep, DiffKeys(c, d, keys[1..]))
  {
    var sub := Diff(Lookup(c, keys[0]), Lookup(d, keys[0]));
    FilterConcat(keep, Prefixed(keys[0], sub), DiffKeys(c, d, keys[1..]));
    FilterPrefixed(keep, keys[0], sub);
  }

  /** Keys whose children contribute nothing may be added to the iteration. */
  lemma {:induction false} MoreKeys(keep: Path -> bool, c: map<string, Yaml>, d: map<string, Yaml>, some: set<string>,
                                    all: set<string>)
    requires some <= all && forall k :: k in all - some ==> ChildDiff(keep, c, d, k) == []
    ensures Filter(keep, DiffKeys(c, d, SortedKeys(some))) == Filter(keep, DiffKeys(c, d, SortedKeys(all)))
    decreases |all|
  {
    if all != {} {
      var k := FirstKey(all);
      FilterKey(keep, c, d, SortedKeys(all));
      if k in some {
        var k' := FirstKey(some);
        LeastIsUnique(some);
        assert IsLeast(some, k);
        FilterKey(keep, c, d, SortedKeys(some));
        MoreKeys(keep, c, d, some - {k}, all - {k});
      } else {
        MoreKeys(keep, c, d, some, all - {k});
      }
    }
  }

  lemma FirstKey(keys: set<string>) returns (k: string)
    requires keys != {}
    ensures IsLeast(keys, k) && SortedKeys(keys) == [k] + SortedKeys(keys - {k})
  {
    assert exists k :: IsLeast(keys, k) by { var k := LeastKey(keys); }
    k := SortedKeys(keys)[0];
  }

  ghost predicate SameChildren(keep: Path -> bool, c: map<string, Yaml>, d: map<string, Yaml>,
                               c': map<string, Yaml>, d': map<string, Yaml>)
  {
    forall k: string :: ChildDiff(keep, c, d, k) == ChildDiff(keep, c', d', k)
  }

  lemma {:induction false} SameChildrenSameKeys(keep: Path -> bool, c: map<string, Yaml>, d: map<string, Yaml>,
                                                c': map<string, Yaml>, d': map<string, Yaml>, keys: seq<string>)
    requires SameChildren(keep, c, d, c', d')
    ensures Filter(keep, DiffKeys(c, d, keys)) == Filter(keep, DiffKeys(c', d', keys))
    decreases |keys|
  {
    if keys != [] {
      FilterKey(keep, c, d, keys);
      FilterKey(keep, c', d', keys);
      assert ChildDiff(keep, c, d, keys[0]) == ChildDiff(keep, c', d', keys[0]);
      SameChildrenSameKeys(keep, c, d, c', d', keys[1..]);
    }
  }

  lemma AbsentContributesNothing(keep: Path -> bool, c: map<string, Yaml>, d: map<string, Yaml>, k: string)
    requires k !in c && k !in d
    ensures ChildDiff(keep, c, d, k) == []
  {
    assert Diff(None, None) == [];
  }

  /** The filtered diff of two mappings may be read off any superset of their keys. */
  lemma FilteredOver(keep: Path -> bool, c: map<string, Yaml>, d: map<string, Yaml>, all: set<string>)
    requires c.Keys + d.Keys <= all
    ensures Filter(keep, Diff(Some(Mapping(c)), Some(Mapping(d)))) == Filter(keep, DiffKeys(c, d, SortedKeys(all)))
  {
    var some := c.Keys + d.Keys;
    forall k | k in all - some ensures ChildDiff(keep, c, d, k) == [] { AbsentContributesNothing(keep, c, d, k); }
    MoreKeys(keep, c, d, some, all);
  }

  lemma SameFilteredDiff(keep: Path -> bool, c: map<string, Yaml>, d: map<string, Yaml>, c': map<string, Yaml>,
                         d': map<string, Yaml>)
    requires SameChildren(keep, c, d, c', d')
    ensures Filter(keep, Diff(Some(Mapping(c)), Some(Mapping(d))))
         == Filter(keep, Diff(Some(Mapping(c')), Some(Mapping(d'))))
  {
    var all := (c.Keys + d.Keys) + (c'.Keys + d'.Keys);
    FilteredOver(keep, c, d, all);
    FilteredOver(keep, c', d', all);
    SameChildrenSameKeys(keep, c, d, c', d', SortedKeys(all));
  }

  /** Values that are not both mappings differ at most as a whole. */
  lemma LeafDiff(keep: Path -> bool, x: Option<Yaml>, y: Option<Yaml>)
    requires !(x.Some? && x.value.Mapping? && y.Some? && y.value.Mapping?)
    ensures Diff(x, y) == if x == y then [] else [[]]
    ensures !keep([]) ==> Filter(keep, Diff(x, y)) == []
  {
    FilterMembers(keep, Diff(x, y));
    HasMember(Filter(keep, Diff(x, y)));
  }
}
