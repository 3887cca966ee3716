/** `push_yaml_diff` as the recursive program that appends dotted paths to a vector, and what its
    strings say about the key paths of `YamlDiff`. */
module YamlDiffProgram {
  import opened Wrappers
  import opened Text
  import opened Sorting
  import opened YamlDiff

  /** The path of a child: the key itself at the root, else the path, a dot and the key. */
  function ChildPath(path: string, key: string): string {
    if path == "" then key else path + "." + key
  }

  function Render(path: string, keys: Path): string
    decreases |keys|
  {
    if keys == [] then path else Render(ChildPath(path, keys[0]), keys[1..])
  }

  function RenderAll(path: string, paths: seq<Path>): (r: seq<string>)
    ensures |r| == |paths| && forall i :: 0 <= i < |r| ==> r[i] == Render(path, paths[i])
  {
    seq(|paths|, i requires 0 <= i < |paths| => Render(path, paths[i]))
  }

  lemma RenderBelow(path: string, key: string, paths: seq<Path>)
    ensures RenderAll(path, Prefixed(key, paths)) == RenderAll(ChildPath(path, key), paths)
  {
    forall i | 0 <= i < |paths|
      ensures Render(path, Prefixed(key, paths)[i]) == Render(ChildPath(path, key), paths[i])
    {
      assert ([key] + paths[i])[1..] == paths[i];
    }
  }

  /** Below a path that is not empty, keys are joined with dots. */
  lemma {:induction false} RenderIsJoin(path: string, keys: Path)
    requires path != ""
    ensures Render(path, keys) == Join([path] + keys, ".")
    decreases |keys|
  {
    if keys != [] {
      RenderIsJoin(path + "." + keys[0], keys[1..]);
      JoinShift(path, keys[0], keys[1..]);
      assert [path] + keys == [path, keys[0]] + keys[1..];
    }
  }

  lemma JoinShift(path: string, key: string, rest: seq<string>)
    ensures Join([path + "." + key] + rest, ".") == Join([path, key] + rest, ".")
  {
    assert ([path + "." + key] + rest)[1..] == rest;
    assert ([path, key] + rest)[1..] == [key] + rest;
    assert ([key] + rest)[1..] == rest;
    if rest != [] {
      var j := Join(rest, ".");
      assert (path + "." + key) + "." + j == path + "." + (key + "." + j);
    }
  }

  /** Dot-free, non-empty keys can be read back from the reported string, so distinct key paths are
      reported as distinct strings. */
  lemma RenderReadsBack(keys: Path)
    requires keys != [] && forall k :: k in keys ==> k != "" && FreeOf(k, {'.'})
    ensures Split(Render("", keys), {'.'}) == keys
  {
    assert keys[0] in keys && forall k :: k in keys[1..] ==> k in keys;
    RenderIsJoin(keys[0], keys[1..]);
    assert [keys[0]] + keys[1..] == keys;
    SplitJoinFree(keys, '.', {'.'});
  }

  /** The vector that the recursion appends to. */
  class DiffSink {
    var diffs: seq<string>

    constructor ()
      ensures diffs == []
    {
      diffs := [];
    }
  }

  /** The string keys of both mappings, collected and sorted as in a `BTreeSet`. */
  method CollectKeys(c: map<string, Yaml>, d: map<string, Yaml>) returns (keys: seq<string>)
    ensures keys == SortedKeys(c.Keys + d.Keys)
  {
    var list := Enumerate(c.Keys + d.Keys);
    keys := Sort(list, StringLe);
    SortIsSortedKeys(list, c.Keys + d.Keys);
  }

  lemma SortIsSortedKeys(list: seq<string>, keys: set<string>)
    requires Distinct(list) && forall k :: k in list <==> k in keys
    ensures Sort(list, StringLe) == SortedKeys(keys)
  {
    SortedKeysFacts(keys);
    SortedKeysAscend(keys);
    DistinctPermutation(list, SortedKeys(keys));
    StringLeIsTotalOrder();
    assert AntisymmetricOn(StringLe, list);
    SortForgetsOrder(list, SortedKeys(keys), StringLe);
    SortedIsFixed(SortedKeys(keys), StringLe);
  }

  lemma RenderConcat(path: string, a: seq<Path>, b: seq<Path>)
    ensures RenderAll(path, a + b) == RenderAll(path, a) + RenderAll(path, b)
  {
  }

  /** The strings pushed so far and those of the keys still to come make up the report. */
  ghost predicate Pushed(all: seq<string>, now: seq<string>, path: string, c: map<string, Yaml>, d: map<string, Yaml>,
                         keys: seq<string>, i: nat)
  {
    i <= |keys| && all == now + RenderAll(path, DiffKeys(c, d, keys[i..]))
  }

  lemma PushStep(all: seq<string>, now: seq<string>, path: string, c: map<string, Yaml>, d: map<string, Yaml>,
                 keys: seq<string>, i: nat)
    requires Pushed(all, now, path, c, d, keys, i) && i < |keys|
    ensures var sub := Diff(Lookup(c, keys[i]), Lookup(d, keys[i]));
            Pushed(all, now + RenderAll(ChildPath(path, keys[i]), sub), path, c, d, keys, i + 1)
  {
    var sub, rest := Diff(Lookup(c, keys[i]), Lookup(d, keys[i])), DiffKeys(c, d, keys[i + 1..]);
    assert keys[i..][0] == keys[i] && keys[i..][1..] == keys[i + 1..];
    RenderConcat(path, Prefixed(keys[i], sub), rest);
    RenderBelow(path, keys[i], sub);
    var here, later := RenderAll(ChildPath(path, keys[i]), sub), RenderAll(path, rest);
    assert now + (here + later) == (now + here) + later;
  }

  method PushYamlDiff(path: string, current: Option<Yaml>, desired: Option<Yaml>, sink: DiffSink)
    modifies sink
    ensures sink.diffs == old(sink.diffs) + RenderAll(path, Diff(current, desired))
    decreases DepthOf(current) + DepthOf(desired)
  {
    match (current, desired)
    case (Some(Mapping(c)), Some(Mapping(d))) =>
      var keys := CollectKeys(c, d);
      ghost var before := sink.diffs;
      ghost var all := RenderAll(path, Diff(current, desired));
      for i := 0 to |keys|
        invariant Pushed(before + all, sink.diffs, path, c, d, keys, i)
      {
        LookupIsShallower(c, keys[i]);
        LookupIsShallower(d, keys[i]);
        PushStep(before + all, sink.diffs, path, c, d, keys, i);
        PushYamlDiff(ChildPath(path, keys[i]), Lookup(c, keys[i]), Lookup(d, keys[i]), sink);
      }
    case (Some(Sequence(cs)), Some(Sequence(ds))) =>
      if cs != ds { sink.diffs := sink.diffs + [path]; }
    case _ =>
      if current != desired { sink.diffs := sink.diffs + [path]; }
  }
}
