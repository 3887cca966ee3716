/** `format_node_lists` as the program: a flag-controlled scan for the master, sets that filter repeated
    addresses, and a sort of the groups by id, from any enumeration of the map. */
module NodeListsProgram {
  import opened Wrappers
  import opened Text
  import opened Sorting
  import opened ClusterConfig
  import opened NodeLists

  /** The scan for the first candidate. */
  method MasterGroup(nodes: seq<NodeConfig>) returns (group: seq<string>)
    ensures group == Masters(nodes)
  {
    var unique: set<string> := {};
    var found := false;
    group := [];
    for i := 0 to |nodes|
      invariant group == Masters(nodes[..i]) && (found <==> group != [])
      invariant !found ==> unique == {}
    {
      var addr := HostPort(nodes[i].host, nodes[i].port);
      NextMaster(nodes, i);
      if nodes[i].candidate && !found {
        if addr !in unique {
          unique := unique + {addr};
          group := group + [addr];
          found := true;
        }
      }
    }
    assert nodes[..|nodes|] == nodes;
  }

  lemma NextMaster(nodes: seq<NodeConfig>, i: nat)
    requires i < |nodes|
    ensures Masters(nodes[..i + 1]) ==
              if Masters(nodes[..i]) == [] && nodes[i].candidate then [Address(nodes[i])] else Masters(nodes[..i])
  {
    FilterPush(HasFlag(true), nodes, i);
  }

  /** Addresses that were seen before are left out. */
  method KeepUnseen(addrs: seq<string>) returns (kept: seq<string>)
    ensures kept == Unique(addrs)
  {
    var seen: set<string> := {};
    kept := [];
    for i := 0 to |addrs|
      invariant kept == Unique(addrs[..i]) && forall a :: a in seen <==> a in kept
    {
      assert addrs[..i + 1][..i] == addrs[..i];
      if addrs[i] !in seen {
        seen := seen + {addrs[i]};
        kept := kept + [addrs[i]];
      }
    }
    assert addrs[..|addrs|] == addrs;
  }

  method RoleGroup(nodes: seq<NodeConfig>, role: Role) returns (group: seq<string>)
    ensures group == PartOf(role, nodes)
  {
    match role
    case Master => group := MasterGroup(nodes);
    case Replica =>
      var candidates := WithFlag(nodes, true);
      group := KeepUnseen(Addresses(if candidates == [] then [] else candidates[1..]));
    case Voter => group := KeepUnseen(Addresses(WithFlag(nodes, false)));
  }

  type Entry = (nat, seq<string>)

  predicate ByKey(a: Entry, b: Entry) { a.0 <= b.0 }

  /** The entries of the ids, `part` giving the addresses of each. */
  function Entries(ids: seq<nat>, part: nat -> seq<string>): seq<Entry> {
    if ids == [] then [] else [(ids[0], part(ids[0]))] + Entries(ids[1..], part)
  }

  function PartAt(groups: map<nat, seq<NodeConfig>>, role: Role): nat -> seq<string> {
    (id: nat) => if id in groups then PartOf(role, groups[id]) else []
  }

  function Seconds(entries: seq<Entry>): (r: seq<seq<string>>)
    ensures |r| == |entries| && forall i :: 0 <= i < |r| ==> r[i] == entries[i].1
  {
    seq(|entries|, i requires 0 <= i < |entries| => entries[i].1)
  }

  lemma {:induction false} InsertEntry(x: nat, ids: seq<nat>, part: nat -> seq<string>)
    ensures Insert((x, part(x)), Entries(ids, part), ByKey) == Entries(Insert(x, ids, Ascends), part)
  {
    if ids == [] || x <= ids[0] {
      assert ([x] + ids)[1..] == ids;
    } else {
      var rest := Insert(x, ids[1..], Ascends);
      InsertEntry(x, ids[1..], part);
      assert Entries(ids, part)[1..] == Entries(ids[1..], part);
      assert ([ids[0]] + rest)[1..] == rest;
    }
  }

  /** Sorting the entries by id sorts the ids. */
  lemma {:induction false} SortEntries(ids: seq<nat>, part: nat -> seq<string>)
    ensures Sort(Entries(ids, part), ByKey) == Entries(SortedIds(ids), part)
  {
    if ids != [] {
      SortEntries(ids[1..], part);
      assert Entries(ids, part)[1..] == Entries(ids[1..], part);
      InsertEntry(ids[0], SortedIds(ids[1..]), part);
    }
  }

  lemma {:induction false} EntriesPush(ids: seq<nat>, id: nat, part: nat -> seq<string>)
    ensures Entries(ids + [id], part) == Entries(ids, part) + [(id, part(id))]
  {
    if ids == [] {
      assert ids + [id] == [id] && Entries([id][1..], part) == [];
    } else {
      assert (ids + [id])[1..] == ids[1..] + [id];
      EntriesPush(ids[1..], id, part);
    }
  }

  lemma {:induction false} EntriesAt(ids: seq<nat>, part: nat -> seq<string>)
    ensures |Entries(ids, part)| == |ids|
    ensures forall i :: 0 <= i < |ids| ==> Entries(ids, part)[i] == (ids[i], part(ids[i]))
  {
    if ids != [] { EntriesAt(ids[1..], part); }
  }

  lemma SecondsAreParts(ids: seq<nat>, groups: map<nat, seq<NodeConfig>>, role: Role)
    requires forall id :: id in ids ==> id in groups
    ensures Seconds(Entries(ids, PartAt(groups, role))) == Parts(ids, groups, role)
  {
    EntriesAt(ids, PartAt(groups, role));
    forall i | 0 <= i < |ids| ensures PartAt(groups, role)(ids[i]) == PartOf(role, groups[ids[i]]) {
      assert ids[i] in ids;
    }
  }

  method RoleString(ids: seq<nat>, groups: map<nat, seq<NodeConfig>>, role: Role) returns (text: string)
    requires forall id :: id in ids ==> id in groups
    ensures text == RoleText(ids, groups, role)
  {
    var entries: seq<Entry> := [];
    ghost var part := PartAt(groups, role);
    for i := 0 to |ids|
      invariant entries == Entries(ids[..i], part)
    {
      assert ids[i] in ids && ids[..i + 1] == ids[..i] + [ids[i]];
      var group := RoleGroup(groups[ids[i]], role);
      EntriesPush(ids[..i], ids[i], part);
      entries := entries + [(ids[i], group)];
    }
    assert ids[..|ids|] == ids;
    IdsAscend(ids);
    SortEntries(ids, part);
    SecondsAreParts(SortedIds(ids), groups, role);
    text := Join(GroupTexts(Seconds(Sort(entries, ByKey))), ",");
  }

  method FormatNodeLists(ids: seq<nat>, config: ClusterGroupConfig) returns (lists: FormattedNodeLists)
    requires Enumerates(ids, config)
    ensures lists == Format(ids, config)
  {
    var masters := RoleString(ids, config.groups, Master);
    var replicas := RoleString(ids, config.groups, Replica);
    var voters := RoleString(ids, config.groups, Voter);
    lists := FormattedNodeLists(masters, replicas, voters);
  }
}
