/** The three node lists of `format_node_lists`, and their reading by `get_host_port_list_internal`. */
module NodeLists {
  import opened Wrappers
  import opened Text
  import opened TextLines
  import opened Sorting
  import opened ClusterConfig

  /* ---------- the roles of one group ---------- */

  function Address(node: NodeConfig): string { HostPort(node.host, node.port) }

  function Addresses(nodes: seq<NodeConfig>): (r: seq<string>)
    ensures |r| == |nodes| && forall i :: 0 <= i < |r| ==> r[i] == Address(nodes[i])
  {
    seq(|nodes|, i requires 0 <= i < |nodes| => Address(nodes[i]))
  }

  function HasFlag(candidate: bool): NodeConfig -> bool { (node: NodeConfig) => node.candidate == candidate }

  function WithFlag(nodes: seq<NodeConfig>, candidate: bool): seq<NodeConfig> { Filter(HasFlag(candidate), nodes) }

  /** The first candidate. */
  function Masters(nodes: seq<NodeConfig>): seq<string> {
    var candidates := WithFlag(nodes, true);
    if candidates == [] then [] else [Address(candidates[0])]
  }

  function Replicas(nodes: seq<NodeConfig>): seq<string> {
    var candidates := WithFlag(nodes, true);
    if candidates == [] then [] else Unique(Addresses(candidates[1..]))
  }

  function Voters(nodes: seq<NodeConfig>): seq<string> { Unique(Addresses(WithFlag(nodes, false))) }

  datatype Role = Master | Replica | Voter

  function PartOf(role: Role, nodes: seq<NodeConfig>): seq<string> {
    match role
    case Master => Masters(nodes)
    case Replica => Replicas(nodes)
    case Voter => Voters(nodes)
  }

  /* ---------- the roles conserve nodes ---------- */

  lemma {:induction false} FlagSplits(nodes: seq<NodeConfig>)
    ensures multiset(Addresses(nodes))
         == multiset(Addresses(WithFlag(nodes, true))) + multiset(Addresses(WithFlag(nodes, false)))
  {
    if nodes != [] {
      FlagSplits(nodes[1..]);
      AddressesCons(nodes);
      var head := nodes[0];
      var rest := WithFlag(nodes[1..], head.candidate);
      assert WithFlag(nodes, head.candidate) == [head] + rest;
      assert WithFlag(nodes, !head.candidate) == WithFlag(nodes[1..], !head.candidate);
      AddressesCons([head] + rest);
      assert ([head] + rest)[1..] == rest;
    }
  }

  lemma AddressesCons(nodes: seq<NodeConfig>)
    requires nodes != []
    ensures Addresses(nodes) == [Address(nodes[0])] + Addresses(nodes[1..])
    ensures multiset(Addresses(nodes)) == multiset{Address(nodes[0])} + multiset(Addresses(nodes[1..]))
  {
    assert Addresses(nodes) == [Address(nodes[0])] + Addresses(nodes[1..]);
  }

  lemma UniqueSize(addrs: seq<string>)
    ensures |multiset(Unique(addrs))| <= |multiset(addrs)|
    ensures |multiset(Unique(addrs))| == |multiset(addrs)| <==> Distinct(addrs)
    ensures Distinct(addrs) ==> Unique(addrs) == addrs
  {
    UniqueFacts(addrs);
  }

  /** The addresses that are kept once each: those of the candidates after the first, and of the voters. */
  function Followers(nodes: seq<NodeConfig>): seq<string> {
    var candidates := WithFlag(nodes, true);
    if candidates == [] then [] else Addresses(candidates[1..])
  }

  /** The roles account for every node of a group as often as it is listed, exactly when no address is
      repeated among the candidates after the first nor among the voters; a group has at most one
      master, its first candidate. */
  lemma RolesConserveNodes(nodes: seq<NodeConfig>)
    ensures multiset(Addresses(nodes)) == multiset(Masters(nodes)) + multiset(Replicas(nodes)) + multiset(Voters(nodes))
       <==> Distinct(Followers(nodes)) && Distinct(Addresses(WithFlag(nodes, false)))
    ensures |Masters(nodes)| == if WithFlag(nodes, true) == [] then 0 else 1
  {
    var candidates, others := WithFlag(nodes, true), Addresses(WithFlag(nodes, false));
    FlagSplits(nodes);
    UniqueSize(others);
    UniqueSize(Followers(nodes));
    CandidatesSplit(nodes);
    var r, v, m := multiset(Replicas(nodes)), multiset(Voters(nodes)), multiset(Masters(nodes));
    var r', v' := multiset(Followers(nodes)), multiset(others);
    assert multiset(Addresses(nodes)) == m + r' + v';
    if m + r' + v' == m + r + v { SameSizes(m, r, v, r', v'); }
  }

  lemma SameSizes(m: multiset<string>, r: multiset<string>, v: multiset<string>, r': multiset<string>,
                  v': multiset<string>)
    requires m + r' + v' == m + r + v && |r| <= |r'| && |v| <= |v'|
    ensures |r| == |r'| && |v| == |v'|
  {
    assert |m + r' + v'| == |m| + |r'| + |v'| && |m + r + v| == |m| + |r| + |v|;
  }

  lemma CandidatesSplit(nodes: seq<NodeConfig>)
    ensures multiset(Addresses(WithFlag(nodes, true))) == multiset(Masters(nodes)) + multiset(Followers(nodes))
    ensures Replicas(nodes) == Unique(Followers(nodes))
  {
    var candidates := WithFlag(nodes, true);
    if candidates != [] { AddressesCons(candidates); }
  }

  /* ---------- the lists as text ---------- */

  /** Within a group `|`, between groups `,`; a group without members leaves no trace. */
  function GroupTexts(parts: seq<seq<string>>): seq<string> {
    if parts == [] then []
    else (if parts[0] == [] then [] else [Join(parts[0], "|")]) + GroupTexts(parts[1..])
  }

  function ListText(parts: seq<seq<string>>): string { Join(GroupTexts(parts), ",") }

  predicate Ascends(a: nat, b: nat) { a <= b }

  /** The ids in ascending order, from any enumeration. */
  function SortedIds(ids: seq<nat>): seq<nat> { Sort(ids, Ascends) }

  function Parts(ids: seq<nat>, groups: map<nat, seq<NodeConfig>>, role: Role): seq<seq<string>>
    requires forall id :: id in ids ==> id in groups
  {
    seq(|ids|, i requires 0 <= i < |ids| => assert ids[i] in ids; PartOf(role, groups[ids[i]]))
  }

  /** The text of a role when the groups are enumerated in the order `ids`. */
  function RoleText(ids: seq<nat>, groups: map<nat, seq<NodeConfig>>, role: Role): string
    requires forall id :: id in ids ==> id in groups
  {
    SortPermutes(ids, Ascends);
    ListText(Parts(SortedIds(ids), groups, role))
  }

  datatype FormattedNodeLists = FormattedNodeLists(masters: string, replicas: string, voters: string)

  function Format(ids: seq<nat>, config: ClusterGroupConfig): FormattedNodeLists
    requires Enumerates(ids, config)
  {
    FormattedNodeLists(RoleText(ids, config.groups, Master), RoleText(ids, config.groups, Replica),
                       RoleText(ids, config.groups, Voter))
  }

  /** Any two enumerations of the groups give the same three strings. */
  lemma FormatForgetsOrder(a: seq<nat>, b: seq<nat>, config: ClusterGroupConfig)
    requires Enumerates(a, config) && Enumerates(b, config)
    ensures Format(a, config) == Format(b, config)
  {
    DistinctPermutation(a, b);
    SortForgetsOrder(a, b, Ascends);
  }

  lemma IdsAscend(ids: seq<nat>)
    ensures Sorted(SortedIds(ids), Ascends) && multiset(SortedIds(ids)) == multiset(ids)
    ensures forall id :: id in SortedIds(ids) <==> id in ids
  {
    SortSorts(ids, Ascends);
    SortPermutes(ids, Ascends);
  }

  /* ---------- reading the lists back ---------- */

  const SEPARATORS: set<char> := {'|', ','}

  /** `get_host_port_list_internal` */
  function HostPortList(entries: Option<seq<string>>): seq<string> {
    match entries
    case Some(list) => Tokens(list)
    case None => []
  }

  function Tokens(entries: seq<string>): seq<string> {
    if entries == [] then [] else NonEmpty(Split(entries[0], SEPARATORS)) + Tokens(entries[1..])
  }

  /** The entries of a field are read one after the other. */
  lemma {:induction false} EntriesAreReadInTurn(a: seq<string>, b: seq<string>)
    ensures HostPortList(Some(a + b)) == HostPortList(Some(a)) + HostPortList(Some(b))
  {
    if a == [] {
      assert a + b == b;
    } else {
      assert (a + b)[1..] == a[1..] + b;
      EntriesAreReadInTurn(a[1..], b);
    }
  }

  ghost predicate HostsAreFree(groups: map<nat, seq<NodeConfig>>) {
    forall id, i :: id in groups && 0 <= i < |groups[id]| ==> FreeOf(groups[id][i].host, SEPARATORS)
  }

  ghost predicate AddressesAreFree(addrs: seq<string>, seps: set<char>) {
    forall a :: a in addrs ==> a != "" && FreeOf(a, seps)
  }

  lemma JoinedTokens(addrs: seq<string>)
    requires AddressesAreFree(addrs, SEPARATORS) && addrs != []
    ensures NonEmpty(Split(Join(addrs, "|"), SEPARATORS)) == addrs
  {
    SplitJoinFree(addrs, '|', SEPARATORS);
    FilterKeeps(IsFilled, addrs);
  }

  lemma {:induction false} ListTokens(parts: seq<seq<string>>)
    requires forall i :: 0 <= i < |parts| ==> AddressesAreFree(parts[i], SEPARATORS)
    ensures NonEmpty(Split(ListText(parts), SEPARATORS)) == Flatten(parts)
    decreases |parts|
  {
    if parts == [] {
      NothingSplit(SEPARATORS);
    } else {
      ListTokens(parts[1..]);
      var texts, rest := GroupTexts(parts), GroupTexts(parts[1..]);
      if parts[0] == [] {
        assert texts == rest;
      } else {
        JoinedTokens(parts[0]);
        assert texts == [Join(parts[0], "|")] + rest;
        TokensOfHead(Join(parts[0], "|"), rest);
      }
    }
  }

  lemma TokensOfHead(head: string, rest: seq<string>)
    ensures NonEmpty(Split(Join([head] + rest, ","), SEPARATORS))
         == NonEmpty(Split(head, SEPARATORS)) + NonEmpty(Split(Join(rest, ","), SEPARATORS))
  {
    assert ([head] + rest)[1..] == rest;
    if rest == [] {
      assert Join([head] + rest, ",") == head;
      NothingSplit(SEPARATORS);
    } else {
      assert Join([head] + rest, ",") == head + [','] + Join(rest, ",");
      SplitAt(head, ',', Join(rest, ","), SEPARATORS);
      FilterConcat(IsFilled, Split(head, SEPARATORS), Split(Join(rest, ","), SEPARATORS));
    }
  }

  ghost predicate NodesAreFree(nodes: seq<NodeConfig>) { forall n :: n in nodes ==> FreeOf(n.host, SEPARATORS) }

  lemma AddressesFree(nodes: seq<NodeConfig>)
    requires NodesAreFree(nodes)
    ensures AddressesAreFree(Addresses(nodes), SEPARATORS)
  {
    forall a | a in Addresses(nodes) ensures a != "" && FreeOf(a, SEPARATORS) {
      var i :| 0 <= i < |nodes| && a == Address(nodes[i]);
      assert nodes[i] in nodes;
      HostPortFree(nodes[i].host, nodes[i].port, SEPARATORS);
    }
  }

  lemma UniqueIsFree(addrs: seq<string>)
    requires AddressesAreFree(addrs, SEPARATORS)
    ensures AddressesAreFree(Unique(addrs), SEPARATORS)
  {
    UniqueFacts(addrs);
  }

  lemma FlagIsFree(nodes: seq<NodeConfig>, candidate: bool)
    requires NodesAreFree(nodes)
    ensures NodesAreFree(WithFlag(nodes, candidate))
  {
    FilterMembers(HasFlag(candidate), nodes);
  }

  lemma PartsAreFree(nodes: seq<NodeConfig>, role: Role)
    requires NodesAreFree(nodes)
    ensures AddressesAreFree(PartOf(role, nodes), SEPARATORS)
  {
    match role
    case Voter =>
      FlagIsFree(nodes, false);
      AddressesFree(WithFlag(nodes, false));
      UniqueIsFree(Addresses(WithFlag(nodes, false)));
    case _ =>
      var candidates := WithFlag(nodes, true);
      FlagIsFree(nodes, true);
      AddressesFree(candidates);
      if candidates != [] {
        assert Addresses(candidates)[0] in Addresses(candidates);
        assert forall n :: n in candidates[1..] ==> n in candidates;
        AddressesFree(candidates[1..]);
        UniqueIsFree(Addresses(candidates[1..]));
      }
  }

  /** Reading a list back gives the addresses of its role, in ascending order of group id. */
  lemma ListsSurviveReading(ids: seq<nat>, config: ClusterGroupConfig, role: Role)
    requires Enumerates(ids, config) && HostsAreFree(config.groups)
    ensures (forall id :: id in SortedIds(ids) <==> id in config.groups) && Sorted(SortedIds(ids), Ascends)
    ensures HostPortList(Some([RoleText(ids, config.groups, role)]))
         == Flatten(Parts(SortedIds(ids), config.groups, role))
  {
    IdsAscend(ids);
    var parts := Parts(SortedIds(ids), config.groups, role);
    forall i | 0 <= i < |parts| ensures AddressesAreFree(parts[i], SEPARATORS) {
      var id := SortedIds(ids)[i];
      assert id in SortedIds(ids);
      GroupIsFree(config.groups, id);
      PartsAreFree(config.groups[id], role);
    }
    ListTokens(parts);
    var text := RoleText(ids, config.groups, role);
    assert [text][1..] == [] && Tokens([text]) == NonEmpty(Split(text, SEPARATORS)) + Tokens([]);
  }

  /* ---------- which lists are empty ---------- */

  /** The group gives the role an address: it has a candidate, a second one, or a node that is none. */
  ghost predicate Fills(role: Role, nodes: seq<NodeConfig>) {
    match role
    case Master => exists n :: n in nodes && n.candidate
    case Replica => |WithFlag(nodes, true)| >= 2
    case Voter => exists n :: n in nodes && !n.candidate
  }

  lemma FilledPart(role: Role, nodes: seq<NodeConfig>)
    ensures PartOf(role, nodes) != [] <==> Fills(role, nodes)
    ensures forall a :: a in PartOf(role, nodes) ==> a != ""
  {
    var candidates, others := WithFlag(nodes, true), WithFlag(nodes, false);
    FilterMembers(HasFlag(true), nodes);
    FilterMembers(HasFlag(false), nodes);
    assert candidates != [] ==> candidates[0] in candidates;
    assert others != [] ==> others[0] in others;
    FilledAddresses(others);
    if candidates != [] { FilledAddresses(candidates[1..]); }
  }

  lemma FilledAddresses(nodes: seq<NodeConfig>)
    ensures Unique(Addresses(nodes)) != [] <==> nodes != []
    ensures forall a :: a in Unique(Addresses(nodes)) ==> a != ""
  {
    UniqueFacts(Addresses(nodes));
    assert nodes != [] ==> Addresses(nodes)[0] in Addresses(nodes);
  }

  lemma {:induction false} FilledTexts(parts: seq<seq<string>>)
    requires forall i, a :: 0 <= i < |parts| && a in parts[i] ==> a != ""
    ensures "" !in GroupTexts(parts)
    ensures GroupTexts(parts) == [] <==> forall i :: 0 <= i < |parts| ==> parts[i] == []
  {
    if parts != [] {
      var rest := parts[1..];
      assert forall i :: 0 <= i < |rest| ==> rest[i] == parts[i + 1];
      FilledTexts(rest);
      if parts[0] != [] { assert parts[0][0] in parts[0]; }
      assert GroupTexts(rest) == [] ==> forall i :: 1 <= i < |parts| ==> parts[i] == rest[i - 1];
    }
  }

  function IndexOf(ids: seq<nat>, id: nat): (i: nat)
    requires id in ids
    ensures i < |ids| && ids[i] == id
  {
    if ids[0] == id then 0 else 1 + IndexOf(ids[1..], id)
  }

  lemma PartsFilled(ids: seq<nat>, groups: map<nat, seq<NodeConfig>>, role: Role)
    requires forall id :: id in ids ==> id in groups
    ensures forall i :: 0 <= i < |ids| ==> (Parts(ids, groups, role)[i] != [] <==> Fills(role, groups[ids[i]]))
    ensures ListText(Parts(ids, groups, role)) != ""
       <==> exists i :: 0 <= i < |ids| && Parts(ids, groups, role)[i] != []
  {
    forall i | 0 <= i < |ids|
      ensures Parts(ids, groups, role)[i] != [] <==> Fills(role, groups[ids[i]])
      ensures forall a :: a in Parts(ids, groups, role)[i] ==> a != ""
    {
      FilledPart(role, groups[ids[i]]);
    }
    FilledTexts(Parts(ids, groups, role));
  }

  /** A list is empty exactly when no group gives its role an address. */
  lemma ListIsFilledIff(ids: seq<nat>, config: ClusterGroupConfig, role: Role)
    requires Enumerates(ids, config)
    ensures RoleText(ids, config.groups, role) != ""
       <==> exists id :: id in config.groups && Fills(role, config.groups[id])
  {
    IdsAscend(ids);
    var sorted := SortedIds(ids);
    PartsFilled(sorted, config.groups, role);
    if id :| id in config.groups && Fills(role, config.groups[id]) {
      assert id in sorted;
      assert Parts(sorted, config.groups, role)[IndexOf(sorted, id)] != [];
    }
  }

  lemma GroupIsFree(groups: map<nat, seq<NodeConfig>>, id: nat)
    requires HostsAreFree(groups) && id in groups
    ensures NodesAreFree(groups[id])
  {
    forall n | n in groups[id] ensures FreeOf(n.host, SEPARATORS) {
      var i :| 0 <= i < |groups[id]| && groups[id][i] == n;
    }
  }
}
