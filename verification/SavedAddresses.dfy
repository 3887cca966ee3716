/** Which addresses a scaling update saves, in which field, and in which order. */
module SavedAddresses {
  import opened Wrappers
  import opened Text
  import opened Sorting
  import opened ClusterConfig
  import opened ClusterWire
  import opened NodeLists
  import opened Topology
  import opened TopologyTheorems

  /* ---------- the roles of the nodes of a group ---------- */

  /** The first candidate is the master, the other candidates are replicas, the rest voters. */
  ghost predicate HasRole(role: Role, nodes: seq<NodeConfig>, j: nat) {
    && j < |nodes|
    && match role
       case Master => nodes[j].candidate && forall i :: 0 <= i < j ==> !nodes[i].candidate
       case Replica => nodes[j].candidate && exists i :: 0 <= i < j && nodes[i].candidate
       case Voter => !nodes[j].candidate
  }

  /** `text` is the address of a node of the role, among the first `n`. */
  ghost predicate IsWritten(role: Role, nodes: seq<NodeConfig>, text: string, n: nat) {
    exists j :: 0 <= j < n && HasRole(role, nodes, j) && text == nodes[j].host + ":" + Decimal(nodes[j].port)
  }

  /** `part` holds the address of every node of the role once, in the order in which the group lists them:
      an address stands behind another only if all its nodes are behind one of the other's. */
  ghost predicate ListsRole(role: Role, nodes: seq<NodeConfig>, part: seq<string>) {
    && Distinct(part)
    && (forall text :: text in part <==> IsWritten(role, nodes, text, |nodes|))
    && (forall p, q, n :: 0 <= p < q < |part| && 0 <= n <= |nodes| && IsWritten(role, nodes, part[q], n) ==>
          IsWritten(role, nodes, part[p], n))
  }

  /** The positions of the nodes with this flag among the first `n`. */
  function Positions(nodes: seq<NodeConfig>, candidate: bool, n: nat): seq<nat>
    requires n <= |nodes|
  {
    if n == 0 then []
    else Positions(nodes, candidate, n - 1) + (if nodes[n - 1].candidate == candidate then [n - 1] else [])
  }

  lemma {:induction false} PositionsFacts(nodes: seq<NodeConfig>, candidate: bool, n: nat)
    requires n <= |nodes|
    ensures forall j: nat :: j in Positions(nodes, candidate, n) <==> j < n && nodes[j].candidate == candidate
  {
    if n > 0 { PositionsFacts(nodes, candidate, n - 1); }
  }

  ghost predicate IsAscending(at: seq<nat>) { forall k, l :: 0 <= k < l < |at| ==> at[k] < at[l] }

  lemma AscendingPush(at: seq<nat>, i: nat)
    requires IsAscending(at) && forall j :: j in at ==> j < i
    ensures IsAscending(at + [i])
  {
    assert forall k :: 0 <= k < |at| ==> at[k] in at;
  }

  lemma {:induction false} PositionsAscend(nodes: seq<NodeConfig>, candidate: bool, n: nat)
    requires n <= |nodes|
    ensures IsAscending(Positions(nodes, candidate, n))
  {
    if n > 0 {
      PositionsAscend(nodes, candidate, n - 1);
      PositionsFacts(nodes, candidate, n - 1);
      var at := Positions(nodes, candidate, n - 1);
      AscendingPush(at, n - 1);
      assert at + [] == at;
    }
  }

  ghost predicate AreAt(some: seq<NodeConfig>, nodes: seq<NodeConfig>, at: seq<nat>) {
    |at| == |some| && forall k :: 0 <= k < |at| ==> at[k] < |nodes| && some[k] == nodes[at[k]]
  }

  lemma AreAtPush(some: seq<NodeConfig>, nodes: seq<NodeConfig>, at: seq<nat>, i: nat)
    requires AreAt(some, nodes, at) && i < |nodes|
    ensures AreAt(some + [nodes[i]], nodes, at + [i])
  {
  }

  lemma {:induction false} FlaggedAreAt(nodes: seq<NodeConfig>, candidate: bool, n: nat)
    requires n <= |nodes|
    ensures AreAt(WithFlag(nodes[..n], candidate), nodes, Positions(nodes, candidate, n))
  {
    if n == 0 {
      assert nodes[..0] == [];
    } else {
      FlaggedAreAt(nodes, candidate, n - 1);
      var some, at := WithFlag(nodes[..n - 1], candidate), Positions(nodes, candidate, n - 1);
      FilterPush(HasFlag(candidate), nodes, n - 1);
      AreAtPush(some, nodes, at, n - 1);
      assert some + [] == some && at + [] == at;
    }
  }

  lemma MemberOfUnique<T>(xs: seq<T>, k: nat)
    requires k < |Unique(xs)|
    ensures Unique(xs)[k] in xs
  {
    UniqueFacts(xs);
    assert Unique(xs)[k] in Unique(xs);
  }

  /** Keeping each member once, where it first occurs, keeps the order of first occurrences. */
  lemma {:induction false} UniqueKeepsOrder<T>(xs: seq<T>, p: nat, q: nat, j: nat) returns (i: nat)
    requires p < q < |Unique(xs)| && j < |xs| && xs[j] == Unique(xs)[q]
    ensures i < j && xs[i] == Unique(xs)[p]
    decreases |xs|
  {
    var n := |xs| - 1;
    var front := Unique(xs[..n]);
    UniqueFacts(xs[..n]);
    var x := front[p];
    MemberOfUnique(xs[..n], p);
    if j < n {
      assert xs[..n][j] == xs[j] && xs[j] in front;
      i := UniqueKeepsOrder(xs[..n], p, q, j);
    } else {
      i :| 0 <= i < n && xs[..n][i] == x;
    }
  }

  /* ---------- one group ---------- */

  /** `some` are the nodes of the role, at the positions `at`. */
  ghost predicate Selects(role: Role, nodes: seq<NodeConfig>, some: seq<NodeConfig>, at: seq<nat>) {
    && AreAt(some, nodes, at)
    && IsAscending(at)
    && forall j: nat :: HasRole(role, nodes, j) <==> j in at
  }

  lemma WrittenAt(role: Role, nodes: seq<NodeConfig>, some: seq<NodeConfig>, at: seq<nat>, k: nat, n: nat)
    requires Selects(role, nodes, some, at) && k < |at| && at[k] < n
    ensures IsWritten(role, nodes, Addresses(some)[k], n)
  {
    assert at[k] in at && HasRole(role, nodes, at[k]);
  }

  /** Where a written node stands among the selected ones. */
  lemma PlaceOf(role: Role, nodes: seq<NodeConfig>, some: seq<NodeConfig>, at: seq<nat>, text: string, n: nat)
    returns (k: nat)
    requires Selects(role, nodes, some, at) && n <= |nodes| && IsWritten(role, nodes, text, n)
    ensures k < |at| && at[k] < n && Addresses(some)[k] == text
  {
    var j :| 0 <= j < n && HasRole(role, nodes, j) && text == nodes[j].host + ":" + Decimal(nodes[j].port);
    k :| 0 <= k < |at| && at[k] == j;
  }

  lemma ListedOnce(role: Role, nodes: seq<NodeConfig>, some: seq<NodeConfig>, at: seq<nat>, text: string)
    requires Selects(role, nodes, some, at)
    ensures text in Unique(Addresses(some)) <==> IsWritten(role, nodes, text, |nodes|)
  {
    var addrs := Addresses(some);
    UniqueFacts(addrs);
    if text in addrs {
      var k :| 0 <= k < |addrs| && addrs[k] == text;
      WrittenAt(role, nodes, some, at, k, |nodes|);
    }
    if IsWritten(role, nodes, text, |nodes|) { var k := PlaceOf(role, nodes, some, at, text, |nodes|); }
  }

  lemma ListedInOrder(role: Role, nodes: seq<NodeConfig>, some: seq<NodeConfig>, at: seq<nat>, p: nat, q: nat, n: nat)
    requires Selects(role, nodes, some, at) && p < q < |Unique(Addresses(some))| && n <= |nodes|
    requires IsWritten(role, nodes, Unique(Addresses(some))[q], n)
    ensures IsWritten(role, nodes, Unique(Addresses(some))[p], n)
  {
    var k := PlaceOf(role, nodes, some, at, Unique(Addresses(some))[q], n);
    var i := UniqueKeepsOrder(Addresses(some), p, q, k);
    WrittenAt(role, nodes, some, at, i, n);
  }

  lemma ListedAt(role: Role, nodes: seq<NodeConfig>, some: seq<NodeConfig>, at: seq<nat>)
    requires Selects(role, nodes, some, at)
    ensures ListsRole(role, nodes, Unique(Addresses(some)))
  {
    var part := Unique(Addresses(some));
    UniqueFacts(Addresses(some));
    forall text ensures text in part <==> IsWritten(role, nodes, text, |nodes|) {
      ListedOnce(role, nodes, some, at, text);
    }
    forall p, q, n | 0 <= p < q < |part| && 0 <= n <= |nodes| && IsWritten(role, nodes, part[q], n)
      ensures IsWritten(role, nodes, part[p], n)
    {
      ListedInOrder(role, nodes, some, at, p, q, n);
    }
  }

  lemma FirstIsMaster(nodes: seq<NodeConfig>, at: seq<nat>, j: nat)
    requires at == Positions(nodes, true, |nodes|)
    ensures HasRole(Master, nodes, j) <==> at != [] && j == at[0]
  {
    PositionsFacts(nodes, true, |nodes|);
    PositionsAscend(nodes, true, |nodes|);
    if at != [] {
      assert at[0] in at;
      forall i: nat | i < |nodes| && nodes[i].candidate ensures at[0] <= i {
        assert i in at;
        var k :| 0 <= k < |at| && at[k] == i;
      }
    }
  }

  lemma BehindFirst(at: seq<nat>, j: nat)
    requires IsAscending(at) && at != []
    ensures j in at[1..] <==> j in at && at[0] < j
  {
    assert at == [at[0]] + at[1..];
    if j in at[1..] {
      var k :| 0 <= k < |at[1..]| && at[1..][k] == j;
      assert at[k + 1] == j;
    }
  }

  lemma OthersAreReplicas(nodes: seq<NodeConfig>, at: seq<nat>, j: nat)
    requires at == Positions(nodes, true, |nodes|)
    ensures HasRole(Replica, nodes, j) <==> at != [] && j in at[1..]
  {
    PositionsFacts(nodes, true, |nodes|);
    if at != [] {
      PositionsAscend(nodes, true, |nodes|);
      BehindFirst(at, j);
      var first := at[0];
      FirstIsMaster(nodes, at, first);
      if HasRole(Replica, nodes, j) {
        var i :| 0 <= i < j && nodes[i].candidate;
        assert first <= i;
      }
    }
  }

  lemma MasterListed(nodes: seq<NodeConfig>)
    ensures ListsRole(Master, nodes, Masters(nodes))
  {
    var candidates, at := WithFlag(nodes, true), Positions(nodes, true, |nodes|);
    FlaggedAreAt(nodes, true, |nodes|);
    assert nodes[..|nodes|] == nodes;
    forall j: nat ensures HasRole(Master, nodes, j) <==> at != [] && j == at[0] { FirstIsMaster(nodes, at, j); }
    if candidates != [] {
      ListedAt(Master, nodes, [candidates[0]], [at[0]]);
      assert Unique(Addresses([candidates[0]])) == [Address(candidates[0])];
    }
  }

  lemma ReplicasListed(nodes: seq<NodeConfig>)
    ensures ListsRole(Replica, nodes, Replicas(nodes))
  {
    var candidates, at := WithFlag(nodes, true), Positions(nodes, true, |nodes|);
    FlaggedAreAt(nodes, true, |nodes|);
    assert nodes[..|nodes|] == nodes;
    forall j: nat ensures HasRole(Replica, nodes, j) <==> at != [] && j in at[1..] { OthersAreReplicas(nodes, at, j); }
    if candidates != [] {
      PositionsAscend(nodes, true, |nodes|);
      ListedAt(Replica, nodes, candidates[1..], at[1..]);
    }
  }

  lemma VotersListed(nodes: seq<NodeConfig>)
    ensures ListsRole(Voter, nodes, Voters(nodes))
  {
    FlaggedAreAt(nodes, false, |nodes|);
    PositionsAscend(nodes, false, |nodes|);
    PositionsFacts(nodes, false, |nodes|);
    assert nodes[..|nodes|] == nodes;
    ListedAt(Voter, nodes, WithFlag(nodes, false), Positions(nodes, false, |nodes|));
  }

  /** The entries of a role in a group, as the source computes them, are the addresses of its nodes. */
  lemma PartListsRole(role: Role, nodes: seq<NodeConfig>)
    ensures ListsRole(role, nodes, PartOf(role, nodes))
  {
    MasterListed(nodes);
    ReplicasListed(nodes);
    VotersListed(nodes);
  }

  /* ---------- the text of a list ---------- */

  predicate HasEntries(part: seq<string>) { part != [] }

  /** The text holds the parts that have entries: a comma between parts, a bar between the entries of one. */
  ghost predicate ReadsAs(text: string, parts: seq<seq<string>>) {
    var pieces, filled := Split(text, {','}), Filter(HasEntries, parts);
    |pieces| == |filled| && forall k :: 0 <= k < |pieces| ==> Split(pieces[k], {'|'}) == filled[k]
  }

  lemma {:induction false} TextsOfFilled(parts: seq<seq<string>>)
    ensures var texts, filled := GroupTexts(parts), Filter(HasEntries, parts);
            |texts| == |filled| && forall k :: 0 <= k < |texts| ==> texts[k] == Join(filled[k], "|")
  {
    if parts != [] { TextsOfFilled(parts[1..]); }
  }

  lemma PieceIsRead(part: seq<string>)
    requires part != [] && AddressesAreFree(part, SEPARATORS)
    ensures Split(Join(part, "|"), {'|'}) == part && FreeOf(Join(part, "|"), {','})
  {
    CommaFree(part);
    SplitJoinFree(part, '|', {'|'});
    JoinFree(part, "|", {','});
  }

  lemma TextReadsAs(parts: seq<seq<string>>)
    requires forall part :: part in parts ==> AddressesAreFree(part, SEPARATORS)
    requires Filter(HasEntries, parts) != []
    ensures ReadsAs(ListText(parts), parts)
  {
    var texts, filled := GroupTexts(parts), Filter(HasEntries, parts);
    TextsOfFilled(parts);
    FilterMembers(HasEntries, parts);
    forall k | 0 <= k < |filled| ensures Split(texts[k], {'|'}) == filled[k] && FreeOf(texts[k], {','}) {
      assert filled[k] in filled;
      PieceIsRead(filled[k]);
    }
    SplitJoinFree(texts, ',', {','});
  }

  /* ---------- the saved fields ---------- */

  /** One part for each group: the addresses of its nodes of the role. */
  ghost predicate AreParts(role: Role, ids: seq<nat>, config: ClusterGroupConfig, parts: seq<seq<string>>) {
    && |parts| == |ids|
    && forall k :: 0 <= k < |ids| ==> ids[k] in config.groups && ListsRole(role, config.groups[ids[k]], parts[k])
  }

  /** The field is one text that reads as the parts; if no part has an entry, it is `otherwise`. */
  ghost predicate Holds(field: Option<seq<string>>, parts: seq<seq<string>>, otherwise: Option<seq<string>>) {
    if forall part :: part in parts ==> part == [] then field == otherwise
    else field.Some? && |field.value| == 1 && ReadsAs(field.value[0], parts)
  }

  lemma TextHolds(parts: seq<seq<string>>)
    requires forall part :: part in parts ==> AddressesAreFree(part, SEPARATORS)
    requires ListText(parts) != "" <==> exists i :: 0 <= i < |parts| && parts[i] != []
    ensures Holds(if ListText(parts) == "" then None else Some([ListText(parts)]), parts, None)
  {
    FilterMembers(HasEntries, parts);
    if part :| part in parts && part != [] {
      assert part in Filter(HasEntries, parts);
      TextReadsAs(parts);
    } else {
      assert forall i :: 0 <= i < |parts| ==> parts[i] in parts;
    }
  }

  lemma PartsAreListed(config: ClusterGroupConfig, sorted: seq<nat>, role: Role)
    requires (forall id :: id in sorted ==> id in config.groups) && HostsAreFree(config.groups)
    ensures AreParts(role, sorted, config, Parts(sorted, config.groups, role))
    ensures forall part :: part in Parts(sorted, config.groups, role) ==> AddressesAreFree(part, SEPARATORS)
  {
    var parts := Parts(sorted, config.groups, role);
    forall k | 0 <= k < |parts|
      ensures ListsRole(role, config.groups[sorted[k]], parts[k]) && AddressesAreFree(parts[k], SEPARATORS)
    {
      assert sorted[k] in sorted;
      PartListsRole(role, config.groups[sorted[k]]);
      GroupIsFree(config.groups, sorted[k]);
      PartsAreFree(config.groups[sorted[k]], role);
    }
  }

  lemma RoleHolds(config: ClusterGroupConfig, ids: seq<nat>, role: Role) returns (parts: seq<seq<string>>)
    requires Enumerates(ids, config) && HostsAreFree(config.groups)
    ensures AreParts(role, SortedIds(ids), config, parts)
    ensures var text := RoleText(ids, config.groups, role);
            Holds(if text == "" then None else Some([text]), parts, None)
  {
    IdsAscend(ids);
    var sorted := SortedIds(ids);
    parts := Parts(sorted, config.groups, role);
    PartsFilled(sorted, config.groups, role);
    PartsAreListed(config, sorted, role);
    TextHolds(parts);
  }

  lemma SortedIsAscending(ids: seq<nat>)
    requires Distinct(ids)
    ensures IsAscending(SortedIds(ids)) && forall id :: id in SortedIds(ids) <==> id in ids
  {
    IdsAscend(ids);
    DistinctIsPermutable(ids, SortedIds(ids));
  }

  /** The fields after an update from a configuration that the cluster prints, its groups in any order. Each
      list has the groups in ascending order of id, and of each group the addresses of the masters, replicas
      or voters, each once, in the order in which they are listed; the port is the node's own, not the one
      on the wire. A list without entries keeps the masters, and it keeps the others when nodes were added
      and empties them when nodes were removed. */
  lemma UpdateSavesAddresses(layout: Layout, op: ScaleOperation, ids: seq<nat>, config: ClusterGroupConfig,
                             nodes: ClusterNodes)
    returns (sorted: seq<nat>, masters: seq<seq<string>>, replicas: seq<seq<string>>, voters: seq<seq<string>>)
    requires Enumerates(ids, config) && Fits(config) && |ids| <= U64_MAX && HostsAreFree(config.groups)
    requires forall id :: id in config.groups ==> PortsFit(config.groups[id])
    ensures IsAscending(sorted) && forall id :: id in sorted <==> id in config.groups
    ensures AreParts(Master, sorted, config, masters)
    ensures AreParts(Replica, sorted, config, replicas)
    ensures AreParts(Voter, sorted, config, voters)
    ensures var after := Updated(layout, op, Some(Wire(ids, config)), nodes);
            && Holds(Some(after.tx), masters, Some(layout.tx))
            && Holds(after.standby, replicas, if op == RemoveNodes then Some([]) else layout.standby)
            && Holds(after.voter, voters, if op == RemoveNodes then Some([]) else layout.voter)
  {
    ParserUndoesTheWire(ids, config);
    var any := AnyOrder(config.groups.Keys);
    sorted := SortedIds(any);
    SortedIsAscending(any);
    masters := RoleHolds(config, any, Master);
    replicas := RoleHolds(config, any, Replica);
    voters := RoleHolds(config, any, Voter);
  }

  /** The field is one text with the address of each node, in order; without nodes it is `otherwise`. */
  ghost predicate HoldsNodes(field: Option<seq<string>>, nodes: seq<NodeInfo>, otherwise: Option<seq<string>>) {
    if nodes == [] then field == otherwise
    else
      && field.Some? && |field.value| == 1
      && var pieces := Split(field.value[0], {','});
         |pieces| == |nodes| && forall i :: 0 <= i < |nodes| ==> pieces[i] == nodes[i].ip + ":" + Decimal(nodes[i].port)
  }

  lemma JoinedNodes(nodes: seq<NodeInfo>)
    requires nodes != [] && forall i :: 0 <= i < |nodes| ==> FreeOf(nodes[i].ip, {','})
    ensures HoldsNodes(Some([Join(InfoAddresses(nodes), ",")]), nodes, None)
  {
    var addrs := InfoAddresses(nodes);
    forall a | a in addrs ensures FreeOf(a, {','}) {
      var i :| 0 <= i < |nodes| && addrs[i] == a;
      HostPortFree(nodes[i].ip, nodes[i].port, {','});
    }
    SplitJoinFree(addrs, ',', {','});
  }

  /** Without a readable configuration, the masters and the replicas that the cluster reports are saved, in
      that order; without any of them the masters stay, and the replicas stay when nodes were added and are
      emptied when nodes were removed. The voters stay in any case. */
  lemma FallbackSavesAddresses(layout: Layout, op: ScaleOperation, text: Option<string>, nodes: ClusterNodes)
    requires text.Some? ==> Parse(text.value).Err?
    requires forall i :: 0 <= i < |nodes.masters| ==> FreeOf(nodes.masters[i].ip, {','})
    requires forall i :: 0 <= i < |nodes.replicas| ==> FreeOf(nodes.replicas[i].ip, {','})
    ensures var after := Updated(layout, op, text, nodes);
            && HoldsNodes(Some(after.tx), nodes.masters, Some(layout.tx))
            && HoldsNodes(after.standby, nodes.replicas, if op == RemoveNodes then Some([]) else layout.standby)
            && after.voter == layout.voter
  {
    if nodes.masters != [] { JoinedNodes(nodes.masters); }
    if nodes.replicas != [] { JoinedNodes(nodes.replicas); }
  }
}
