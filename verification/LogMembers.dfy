/** `group_members` and its readers: numbering the members of the log groups so that every process
    launch command and every `txlog_service_list` index the same ordered list. */
module LogMembers {
  import opened Wrappers
  import opened Text
  import opened Sorting
  import opened LogGroups
  import opened LogGroupProperties

  const HOLE := "_NONE_"

  datatype LogGroupMember = LogGroupMember(nodeId: nat, groupId: nat, memberHost: string, port: nat,
                                           storagePath: string, checkHealthUrl: string)

  function MapSeq<A, B>(f: A -> B, xs: seq<A>): (ys: seq<B>)
    ensures |ys| == |xs| && forall i :: 0 <= i < |xs| ==> ys[i] == f(xs[i])
  {
    seq(|xs|, i requires 0 <= i < |xs| => f(xs[i]))
  }

  function MapGroups<A, B>(f: A -> B, gs: seq<seq<A>>): (hs: seq<seq<B>>)
    ensures |hs| == |gs| && forall k :: 0 <= k < |gs| ==> hs[k] == MapSeq(f, gs[k])
  {
    seq(|gs|, k requires 0 <= k < |gs| => MapSeq(f, gs[k]))
  }

  lemma {:induction false} FlattenMap<A, B>(f: A -> B, gs: seq<seq<A>>)
    ensures Flatten(MapGroups(f, gs)) == MapSeq(f, Flatten(gs))
  {
    if gs != [] {
      FlattenMap(f, gs[1..]);
      assert MapGroups(f, gs)[1..] == MapGroups(f, gs[1..]);
    }
  }

  /* ---------- rows with holes ---------- */

  predicate IsHole(cell: NodeDiskCell) { cell.disk == HOLE }

  predicate IsSolid(cell: NodeDiskCell) { cell.disk != HOLE }

  function DropHoles(cells: seq<NodeDiskCell>): seq<NodeDiskCell> { Filter(IsSolid, cells) }

  predicate HoleFree(cells: seq<NodeDiskCell>) {
    forall i :: 0 <= i < |cells| ==> cells[i].disk != HOLE
  }

  function HoleCount(cells: seq<NodeDiskCell>): nat { |Filter(IsHole, cells)| }

  /** The row as it enters the groups: a row with holes is topped up from the next row, or dropped. */
  function MergeRow(table: seq<seq<NodeDiskCell>>, row: nat, replica: nat): seq<NodeDiskCell>
    requires row < |table|
  {
    var cells := table[row];
    var holes := HoleCount(cells);
    if holes == 0 then cells
    else if row + 1 == |table| then
      var filtered := DropHoles(cells);
      if |filtered| >= replica then filtered[..replica] else []
    else
      var next := table[row + 1];
      var filtered := DropHoles(cells + next[..Min(holes, |next|)]);
      if |filtered| == replica then filtered else []
  }

  function KeptRows(table: seq<seq<NodeDiskCell>>, replica: nat, row: nat): seq<seq<NodeDiskCell>>
    requires row <= |table|
  {
    if row == 0 then []
    else
      var merged := MergeRow(table, row - 1, replica);
      KeptRows(table, replica, row - 1) + (if merged == [] then [] else [merged])
  }

  lemma DropHolesFacts(cells: seq<NodeDiskCell>)
    ensures HoleFree(DropHoles(cells))
    ensures HoleCount(cells) == 0 <==> HoleFree(cells)
  {
    FilterMembers(IsSolid, cells);
    FilterMembers(IsHole, cells);
    assert forall i :: 0 <= i < |DropHoles(cells)| ==> DropHoles(cells)[i] in DropHoles(cells);
    if Filter(IsHole, cells) != [] { assert Filter(IsHole, cells)[0] in cells; }
    forall i | 0 <= i < |cells| && IsHole(cells[i]) ensures HoleCount(cells) != 0 {
      assert cells[i] in Filter(IsHole, cells);
    }
  }

  /** A row of full size with holes is kept exactly when the next row begins with as many solid cells; it
      then consists of its own solid cells followed by those. A last row with holes is kept as far as it
      has a full group of solid cells, which takes more cells than the allocator puts in a row. */
  lemma HoledRow(table: seq<seq<NodeDiskCell>>, row: nat, replica: nat)
    requires row < |table| && !HoleFree(table[row])
    ensures row + 1 == |table| ==>
              var solid := DropHoles(table[row]);
              MergeRow(table, row, replica) == if |solid| >= replica then solid[..replica] else []
    ensures |DropHoles(table[row])| < |table[row]|
    ensures row + 1 < |table| && |table[row]| == replica ==>
              var holes, next := HoleCount(table[row]), table[row + 1];
              MergeRow(table, row, replica) ==
                if holes <= |next| && HoleFree(next[..holes]) then DropHoles(table[row]) + next[..holes] else []
  {
    var cells := table[row];
    DropHolesFacts(cells);
    HolesAndSolids(cells);
    if row + 1 < |table| && |cells| == replica {
      var next := table[row + 1];
      var taken := next[..Min(HoleCount(cells), |next|)];
      FilterConcat(IsSolid, cells, taken);
      HolesAndSolids(taken);
      DropHolesFacts(taken);
      if HoleFree(taken) { FilterKeeps(IsSolid, taken); }
      assert HoleCount(cells) <= |next| ==> taken == next[..HoleCount(cells)];
    }
  }

  lemma {:induction false} HolesAndSolids(cells: seq<NodeDiskCell>)
    ensures |DropHoles(cells)| + HoleCount(cells) == |cells|
  {
    if cells != [] { HolesAndSolids(cells[1..]); }
  }

  predicate HasCells(row: seq<NodeDiskCell>) { row != [] }

  function MergedRows(table: seq<seq<NodeDiskCell>>, replica: nat, row: nat): seq<seq<NodeDiskCell>>
    requires row <= |table|
  {
    seq(row, i requires 0 <= i < row => MergeRow(table, i, replica))
  }

  /** The rows that are kept are the merged ones that are not empty, in order. */
  lemma {:induction false} KeptRowsAreFilled(table: seq<seq<NodeDiskCell>>, replica: nat, row: nat)
    requires row <= |table|
    ensures KeptRows(table, replica, row) == Filter(HasCells, MergedRows(table, replica, row))
  {
    if row > 0 {
      var all, front := MergedRows(table, replica, row), MergedRows(table, replica, row - 1);
      KeptRowsAreFilled(table, replica, row - 1);
      assert all == front + [MergeRow(table, row - 1, replica)];
      assert all[..row] == all && all[..row - 1] == front;
      FilterPush(HasCells, all, row - 1);
    }
  }

  lemma MergedIsHoleFree(table: seq<seq<NodeDiskCell>>, row: nat, replica: nat)
    requires row < |table|
    ensures HoleFree(MergeRow(table, row, replica))
  {
    DropHolesFacts(table[row]);
    if row + 1 < |table| {
      var next := table[row + 1];
      DropHolesFacts(table[row] + next[..Min(HoleCount(table[row]), |next|)]);
    }
  }

  lemma {:induction false} KeptRowsAreHoleFree(table: seq<seq<NodeDiskCell>>, replica: nat, row: nat)
    requires row <= |table|
    ensures forall k :: 0 <= k < |KeptRows(table, replica, row)| ==> HoleFree(KeptRows(table, replica, row)[k])
  {
    if row > 0 {
      KeptRowsAreHoleFree(table, replica, row - 1);
      MergedIsHoleFree(table, row - 1, replica);
    }
  }

  lemma {:induction false} HoleFreeRowsAreKept(table: seq<seq<NodeDiskCell>>, replica: nat, row: nat)
    requires row <= |table|
    requires forall k :: 0 <= k < |table| ==> table[k] != [] && HoleFree(table[k])
    ensures KeptRows(table, replica, row) == table[..row]
  {
    if row > 0 {
      HoleFreeRowsAreKept(table, replica, row - 1);
      DropHolesFacts(table[row - 1]);
      assert table[..row] == table[..row - 1] + [table[row - 1]];
    }
  }

  /** The hole-merging branches leave the table alone exactly when no cell has the hole marker for
      its disk; otherwise rows are lost or cells of the next row appear twice. */
  lemma RowsKeptIffNoHoles(table: seq<seq<NodeDiskCell>>, replica: nat)
    requires forall k :: 0 <= k < |table| ==> table[k] != []
    ensures KeptRows(table, replica, |table|) == table
       <==> forall k :: 0 <= k < |table| ==> HoleFree(table[k])
  {
    KeptRowsAreHoleFree(table, replica, |table|);
    if forall k :: 0 <= k < |table| ==> HoleFree(table[k]) {
      HoleFreeRowsAreKept(table, replica, |table|);
      assert table[..|table|] == table;
    }
  }

  /* ---------- members and their numbers ---------- */

  predicate HostLe(a: LogServiceNode, b: LogServiceNode) { StringLe(a.host, b.host) }

  function SortedNodes(nodes: seq<LogServiceNode>): seq<LogServiceNode> {
    Sort(nodes, HostLe)
  }

  function SameHost(host: string): LogServiceNode -> bool { (node: LogServiceNode) => node.host == host }

  /** The nodes in ascending order of host, those of one host in the order in which they are listed. */
  lemma NodesAreSortedByHost(nodes: seq<LogServiceNode>)
    ensures multiset(SortedNodes(nodes)) == multiset(nodes)
    ensures forall i, j :: 0 <= i < j < |SortedNodes(nodes)| ==>
              StringLe(SortedNodes(nodes)[i].host, SortedNodes(nodes)[j].host)
    ensures forall host :: Filter(SameHost(host), SortedNodes(nodes)) == Filter(SameHost(host), nodes)
  {
    SortPermutes(nodes, HostLe);
    StringLeIsTotalOrder();
    SortSorts(nodes, HostLe);
    forall host ensures Filter(SameHost(host), SortedNodes(nodes)) == Filter(SameHost(host), nodes) {
      assert Ties(HostLe, SameHost(host)) by { StringLeConnected(host, host); }
      SortIsStable(nodes, HostLe, SameHost(host));
    }
  }

  function NodeAddress(node: LogServiceNode): string { HostPort(node.host, node.port) }

  function Address(member: LogGroupMember): string { HostPort(member.memberHost, member.port) }

  /** The first node with this host and port. */
  function PositionIn(nodes: seq<LogServiceNode>, host: string, port: nat): Option<nat> {
    if nodes == [] then None
    else if nodes[0].host == host && nodes[0].port == port then Some(0)
    else
      match PositionIn(nodes[1..], host, port)
      case Some(i) => Some(i + 1)
      case None => None
  }

  function MemberOf(nodes: seq<LogServiceNode>, node: LogServiceNode, groupId: nat, localIdx: nat,
                    disk: string): LogGroupMember {
    LogGroupMember(PositionIn(nodes, node.host, node.port).GetOr(localIdx), groupId, node.host, node.port, disk,
                   "http://" + HostPort(node.host, node.port) + "/healthz")
  }

  function MembersOfRow(nodes: seq<LogServiceNode>, sorted: seq<LogServiceNode>, cells: seq<NodeDiskCell>,
                        groupId: nat): seq<LogGroupMember>
    requires forall i :: 0 <= i < |cells| ==> cells[i].hostIdx < |sorted|
  {
    seq(|cells|, i requires 0 <= i < |cells| => MemberOf(nodes, sorted[cells[i].hostIdx], groupId, i, cells[i].disk))
  }

  ghost predicate CellsWithin(cells: seq<NodeDiskCell>, n: nat) {
    forall i :: 0 <= i < |cells| ==> cells[i].hostIdx < n
  }

  ghost predicate TableWithin(rows: seq<seq<NodeDiskCell>>, n: nat) {
    forall k :: 0 <= k < |rows| ==> CellsWithin(rows[k], n)
  }

  lemma DropHolesWithin(cells: seq<NodeDiskCell>, n: nat)
    requires CellsWithin(cells, n)
    ensures CellsWithin(DropHoles(cells), n)
  {
    FilterMembers(IsSolid, cells);
    forall i | 0 <= i < |DropHoles(cells)| ensures DropHoles(cells)[i].hostIdx < n {
      assert DropHoles(cells)[i] in cells;
    }
  }

  lemma MergedWithin(table: seq<seq<NodeDiskCell>>, row: nat, replica: nat, n: nat)
    requires row < |table| && TableWithin(table, n)
    ensures CellsWithin(MergeRow(table, row, replica), n)
  {
    DropHolesWithin(table[row], n);
    if row + 1 < |table| {
      var next := table[row + 1];
      assert CellsWithin(next, n);
      DropHolesWithin(table[row] + next[..Min(HoleCount(table[row]), |next|)], n);
    }
  }

  lemma {:induction false} KeptRowsWithin(table: seq<seq<NodeDiskCell>>, replica: nat, row: nat, n: nat)
    requires row <= |table| && TableWithin(table, n)
    ensures TableWithin(KeptRows(table, replica, row), n)
  {
    if row > 0 {
      var rows, merged := KeptRows(table, replica, row - 1), MergeRow(table, row - 1, replica);
      KeptRowsWithin(table, replica, row - 1, n);
      MergedWithin(table, row - 1, replica, n);
      WithinPush(rows, merged, n);
      assert rows + [] == rows;
    }
  }

  lemma WithinPush(rows: seq<seq<NodeDiskCell>>, row: seq<NodeDiskCell>, n: nat)
    requires TableWithin(rows, n) && CellsWithin(row, n)
    ensures TableWithin(rows + [row], n)
  {
  }

  function RowsToGroups(nodes: seq<LogServiceNode>, sorted: seq<LogServiceNode>,
                        rows: seq<seq<NodeDiskCell>>): (groups: seq<seq<LogGroupMember>>)
    requires TableWithin(rows, |sorted|)
    ensures |groups| == |rows|
  {
    seq(|rows|, k requires 0 <= k < |rows| =>
      assert CellsWithin(rows[k], |sorted|);
      MembersOfRow(nodes, sorted, rows[k], k))
  }

  /** The last position of an address, which is what inserting all of them into a map leaves. */
  function LastPosition(addresses: seq<string>, a: string): Option<nat> {
    if addresses == [] then None
    else if addresses[|addresses| - 1] == a then Some(|addresses| - 1)
    else LastPosition(addresses[..|addresses| - 1], a)
  }

  function Renumber(addresses: seq<string>): LogGroupMember -> LogGroupMember {
    (m: LogGroupMember) => m.(nodeId := LastPosition(addresses, Address(m)).GetOr(m.nodeId))
  }

  function Addresses(members: seq<LogGroupMember>): seq<string> {
    MapSeq(Address, members)
  }

  function NumberedGroups(raw: seq<seq<LogGroupMember>>): seq<seq<LogGroupMember>> {
    MapGroups(Renumber(Addresses(Flatten(raw))), raw)
  }

  function RawGroups(nodes: seq<LogServiceNode>, replica: nat): seq<seq<LogGroupMember>> {
    var sorted := SortedNodes(nodes);
    var table := GroupTable(sorted, replica);
    TableIsWithin(sorted, replica);
    KeptRowsWithin(table, replica, |table|, |sorted|);
    RowsToGroups(nodes, sorted, KeptRows(table, replica, |table|))
  }

  lemma TableIsWithin(sorted: seq<LogServiceNode>, replica: nat)
    ensures TableWithin(GroupTable(sorted, replica), |sorted|)
    ensures forall k :: 0 <= k < |GroupTable(sorted, replica)| ==> GroupTable(sorted, replica)[k] != []
  {
    GroupsWithin(sorted, replica);
    GroupsAreSized(sorted, replica);
    forall k | 0 <= k < |Groups(sorted, replica)|
      ensures CellsWithin(GroupTable(sorted, replica)[k], |sorted|) && GroupTable(sorted, replica)[k] != []
    {
      CellsOfWithin(sorted, Groups(sorted, replica)[k]);
    }
  }

  lemma CellsOfWithin(sorted: seq<LogServiceNode>, group: seq<nat>)
    requires Within(sorted, Elems(group))
    ensures CellsWithin(CellsOf(sorted, group), |sorted|)
  {
    assert forall m :: 0 <= m < |group| ==> group[m] in Elems(group);
  }

  /** `group_members`: the groups in order, each member numbered. */
  function GroupMembers(nodes: seq<LogServiceNode>, replica: nat): seq<seq<LogGroupMember>> {
    NumberedGroups(RawGroups(nodes, replica))
  }

  predicate NodeIdLe(a: LogGroupMember, b: LogGroupMember) { a.nodeId <= b.nodeId }

  /** `group_member_as_vec`: all members, sorted by number. */
  function MemberVec(nodes: seq<LogServiceNode>, replica: nat): seq<LogGroupMember> {
    Sort(Flatten(GroupMembers(nodes, replica)), NodeIdLe)
  }

  /** The comma-separated list of all members: `txlog_service_list`, and the `-conf` member list of
      every launch command. */
  function ServiceList(nodes: seq<LogServiceNode>, replica: nat): string {
    Join(Addresses(MemberVec(nodes, replica)), ",")
  }

  /* ---------- numbering ---------- */

  lemma {:induction false} LastPositionFacts(addresses: seq<string>, a: string)
    ensures var r := LastPosition(addresses, a);
            && (r.Some? ==> r.value < |addresses| && addresses[r.value] == a)
            && (r.Some? ==> forall j :: r.value < j < |addresses| ==> addresses[j] != a)
            && (r.None? ==> a !in addresses)
  {
    if addresses != [] && addresses[|addresses| - 1] != a {
      var front := addresses[..|addresses| - 1];
      LastPositionFacts(front, a);
      assert addresses == front + [addresses[|addresses| - 1]];
    }
  }

  /** The last member with the host and port of `m` is at `k`. */
  ghost predicate IsLastOf(members: seq<LogGroupMember>, k: nat, m: LogGroupMember) {
    && k < |members| && members[k].memberHost == m.memberHost && members[k].port == m.port
    && forall j :: k < j < |members| ==> members[j].memberHost != m.memberHost || members[j].port != m.port
  }

  lemma LastAddressIsLast(members: seq<LogGroupMember>, k: nat, m: LogGroupMember)
    requires LastPosition(Addresses(members), Address(m)) == Some(k)
    ensures IsLastOf(members, k, m)
  {
    LastPositionFacts(Addresses(members), Address(m));
    HostPortInjective(members[k].memberHost, members[k].port, m.memberHost, m.port);
    forall j | k < j < |members| ensures members[j].memberHost != m.memberHost || members[j].port != m.port {
      assert Addresses(members)[j] != Address(m);
    }
  }

  /** Renumbering gives every member the last position of its address, whatever number it had, and so its
      own position exactly when no address occurs twice. */
  lemma NumbersArePositions(members: seq<LogGroupMember>)
    ensures var numbered := MapSeq(Renumber(Addresses(members)), members);
            && Addresses(numbered) == Addresses(members)
            && (forall i :: 0 <= i < |members| ==> IsLastOf(members, numbered[i].nodeId, members[i]))
            && ((forall i :: 0 <= i < |members| ==> numbered[i].nodeId == i) <==> Distinct(Addresses(members)))
  {
    var addresses := Addresses(members);
    var numbered := MapSeq(Renumber(addresses), members);
    forall i | 0 <= i < |members|
      ensures LastPosition(addresses, addresses[i]) == Some(numbered[i].nodeId)
      ensures i <= numbered[i].nodeId < |members| && addresses[numbered[i].nodeId] == addresses[i]
      ensures IsLastOf(members, numbered[i].nodeId, members[i])
    {
      LastPositionFacts(addresses, addresses[i]);
      LastAddressIsLast(members, numbered[i].nodeId, members[i]);
    }
    if forall i :: 0 <= i < |members| ==> numbered[i].nodeId == i {
      forall i, j | 0 <= i < j < |addresses| ensures addresses[i] != addresses[j] {
        LastPositionFacts(addresses, addresses[i]);
        assert numbered[i].nodeId == i;
      }
    }
  }

  /* ---------- what all readers see ---------- */

  predicate NoHoleDisks(nodes: seq<LogServiceNode>) {
    forall i :: 0 <= i < |nodes| ==> nodes[i].dataDir == [] || nodes[i].dataDir[0] != HOLE
  }

  function AddressAt(sorted: seq<LogServiceNode>): nat -> string {
    (i: nat) => if i < |sorted| then NodeAddress(sorted[i]) else ""
  }

  lemma SortedKeepsDisks(nodes: seq<LogServiceNode>)
    requires NoHoleDisks(nodes)
    ensures NoHoleDisks(SortedNodes(nodes)) && multiset(SortedNodes(nodes)) == multiset(nodes)
  {
    SortPermutes(nodes, HostLe);
    forall i | 0 <= i < |SortedNodes(nodes)|
      ensures SortedNodes(nodes)[i].dataDir == [] || SortedNodes(nodes)[i].dataDir[0] != HOLE
    {
      assert SortedNodes(nodes)[i] in nodes;
    }
  }

  lemma NoHoleCells(sorted: seq<LogServiceNode>, group: seq<nat>)
    requires NoHoleDisks(sorted) && Within(sorted, Elems(group))
    ensures HoleFree(CellsOf(sorted, group))
  {
    assert forall m :: 0 <= m < |group| ==> group[m] in Elems(group);
  }

  /** Without hole markers every row of the allocator's table becomes a group. */
  lemma EveryRowIsAGroup(nodes: seq<LogServiceNode>, replica: nat)
    requires NoHoleDisks(nodes)
    ensures var table := GroupTable(SortedNodes(nodes), replica);
            && TableWithin(table, |SortedNodes(nodes)|)
            && RawGroups(nodes, replica) == RowsToGroups(nodes, SortedNodes(nodes), table)
  {
    var sorted := SortedNodes(nodes);
    var table := GroupTable(sorted, replica);
    SortedKeepsDisks(nodes);
    TableIsWithin(sorted, replica);
    GroupsWithin(sorted, replica);
    forall k | 0 <= k < |table| ensures HoleFree(table[k]) { NoHoleCells(sorted, Groups(sorted, replica)[k]); }
    RowsKeptIffNoHoles(table, replica);
  }

  /** The first node in the listed order with the host and port of `n` is at `k`. */
  ghost predicate IsFirstOf(nodes: seq<LogServiceNode>, k: nat, n: LogServiceNode) {
    && k < |nodes| && nodes[k].host == n.host && nodes[k].port == n.port
    && forall j :: 0 <= j < k ==> nodes[j].host != n.host || nodes[j].port != n.port
  }

  lemma {:induction false} PositionIsFirst(nodes: seq<LogServiceNode>, n: LogServiceNode)
    requires n in nodes
    ensures PositionIn(nodes, n.host, n.port).Some? && IsFirstOf(nodes, PositionIn(nodes, n.host, n.port).value, n)
  {
    if nodes[0].host != n.host || nodes[0].port != n.port {
      assert nodes == [nodes[0]] + nodes[1..];
      PositionIsFirst(nodes[1..], n);
      assert forall j :: 0 < j < |nodes| ==> nodes[j] == nodes[1..][j - 1];
    }
  }

  /** What the row loop makes of the node that the allocator put at place `i` of group `k`. */
  lemma RawMember(nodes: seq<LogServiceNode>, replica: nat, k: nat, i: nat)
    requires NoHoleDisks(nodes)
    requires k < |Groups(SortedNodes(nodes), replica)| && i < |Groups(SortedNodes(nodes), replica)[k]|
    ensures var sorted, raw := SortedNodes(nodes), RawGroups(nodes, replica);
            var g := Groups(sorted, replica);
            && |raw| == |g| && |raw[k]| == |g[k]| && g[k][i] < |sorted|
            && raw[k][i] == MemberOf(nodes, sorted[g[k][i]], k, i, CellOf(sorted, g[k][i]).disk)
  {
    var sorted := SortedNodes(nodes);
    EveryRowIsAGroup(nodes, replica);
    GroupsWithin(sorted, replica);
    assert Groups(sorted, replica)[k][i] in Elems(Groups(sorted, replica)[k]);
  }

  /** Before the renumbering a member's number is the first listed position of its host and port. */
  lemma FirstNumbers(nodes: seq<LogServiceNode>, replica: nat, k: nat, i: nat)
    requires NoHoleDisks(nodes)
    requires k < |Groups(SortedNodes(nodes), replica)| && i < |Groups(SortedNodes(nodes), replica)[k]|
    ensures var sorted, raw := SortedNodes(nodes), RawGroups(nodes, replica);
            var g := Groups(sorted, replica);
            && |raw| == |g| && |raw[k]| == |g[k]| && g[k][i] < |sorted|
            && IsFirstOf(nodes, raw[k][i].nodeId, sorted[g[k][i]])
  {
    var sorted := SortedNodes(nodes);
    RawMember(nodes, replica, k, i);
    SortPermutes(nodes, HostLe);
    PositionIsFirst(nodes, sorted[Groups(sorted, replica)[k][i]]);
  }

  /** The groups are numbered in order, also where rows are dropped. */
  lemma GroupsAreNumbered(nodes: seq<LogServiceNode>, replica: nat, k: nat, i: nat)
    requires k < |GroupMembers(nodes, replica)| && i < |GroupMembers(nodes, replica)[k]|
    ensures GroupMembers(nodes, replica)[k][i].groupId == k
  {
  }

  /** The member that group `k` gets for the sorted node `n`, except for its number. */
  ghost predicate RunsAt(m: LogGroupMember, n: LogServiceNode, k: nat) {
    && m.memberHost == n.host && m.port == n.port && m.groupId == k
    && m.storagePath == (if n.dataDir == [] then "default" else n.dataDir[0])
    && m.checkHealthUrl == "http://" + n.host + ":" + Decimal(n.port) + "/healthz"
  }

  lemma UrlOf(host: string, digits: string)
    ensures "http://" + (host + ":" + digits) + "/healthz" == "http://" + host + ":" + digits + "/healthz"
  {
  }

  /** Member `i` of group `k` runs on the node that the allocator put there: on its host and port, in its
      first data directory, in the group of that number. */
  lemma MembersRunOnTheirNodes(nodes: seq<LogServiceNode>, replica: nat, k: nat, i: nat)
    requires NoHoleDisks(nodes)
    requires k < |Groups(SortedNodes(nodes), replica)| && i < |Groups(SortedNodes(nodes), replica)[k]|
    ensures var sorted := SortedNodes(nodes);
            var g, members := Groups(sorted, replica), GroupMembers(nodes, replica);
            && |members| == |g| && |members[k]| == |g[k]| && g[k][i] < |sorted|
            && RunsAt(members[k][i], sorted[g[k][i]], k)
  {
    RawMember(nodes, replica, k, i);
    var n := SortedNodes(nodes)[Groups(SortedNodes(nodes), replica)[k][i]];
    UrlOf(n.host, Decimal(n.port));
  }

  lemma RowAddresses(nodes: seq<LogServiceNode>, sorted: seq<LogServiceNode>, group: seq<nat>, k: nat)
    requires Within(sorted, Elems(group)) && CellsWithin(CellsOf(sorted, group), |sorted|)
    ensures Addresses(MembersOfRow(nodes, sorted, CellsOf(sorted, group), k)) == MapSeq(AddressAt(sorted), group)
  {
    assert forall m :: 0 <= m < |group| ==> group[m] in Elems(group);
  }

  /** The members, group after group, are the sorted nodes in allocation order. */
  lemma RawAddresses(nodes: seq<LogServiceNode>, replica: nat)
    requires NoHoleDisks(nodes)
    ensures Addresses(Flatten(RawGroups(nodes, replica)))
         == MapSeq(AddressAt(SortedNodes(nodes)), Flatten(Groups(SortedNodes(nodes), replica)))
  {
    var sorted := SortedNodes(nodes);
    var groups, raw := Groups(sorted, replica), RawGroups(nodes, replica);
    EveryRowIsAGroup(nodes, replica);
    GroupsWithin(sorted, replica);
    forall k | 0 <= k < |groups| ensures MapGroups(Address, raw)[k] == MapSeq(AddressAt(sorted), groups[k]) {
      CellsOfWithin(sorted, groups[k]);
      RowAddresses(nodes, sorted, groups[k], k);
    }
    assert MapGroups(Address, raw) == MapGroups(AddressAt(sorted), groups);
    FlattenMap(Address, raw);
    FlattenMap(AddressAt(sorted), groups);
  }

  /** Handing out all indices once keeps the collection of addresses. */
  lemma AllocationKeepsAddresses(sorted: seq<LogServiceNode>, order: seq<nat>)
    requires Distinct(order) && forall i: nat :: i in order <==> i < |sorted|
    ensures multiset(MapSeq(AddressAt(sorted), order)) == multiset(MapSeq(NodeAddress, sorted))
    ensures |order| == |sorted|
  {
    var ids := IndicesBelow(|sorted|);
    IndicesBelowMembers(|sorted|);
    DistinctBelow(|sorted|);
    DistinctPermutation(order, ids);
    SamePermutation(order, ids);
    MapKeepsMultiset(AddressAt(sorted), order, ids);
    MapIndices(sorted, |sorted|);
    assert sorted[..|sorted|] == sorted;
  }

  lemma {:induction false} MapIndices(sorted: seq<LogServiceNode>, n: nat)
    requires n <= |sorted|
    ensures MapSeq(AddressAt(sorted), IndicesBelow(n)) == MapSeq(NodeAddress, sorted[..n])
  {
    if n > 0 {
      MapIndices(sorted, n - 1);
      assert sorted[..n] == sorted[..n - 1] + [sorted[n - 1]];
    }
  }

  lemma {:induction false} MapKeepsMultiset<A, B>(f: A -> B, xs: seq<A>, ys: seq<A>)
    requires multiset(xs) == multiset(ys)
    ensures multiset(MapSeq(f, xs)) == multiset(MapSeq(f, ys))
  {
    SamePermutation(xs, ys);
    if xs != [] {
      var x := xs[0];
      assert x in ys;
      var j :| 0 <= j < |ys| && ys[j] == x;
      TakeFromBoth(xs, ys, j);
      MapKeepsMultiset(f, xs[1..], ys[..j] + ys[j + 1..]);
      MapTake(f, x, xs[1..], ys, j);
      assert xs == [x] + xs[1..];
    }
  }

  lemma TakeFromBoth<A>(xs: seq<A>, ys: seq<A>, j: nat)
    requires xs != [] && j < |ys| && ys[j] == xs[0] && multiset(xs) == multiset(ys)
    ensures multiset(xs[1..]) == multiset(ys[..j] + ys[j + 1..])
  {
    assert xs == [xs[0]] + xs[1..] && ys == ys[..j] + [ys[j]] + ys[j + 1..];
    assert multiset(xs[1..]) == multiset(xs) - multiset{xs[0]};
    assert multiset(ys[..j] + ys[j + 1..]) == multiset(ys) - multiset{ys[j]};
  }

  lemma MapTake<A, B>(f: A -> B, x: A, xs: seq<A>, ys: seq<A>, j: nat)
    requires j < |ys| && ys[j] == x
    requires multiset(MapSeq(f, xs)) == multiset(MapSeq(f, ys[..j] + ys[j + 1..]))
    ensures multiset(MapSeq(f, [x] + xs)) == multiset(MapSeq(f, ys))
  {
    assert MapSeq(f, [x] + xs) == [f(x)] + MapSeq(f, xs);
    assert MapSeq(f, ys[..j] + ys[j + 1..]) == MapSeq(f, ys[..j]) + MapSeq(f, ys[j + 1..]);
    assert MapSeq(f, ys) == MapSeq(f, ys[..j]) + [f(x)] + MapSeq(f, ys[j + 1..]);
  }

  /** All nodes become members once each. The members are numbered by their position in the list
      exactly when no two nodes share host and port. */
  lemma NodeIdsArePositions(nodes: seq<LogServiceNode>, replica: nat)
    requires NoHoleDisks(nodes)
    ensures var all := Flatten(GroupMembers(nodes, replica));
            && |all| == |nodes|
            && multiset(Addresses(all)) == multiset(MapSeq(NodeAddress, nodes))
            && ((forall i :: 0 <= i < |all| ==> all[i].nodeId == i) <==> Distinct(MapSeq(NodeAddress, nodes)))
  {
    var sorted, raw := SortedNodes(nodes), Flatten(RawGroups(nodes, replica));
    var order := Flatten(Groups(sorted, replica));
    SortedKeepsDisks(nodes);
    SamePermutation(sorted, nodes);
    RawAddresses(nodes, replica);
    GroupsPartitionNodes(sorted, replica);
    AllocationKeepsAddresses(sorted, order);
    MapKeepsMultiset(NodeAddress, sorted, nodes);
    FlattenMap(Renumber(Addresses(raw)), RawGroups(nodes, replica));
    NumbersArePositions(raw);
    DistinctEitherWay(Addresses(raw), MapSeq(NodeAddress, nodes));
  }

  lemma DistinctEitherWay(a: seq<string>, b: seq<string>)
    requires multiset(a) == multiset(b)
    ensures Distinct(a) <==> Distinct(b)
  {
    if Distinct(a) { DistinctIsPermutable(a, b); }
    if Distinct(b) { DistinctIsPermutable(b, a); }
  }

  /** Entry `nodeId` of a comma-separated list is the member's own address. */
  predicate OwnEntry(list: string, m: LogGroupMember) {
    var entries := Split(list, {','});
    m.nodeId < |entries| && entries[m.nodeId] == Address(m)
  }

  /** With distinct addresses the final sort by number changes nothing, and entry `nodeId` of the
      service list that both EloqKV and the log processes read is the member's own address. */
  lemma ServiceListIndexedByNodeId(nodes: seq<LogServiceNode>, replica: nat)
    requires NoHoleDisks(nodes) && Distinct(MapSeq(NodeAddress, nodes))
    requires forall i :: 0 <= i < |nodes| ==> FreeOf(nodes[i].host, {','})
    ensures MemberVec(nodes, replica) == Flatten(GroupMembers(nodes, replica))
    ensures nodes != [] ==> |Split(ServiceList(nodes, replica), {','})| == |nodes|
    ensures forall m :: m in MemberVec(nodes, replica) ==> OwnEntry(ServiceList(nodes, replica), m)
  {
    var all := Flatten(GroupMembers(nodes, replica));
    NodeIdsArePositions(nodes, replica);
    SortedIsFixed(all, NodeIdLe);
    if nodes != [] {
      AddressesAreEntries(nodes, Addresses(all));
      assert forall m :: m in all ==> OwnEntry(Join(Addresses(all), ","), m);
    }
  }

  function SameNumber(k: nat): LogGroupMember -> bool { (m: LogGroupMember) => m.nodeId == k }

  /** Whatever the addresses are, the list of all members is in ascending order of their numbers, and
      those that share a number are in group order. */
  lemma MembersAreSortedByNumber(nodes: seq<LogServiceNode>, replica: nat)
    ensures multiset(MemberVec(nodes, replica)) == multiset(Flatten(GroupMembers(nodes, replica)))
    ensures forall i, j :: 0 <= i < j < |MemberVec(nodes, replica)| ==>
              MemberVec(nodes, replica)[i].nodeId <= MemberVec(nodes, replica)[j].nodeId
    ensures forall k :: Filter(SameNumber(k), MemberVec(nodes, replica))
                     == Filter(SameNumber(k), Flatten(GroupMembers(nodes, replica)))
  {
    var all := Flatten(GroupMembers(nodes, replica));
    SortPermutes(all, NodeIdLe);
    SortSorts(all, NodeIdLe);
    forall k ensures Filter(SameNumber(k), MemberVec(nodes, replica)) == Filter(SameNumber(k), all) {
      SortIsStable(all, NodeIdLe, SameNumber(k));
    }
  }

  lemma NodeAddressesAreFree(nodes: seq<LogServiceNode>)
    requires forall i :: 0 <= i < |nodes| ==> FreeOf(nodes[i].host, {','})
    ensures forall a :: a in MapSeq(NodeAddress, nodes) ==> FreeOf(a, {','})
  {
    forall a | a in MapSeq(NodeAddress, nodes) ensures FreeOf(a, {','}) {
      var i :| 0 <= i < |nodes| && MapSeq(NodeAddress, nodes)[i] == a;
      HostPortFree(nodes[i].host, nodes[i].port, {','});
    }
  }

  lemma AddressesAreEntries(nodes: seq<LogServiceNode>, addresses: seq<string>)
    requires nodes != [] && multiset(addresses) == multiset(MapSeq(NodeAddress, nodes))
    requires forall i :: 0 <= i < |nodes| ==> FreeOf(nodes[i].host, {','})
    ensures Split(Join(addresses, ","), {','}) == addresses && |addresses| == |nodes|
  {
    SamePermutation(addresses, MapSeq(NodeAddress, nodes));
    NodeAddressesAreFree(nodes);
    SplitJoinFree(addresses, ',', {','});
  }

  /* ---------- launch commands ---------- */

  datatype LogCmdItems = LogCmdItems(groupMembersConfig: string, logMember: LogGroupMember)

  function IsOn(host: string): LogGroupMember -> bool { (m: LogGroupMember) => m.memberHost == host }

  function OnHost(members: seq<LogGroupMember>, host: string): seq<LogGroupMember> { Filter(IsOn(host), members) }

  function Launch(config: string): LogGroupMember -> LogCmdItems { (m: LogGroupMember) => LogCmdItems(config, m) }

  /** `log_start_cmd`: the launch items of each host's members, in list order. */
  function LogStartCmd(nodes: seq<LogServiceNode>, replica: nat): map<string, seq<LogCmdItems>> {
    var members := MemberVec(nodes, replica);
    var config := ServiceList(nodes, replica);
    map h | h in (set m | m in members :: m.memberHost)
        :: MapSeq(Launch(config), OnHost(members, h))
  }

  /** Every member is launched on its own host, once there and on no other, with a member list in which
      entry `nodeId` is its own address. */
  lemma LaunchCommandsAgree(nodes: seq<LogServiceNode>, replica: nat)
    requires NoHoleDisks(nodes) && Distinct(MapSeq(NodeAddress, nodes))
    requires forall i :: 0 <= i < |nodes| ==> FreeOf(nodes[i].host, {','})
    ensures forall m :: m in MemberVec(nodes, replica) ==> m.memberHost in LogStartCmd(nodes, replica)
    ensures forall h :: h in LogStartCmd(nodes, replica) ==>
              HostItems(LogStartCmd(nodes, replica)[h], MemberVec(nodes, replica), ServiceList(nodes, replica), h)
    ensures forall m :: m in MemberVec(nodes, replica) ==> OwnEntry(ServiceList(nodes, replica), m)
  {
    ServiceListIndexedByNodeId(nodes, replica);
    NodeIdsArePositions(nodes, replica);
    var members, config, cmds := MemberVec(nodes, replica), ServiceList(nodes, replica), LogStartCmd(nodes, replica);
    forall h | h in cmds ensures HostItems(cmds[h], members, config, h) { ItemsOfHost(members, config, h); }
  }

  /** The items of a host are its members, each once, in ascending order of their numbers and with the
      full member list. */
  ghost predicate HostItems(items: seq<LogCmdItems>, members: seq<LogGroupMember>, config: string, h: string) {
    && Distinct(items)
    && (forall i, j :: 0 <= i < j < |items| ==> items[i].logMember.nodeId < items[j].logMember.nodeId)
    && forall c: LogCmdItems ::
         c in items <==> c.groupMembersConfig == config && c.logMember in members && c.logMember.memberHost == h
  }

  lemma {:induction false} OnHostAscends(members: seq<LogGroupMember>, h: string)
    requires forall i, j :: 0 <= i < j < |members| ==> members[i].nodeId < members[j].nodeId
    ensures var on := OnHost(members, h); forall i, j :: 0 <= i < j < |on| ==> on[i].nodeId < on[j].nodeId
  {
    if members != [] {
      var rest := members[1..];
      assert forall i :: 0 <= i < |rest| ==> rest[i] == members[i + 1];
      OnHostAscends(rest, h);
      FilterMembers(IsOn(h), rest);
      assert forall m :: m in rest ==> members[0].nodeId < m.nodeId;
      var on := OnHost(rest, h);
      assert forall i :: 0 <= i < |on| ==> on[i] in on && members[0].nodeId < on[i].nodeId;
    }
  }

  lemma ItemsOfHost(members: seq<LogGroupMember>, config: string, h: string)
    requires forall i :: 0 <= i < |members| ==> members[i].nodeId == i
    ensures HostItems(MapSeq(Launch(config), OnHost(members, h)), members, config, h)
  {
    FilterMembers(IsOn(h), members);
    assert Distinct(members);
    FilterDistinct(IsOn(h), members);
    OnHostAscends(members, h);
    var on := OnHost(members, h);
    var items := MapSeq(Launch(config), on);
    forall c: LogCmdItems | c.groupMembersConfig == config && c.logMember in on ensures c in items {
      var i :| 0 <= i < |on| && on[i] == c.logMember;
      assert items[i] == c;
    }
  }
}
