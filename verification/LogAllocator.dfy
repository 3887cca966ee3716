/** `members_grouping` as the program it is: an array of assigned flags, a rotation counter and
    nested loops. Its result is the specification's, whatever order the host map iterates in. */
module LogAllocator {
  import opened Wrappers
  import opened Sorting
  import opened LogGroups
  import opened LogGroupProperties

  function Unassigned(busy: seq<bool>): set<nat> {
    set i: nat | i < |busy| && !busy[i]
  }

  method NodesByHost(nodes: seq<LogServiceNode>) returns (byHost: map<string, seq<nat>>)
    ensures byHost.Keys == HostNames(nodes)
    ensures forall h :: h in byHost ==> byHost[h] == IndicesOn(nodes, h)
  {
    byHost := map[];
    for idx := 0 to |nodes|
      invariant forall h :: h in byHost ==> byHost[h] == IndicesUpTo(nodes, h, idx) && byHost[h] != []
      invariant forall h :: h !in byHost ==> IndicesUpTo(nodes, h, idx) == []
    {
      var h := nodes[idx].host;
      byHost := byHost[h := (if h in byHost then byHost[h] else []) + [idx]];
    }
    forall h ensures h in byHost <==> h in HostNames(nodes) { HasIndices(nodes, h); }
  }

  lemma HasIndices(nodes: seq<LogServiceNode>, h: string)
    ensures IndicesOn(nodes, h) != [] <==> h in HostNames(nodes)
  {
    IndicesUpToMembers(nodes, h, |nodes|);
    if IndicesOn(nodes, h) != [] {
      var i := IndicesOn(nodes, h)[0];
      assert i in IndicesOn(nodes, h) && nodes[i].host == h;
    }
  }

  /** Marks the first unassigned node of `list` as assigned. */
  method TakeFree(list: seq<nat>, busy: array<bool>) returns (picked: Option<nat>)
    requires forall i :: i in list ==> i < busy.Length
    modifies busy
    ensures picked == FirstFreeIn(list, old(Unassigned(busy[..])))
    ensures picked.Some? ==> Unassigned(busy[..]) == old(Unassigned(busy[..])) - {picked.value}
    ensures picked.None? ==> busy[..] == old(busy[..])
  {
    for k := 0 to |list|
      invariant busy[..] == old(busy[..])
      invariant FirstFreeIn(list, Unassigned(busy[..])) == FirstFreeIn(list[k..], Unassigned(busy[..]))
    {
      assert list[k] in list;
      if !busy[list[k]] {
        assert list[k] in Unassigned(busy[..]);
        picked := Some(list[k]);
        busy[list[k]] := true;
        return;
      }
      assert list[k..][1..] == list[k + 1..];
    }
    picked := None;
  }

  /** Step 1 of a round: the next host in rotation with an unassigned node provides the leader. */
  method AssignLeader(nodes: seq<LogServiceNode>, byHost: map<string, seq<nat>>, hosts: seq<string>,
                      busy: array<bool>, turn: nat)
    returns (leader: Option<nat>, turn': nat)
    requires hosts != [] && busy.Length == |nodes|
    requires forall h :: h in hosts ==> h in byHost && byHost[h] == IndicesOn(nodes, h)
    modifies busy
    ensures var free := old(Unassigned(busy[..]));
            var t := LeaderTurn(nodes, hosts, free, turn, |hosts|);
            && turn' == RoundTurn(nodes, hosts, Alloc(free, turn))
            && leader == (if t.Some? then FreeOn(nodes, HostAt(hosts, t.value), free) else None)
            && (t.Some? ==> leader.Some?)
            && Unassigned(busy[..]) == (if leader.Some? then free - {leader.value} else free)
  {
    leader, turn' := None, turn;
    var attempts := 0;
    ghost var free := Unassigned(busy[..]);
    while leader.None? && attempts < |hosts|
      invariant attempts <= |hosts|
      invariant leader.None? ==> turn' == turn + attempts && Unassigned(busy[..]) == free
      invariant leader.None? ==>
                  LeaderTurn(nodes, hosts, free, turn, |hosts|)
                       == LeaderTurn(nodes, hosts, free, turn + attempts, |hosts| - attempts)
      invariant leader.Some? ==>
                  && turn' > 0
                  && LeaderTurn(nodes, hosts, free, turn, |hosts|) == Some(turn' - 1)
                  && leader == FreeOn(nodes, HostAt(hosts, turn' - 1), free)
                  && Unassigned(busy[..]) == free - {leader.value}
      decreases |hosts| - attempts
    {
      var host := HostAt(hosts, turn');
      turn' := turn' + 1;
      IndicesUpToMembers(nodes, host, |nodes|);
      leader := TakeFree(byHost[host], busy);
      attempts := attempts + 1;
    }
  }

  /** A node of a host the group does not use yet. */
  method TakeFresh(nodes: seq<LogServiceNode>, byHost: map<string, seq<nat>>, hosts: seq<string>,
                   used: set<string>, busy: array<bool>)
    returns (picked: Option<nat>)
    requires busy.Length == |nodes|
    requires forall h :: h in hosts ==> h in byHost && byHost[h] == IndicesOn(nodes, h)
    modifies busy
    ensures picked == FreshNode(nodes, hosts, old(Unassigned(busy[..])), used)
    ensures picked.Some? ==> Unassigned(busy[..]) == old(Unassigned(busy[..])) - {picked.value}
    ensures picked.None? ==> busy[..] == old(busy[..])
  {
    for p := 0 to |hosts|
      invariant busy[..] == old(busy[..])
      invariant FreshNode(nodes, hosts, Unassigned(busy[..]), used)
             == FreshNode(nodes, hosts[p..], Unassigned(busy[..]), used)
    {
      assert hosts[p..][1..] == hosts[p + 1..];
      if hosts[p] in used { continue; }
      IndicesUpToMembers(nodes, hosts[p], |nodes|);
      picked := TakeFree(byHost[hosts[p]], busy);
      if picked.Some? { return; }
    }
    picked := None;
  }

  /** The slots filled so far and the slots still to fill make up the group's followers. */
  ghost predicate Filling(nodes: seq<LogServiceNode>, hosts: seq<string>, free0: set<nat>, all: seq<nat>,
                          picks: seq<nat>, free: set<nat>, used: set<string>, left: nat)
  {
    free == free0 - Elems(picks) && all == picks + FillSlots(nodes, hosts, free, used, left)
  }

  lemma PickFills(nodes: seq<LogServiceNode>, hosts: seq<string>, free0: set<nat>, all: seq<nat>,
                  picks: seq<nat>, free: set<nat>, used: set<string>, left: nat, p: nat, used': set<string>)
    requires Filling(nodes, hosts, free0, all, picks, free, used, left) && left > 0
    requires FillSlots(nodes, hosts, free, used, left) == [p] + FillSlots(nodes, hosts, free - {p}, used', left - 1)
    ensures Filling(nodes, hosts, free0, all, picks + [p], free - {p}, used', left - 1)
  {
    ElemsConcat(picks, [p]);
    var tail := FillSlots(nodes, hosts, free - {p}, used', left - 1);
    assert picks + ([p] + tail) == (picks + [p]) + tail;
  }

  /** One slot of step 2: a node of an unused host, else any unassigned node. */
  method FillSlot(nodes: seq<LogServiceNode>, byHost: map<string, seq<nat>>, hosts: seq<string>,
                  used: set<string>, busy: array<bool>, picks: seq<nat>,
                  ghost free0: set<nat>, ghost all: seq<nat>, ghost left: nat)
    returns (picks': seq<nat>, used': set<string>)
    requires busy.Length == |nodes| && left > 0
    requires forall h :: h in hosts ==> h in byHost && byHost[h] == IndicesOn(nodes, h)
    requires Filling(nodes, hosts, free0, all, picks, Unassigned(busy[..]), used, left)
    modifies busy
    ensures Filling(nodes, hosts, free0, all, picks', Unassigned(busy[..]), used', left - 1)
  {
    ghost var free := Unassigned(busy[..]);
    used', picks' := used, picks;
    var picked := TakeFresh(nodes, byHost, hosts, used, busy);
    if picked.Some? {
      FreshNodeFacts(nodes, hosts, free, used);
      used' := used + {nodes[picked.value].host};
    } else {
      IndicesBelowMembers(|nodes|);
      picked := TakeFree(IndicesBelow(|nodes|), busy);
    }
    if picked.Some? {
      PickFills(nodes, hosts, free0, all, picks, free, used, left, picked.value, used');
      picks' := picks + [picked.value];
    }
  }

  /** Step 2 of a round: the remaining slots of the group. */
  method FillGroup(nodes: seq<LogServiceNode>, byHost: map<string, seq<nat>>, hosts: seq<string>,
                   used0: set<string>, busy: array<bool>, replica: nat)
    returns (picks: seq<nat>)
    requires busy.Length == |nodes|
    requires forall h :: h in hosts ==> h in byHost && byHost[h] == IndicesOn(nodes, h)
    modifies busy
    ensures picks == FillSlots(nodes, hosts, old(Unassigned(busy[..])), used0, Followers(replica))
    ensures Unassigned(busy[..]) == old(Unassigned(busy[..])) - Elems(picks)
  {
    picks := [];
    var used := used0;
    ghost var free0 := Unassigned(busy[..]);
    ghost var all := FillSlots(nodes, hosts, free0, used, Followers(replica));
    for slot := 1 to GroupSize(replica)
      invariant Filling(nodes, hosts, free0, all, picks, Unassigned(busy[..]), used, GroupSize(replica) - slot)
    {
      picks, used := FillSlot(nodes, byHost, hosts, used, busy, picks, free0, all, GroupSize(replica) - slot);
    }
  }

  /** The groups built so far and the rounds still to come make up the whole allocation. */
  ghost predicate Allocating(nodes: seq<LogServiceNode>, hosts: seq<string>, replica: nat, all: seq<seq<nat>>,
                             groups: seq<seq<nat>>, s: Alloc, table: seq<seq<NodeDiskCell>>)
  {
    && Ready(nodes, hosts, s)
    && all == groups + Rounds(nodes, hosts, replica, s)
    && (forall k :: 0 <= k < |groups| ==> Within(nodes, Elems(groups[k])))
    && table == CellTable(nodes, groups)
  }

  lemma GroupAllocated(nodes: seq<LogServiceNode>, hosts: seq<string>, replica: nat, all: seq<seq<nat>>,
                       groups: seq<seq<nat>>, s: Alloc, table: seq<seq<NodeDiskCell>>)
    requires Allocating(nodes, hosts, replica, all, groups, s, table) && s.free != {} && hosts != []
    requires Within(nodes, Elems(RoundMembers(nodes, hosts, replica, s)))
    ensures var g := RoundMembers(nodes, hosts, replica, s);
            Allocating(nodes, hosts, replica, all, groups + [g], NextAlloc(nodes, hosts, replica, s),
                       table + [CellsOf(nodes, g)])
  {
    RoundsUnfold(nodes, hosts, replica, s);
    var g := RoundMembers(nodes, hosts, replica, s);
    var rest := Rounds(nodes, hosts, replica, NextAlloc(nodes, hosts, replica, s));
    assert groups + ([g] + rest) == (groups + [g]) + rest;
    TableGrows(nodes, groups, g);
  }

  lemma SomeUnassigned(busy: seq<bool>)
    requires exists i :: 0 <= i < |busy| && !busy[i]
    ensures Unassigned(busy) != {}
  {
    var i :| 0 <= i < |busy| && !busy[i];
    assert i in Unassigned(busy);
  }

  lemma NothingAssigned(busy: seq<bool>)
    requires forall i :: 0 <= i < |busy| ==> !busy[i]
    ensures Unassigned(busy) == Elems(IndicesBelow(|busy|))
  {
    IndicesBelowMembers(|busy|);
  }

  lemma AllocationStarts(nodes: seq<LogServiceNode>, hosts: seq<string>, replica: nat)
    requires hosts == SortedHosts(nodes)
    ensures Allocating(nodes, hosts, replica, Groups(nodes, replica), [], InitialAlloc(nodes), [])
  {
    SortedHostsCover(nodes);
    IndicesBelowMembers(|nodes|);
  }

  lemma TableGrows(nodes: seq<LogServiceNode>, groups: seq<seq<nat>>, group: seq<nat>)
    requires forall k :: 0 <= k < |groups| ==> Within(nodes, Elems(groups[k]))
    requires Within(nodes, Elems(group))
    ensures forall k :: 0 <= k < |groups + [group]| ==> Within(nodes, Elems((groups + [group])[k]))
    ensures CellTable(nodes, groups + [group]) == CellTable(nodes, groups) + [CellsOf(nodes, group)]
  {
  }

  lemma RoundsUnfold(nodes: seq<LogServiceNode>, hosts: seq<string>, replica: nat, s: Alloc)
    requires Ready(nodes, hosts, s) && s.free != {}
    ensures hosts != []
    ensures var g, next := RoundMembers(nodes, hosts, replica, s), NextAlloc(nodes, hosts, replica, s);
            && Rounds(nodes, hosts, replica, s) == [g] + Rounds(nodes, hosts, replica, next)
            && g != [] && Within(nodes, Elems(g))
            && next.free < s.free
  {
    RoundFacts(nodes, hosts, replica, s);
  }

  /** One group. */
  method BuildRound(nodes: seq<LogServiceNode>, byHost: map<string, seq<nat>>, hosts: seq<string>,
                    busy: array<bool>, turn: nat, replica: nat)
    returns (group: seq<nat>, turn': nat)
    requires busy.Length == |nodes| && Unassigned(busy[..]) != {}
    requires Ready(nodes, hosts, Alloc(Unassigned(busy[..]), turn))
    requires forall h :: h in hosts ==> h in byHost && byHost[h] == IndicesOn(nodes, h)
    modifies busy
    ensures hosts != []
    ensures group == RoundMembers(nodes, hosts, replica, old(Alloc(Unassigned(busy[..]), turn)))
    ensures Alloc(Unassigned(busy[..]), turn')
         == NextAlloc(nodes, hosts, replica, old(Alloc(Unassigned(busy[..]), turn)))
  {
    ghost var s := Alloc(Unassigned(busy[..]), turn);
    ghost var i := RoundLeader(nodes, hosts, s);
    var leader;
    leader, turn' := AssignLeader(nodes, byHost, hosts, busy, turn);
    var used := {};
    group := [];
    if leader.Some? {
      group, used := [leader.value], {nodes[leader.value].host};
    }
    var rest := FillGroup(nodes, byHost, hosts, used, busy, replica);
    group := group + rest;
    ElemsConcat([leader.value], rest);
  }

  /** The allocator: the specification's groups, as a table of cells. */
  method MembersGrouping(nodes: seq<LogServiceNode>, replica: nat) returns (table: seq<seq<NodeDiskCell>>)
    ensures table == GroupTable(nodes, replica)
  {
    table := [];
    var byHost := NodesByHost(nodes);
    var keys := Enumerate(byHost.Keys);
    HostOrderIsForgotten(nodes, keys);
    SortedHostsCover(nodes);
    var hosts := Sort(keys, StringLe);
    var busy := new bool[|nodes|](i => false);
    var turn: nat := 0;
    NothingAssigned(busy[..]);
    ghost var all := Groups(nodes, replica);
    AllocationStarts(nodes, hosts, replica);
    ghost var groups: seq<seq<nat>> := [];
    while exists i :: 0 <= i < busy.Length && !busy[i]
      invariant Allocating(nodes, hosts, replica, all, groups, Alloc(Unassigned(busy[..]), turn), table)
      decreases Unassigned(busy[..])
    {
      ghost var s := Alloc(Unassigned(busy[..]), turn);
      SomeUnassigned(busy[..]);
      RoundsUnfold(nodes, hosts, replica, s);
      var group;
      group, turn := BuildRound(nodes, byHost, hosts, busy, turn, replica);
      GroupAllocated(nodes, hosts, replica, all, groups, s, table);
      if group != [] {
        table := table + [CellsOf(nodes, group)];
      }
      groups := groups + [group];
    }
    assert Unassigned(busy[..]) == {};
    assert all == groups;
  }
}
