/** `group_members` as the program it is: loops over the table's rows, a map from addresses to
    positions, and a second pass that renumbers every member. */
module LogMemberBuilder {
  import opened Wrappers
  import opened LogGroups
  import opened LogAllocator
  import opened LogMembers

  /** Which position each address was inserted at last. */
  method AddressIndex(addresses: seq<string>) returns (index: map<string, nat>)
    ensures forall a :: (if a in index then Some(index[a]) else None) == LastPosition(addresses, a)
  {
    index := map[];
    for i := 0 to |addresses|
      invariant forall a :: (if a in index then Some(index[a]) else None) == LastPosition(addresses[..i], a)
    {
      assert addresses[..i + 1][..i] == addresses[..i];
      index := index[addresses[i] := i];
    }
    assert addresses[..|addresses|] == addresses;
  }

  /** The groups of the first `row` rows of the table. */
  ghost predicate Collected(nodes: seq<LogServiceNode>, sorted: seq<LogServiceNode>, table: seq<seq<NodeDiskCell>>,
                            replica: nat, row: nat, raw: seq<seq<LogGroupMember>>)
    requires row <= |table|
  {
    var rows := KeptRows(table, replica, row);
    TableWithin(rows, |sorted|) && raw == RowsToGroups(nodes, sorted, rows)
  }

  lemma CollectRow(nodes: seq<LogServiceNode>, sorted: seq<LogServiceNode>, table: seq<seq<NodeDiskCell>>,
                   replica: nat, row: nat, raw: seq<seq<LogGroupMember>>)
    requires row < |table| && TableWithin(table, |sorted|)
    requires Collected(nodes, sorted, table, replica, row, raw)
    ensures CellsWithin(MergeRow(table, row, replica), |sorted|)
    ensures var merged := MergeRow(table, row, replica);
            Collected(nodes, sorted, table, replica, row + 1,
                      if merged == [] then raw else raw + [MembersOfRow(nodes, sorted, merged, |raw|)])
  {
    MergedWithin(table, row, replica, |sorted|);
    var rows, merged := KeptRows(table, replica, row), MergeRow(table, row, replica);
    assert TableWithin(rows + [merged], |sorted|);
    assert RowsToGroups(nodes, sorted, rows + [merged])
         == RowsToGroups(nodes, sorted, rows) + [MembersOfRow(nodes, sorted, merged, |rows|)];
  }

  method CollectGroups(nodes: seq<LogServiceNode>, sorted: seq<LogServiceNode>, table: seq<seq<NodeDiskCell>>,
                       replica: nat)
    returns (raw: seq<seq<LogGroupMember>>)
    requires TableWithin(table, |sorted|)
    ensures Collected(nodes, sorted, table, replica, |table|, raw)
  {
    raw := [];
    for row := 0 to |table|
      invariant Collected(nodes, sorted, table, replica, row, raw)
    {
      CollectRow(nodes, sorted, table, replica, row, raw);
      var merged := MergeRow(table, row, replica);
      if merged == [] { continue; }
      raw := raw + [MembersOfRow(nodes, sorted, merged, |raw|)];
    }
  }

  method Concatenate(groups: seq<seq<LogGroupMember>>) returns (all: seq<LogGroupMember>)
    ensures all == Flatten(groups)
  {
    all := [];
    for k := 0 to |groups|
      invariant all == Flatten(groups[..k])
    {
      assert groups[..k + 1] == groups[..k] + [groups[k]];
      FlattenPush(groups[..k], groups[k]);
      all := all + groups[k];
    }
    assert groups[..|groups|] == groups;
  }

  method RenumberGroup(group: seq<LogGroupMember>, index: map<string, nat>, ghost addresses: seq<string>)
    returns (members: seq<LogGroupMember>)
    requires forall a :: (if a in index then Some(index[a]) else None) == LastPosition(addresses, a)
    ensures members == MapSeq(Renumber(addresses), group)
  {
    members := [];
    for i := 0 to |group|
      invariant members == MapSeq(Renumber(addresses), group[..i])
    {
      var member := group[i];
      assert LastPosition(addresses, Address(member))
           == if Address(member) in index then Some(index[Address(member)]) else None;
      if Address(member) in index { member := member.(nodeId := index[Address(member)]); }
      members := members + [member];
    }
    assert group[..|group|] == group;
  }

  method RenumberAll(raw: seq<seq<LogGroupMember>>, index: map<string, nat>, ghost addresses: seq<string>)
    returns (groups: seq<seq<LogGroupMember>>)
    requires forall a :: (if a in index then Some(index[a]) else None) == LastPosition(addresses, a)
    ensures groups == MapGroups(Renumber(addresses), raw)
  {
    groups := [];
    for k := 0 to |raw|
      invariant groups == MapGroups(Renumber(addresses), raw[..k])
    {
      var members := RenumberGroup(raw[k], index, addresses);
      groups := groups + [members];
    }
    assert raw[..|raw|] == raw;
  }

  method BuildGroupMembers(nodes: seq<LogServiceNode>, replica: nat) returns (groups: seq<seq<LogGroupMember>>)
    ensures groups == GroupMembers(nodes, replica)
  {
    var sorted := SortedNodes(nodes);
    var table := MembersGrouping(sorted, replica);
    TableIsWithin(sorted, replica);
    var raw := CollectGroups(nodes, sorted, table, replica);
    var all := Concatenate(raw);
    var index := AddressIndex(Addresses(all));
    groups := RenumberAll(raw, index, Addresses(all));
  }
}
