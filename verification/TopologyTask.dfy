/** `update_saved_topology` and `validate_topology` as programs over the fields of the deployment. */
module TopologyTask {
  import opened Wrappers
  import opened Text
  import opened ClusterConfig
  import opened ClusterParser
  import opened NodeLists
  import opened NodeListsProgram
  import opened Topology

  class TxService {
    var txHostPorts: seq<string>
    var standbyHostPorts: Option<seq<string>>
    var voterHostPorts: Option<seq<string>>

    constructor (layout: Layout)
      ensures Now() == layout
    {
      txHostPorts, standbyHostPorts, voterHostPorts := layout.tx, layout.standby, layout.voter;
    }

    ghost function Now(): Layout
      reads this
    {
      Layout(txHostPorts, standbyHostPorts, voterHostPorts)
    }

    method UpdateFromConfig(config: ClusterGroupConfig, op: ScaleOperation)
      modifies this
      ensures Now() == FromLists(old(Now()), ListsOf(config), op)
    {
      var ids := Enumerate(config.groups.Keys);
      var lists := FormatNodeLists(ids, config);
      FormatForgetsOrder(ids, AnyOrder(config.groups.Keys), config);
      if lists.masters != "" { txHostPorts := [lists.masters]; }
      if lists.replicas != "" {
        standbyHostPorts := Some([lists.replicas]);
      } else if op == RemoveNodes {
        standbyHostPorts := Some([]);
      }
      if lists.voters != "" {
        voterHostPorts := Some([lists.voters]);
      } else if op == RemoveNodes {
        voterHostPorts := Some([]);
      }
    }

    method UpdateFromClusterNodes(nodes: ClusterNodes, op: ScaleOperation)
      modifies this
      ensures Now() == FromNodes(old(Now()), nodes, op)
    {
      var masters, replicas := InfoAddresses(nodes.masters), InfoAddresses(nodes.replicas);
      match op {
        case AddNodes =>
          if masters != [] { txHostPorts := [Join(masters, ",")]; }
          if replicas != [] { standbyHostPorts := Some([Join(replicas, ",")]); }
        case RemoveNodes =>
          if masters != [] { txHostPorts := [Join(masters, ",")]; }
          if replicas != [] {
            standbyHostPorts := Some([Join(replicas, ",")]);
          } else {
            standbyHostPorts := Some([]);
          }
      }
    }

    method UpdateSavedTopology(text: Option<string>, nodes: ClusterNodes, op: ScaleOperation)
      modifies this
      ensures Now() == Updated(old(Now()), op, text, nodes)
    {
      match text {
        case None => UpdateFromClusterNodes(nodes, op);
        case Some(t) =>
          var parsed := ParseClusterConfig(t);
          match parsed {
            case Ok(config) => UpdateFromConfig(config, op);
            case Err(_) => UpdateFromClusterNodes(nodes, op);
          }
      }
    }

    method ValidateEntry(field: Field, entry: string) returns (error: Option<TopologyError>)
      ensures error == CheckTokens(field, Split(entry, SeparatorsOf(field)))
    {
      var tokens := Split(entry, SeparatorsOf(field));
      for i := 0 to |tokens|
        invariant CheckTokens(field, tokens) == CheckTokens(field, tokens[i..])
      {
        assert tokens[i..][0] == tokens[i] && tokens[i..][1..] == tokens[i + 1..];
        var token := Trim(tokens[i]);
        if token != "" {
          var parts := RSplitOnce(token, ':');
          if parts.None? { return Some(NotHostPort(field, token)); }
          if Trim(parts.value.0) == "" { return Some(EmptyHost(field, token)); }
          if ParseUnsigned(parts.value.1, U16_MAX).None? { return Some(InvalidPort(field, token)); }
        }
      }
      assert tokens[|tokens|..] == [];
      error := None;
    }

    method ValidateField(field: Field, entries: seq<string>) returns (error: Option<TopologyError>)
      ensures error == CheckField(field, entries)
    {
      if entries == [] { return Some(EmptyField(field)); }
      for i := 0 to |entries|
        invariant CheckEntries(field, entries) == CheckEntries(field, entries[i..])
      {
        assert entries[i..][0] == entries[i] && entries[i..][1..] == entries[i + 1..];
        error := ValidateEntry(field, entries[i]);
        if error.Some? { return; }
      }
      assert entries[|entries|..] == [];
      error := None;
    }

    method ValidateTopology() returns (error: Option<TopologyError>)
      ensures error == Check(Now())
    {
      error := ValidateField(TxHostPorts, txHostPorts);
      if error.Some? { return; }
      if standbyHostPorts.Some? {
        error := ValidateField(StandbyHostPorts, standbyHostPorts.value);
        if error.Some? { return; }
      }
      if voterHostPorts.Some? {
        error := ValidateField(VoterHostPorts, voterHostPorts.value);
        if error.Some? { return; }
      }
    }
  }
}
