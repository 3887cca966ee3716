/** The saved topology: its validation, and its update after a scaling operation. */
module Topology {
  import opened Wrappers
  import opened Text
  import opened ClusterConfig
  import opened NodeLists

  /** The transaction-service part of a deployment that scaling changes. */
  datatype Layout = Layout(tx: seq<string>, standby: Option<seq<string>>, voter: Option<seq<string>>)

  datatype Field = TxHostPorts | StandbyHostPorts | VoterHostPorts

  datatype TopologyError =
    | EmptyField(field: Field)
    | NotHostPort(field: Field, token: string)
    | EmptyHost(field: Field, token: string)
    | InvalidPort(field: Field, token: string)

  /* ---------- validation ---------- */

  /** `str::rsplit_once` */
  function RSplitOnce(s: string, c: char): Option<(string, string)> {
    if s == "" then None
    else
      var n := |s| - 1;
      if s[n] == c then Some((s[..n], ""))
      else
        match RSplitOnce(s[..n], c)
        case None => None
        case Some(parts) => Some((parts.0, parts.1 + [s[n]]))
  }

  function CheckToken(field: Field, raw: string): Option<TopologyError> {
    var token := Trim(raw);
    if token == "" then None
    else
      match RSplitOnce(token, ':')
      case None => Some(NotHostPort(field, token))
      case Some(parts) =>
        if Trim(parts.0) == "" then Some(EmptyHost(field, token))
        else if ParseUnsigned(parts.1, U16_MAX).None? then Some(InvalidPort(field, token))
        else None
  }

  /** The first error among the tokens of an entry. */
  function CheckTokens(field: Field, tokens: seq<string>): Option<TopologyError> {
    if tokens == [] then None
    else if CheckToken(field, tokens[0]).Some? then CheckToken(field, tokens[0])
    else CheckTokens(field, tokens[1..])
  }

  function SeparatorsOf(field: Field): set<char> { if field == TxHostPorts then {','} else SEPARATORS }

  function CheckEntries(field: Field, entries: seq<string>): Option<TopologyError> {
    if entries == [] then None
    else
      var here := CheckTokens(field, Split(entries[0], SeparatorsOf(field)));
      if here.Some? then here else CheckEntries(field, entries[1..])
  }

  function CheckField(field: Field, entries: seq<string>): Option<TopologyError> {
    if entries == [] then Some(EmptyField(field)) else CheckEntries(field, entries)
  }

  function CheckOptional(field: Field, entries: Option<seq<string>>): Option<TopologyError> {
    match entries
    case None => None
    case Some(list) => CheckField(field, list)
  }

  function Check(layout: Layout): Option<TopologyError> {
    var tx := CheckField(TxHostPorts, layout.tx);
    if tx.Some? then tx
    else
      var standby := CheckOptional(StandbyHostPorts, layout.standby);
      if standby.Some? then standby else CheckOptional(VoterHostPorts, layout.voter)
  }

  predicate IsValid(layout: Layout) { Check(layout).None? }

  /* ---------- the update ---------- */

  datatype ScaleOperation = AddNodes | RemoveNodes

  datatype NodeInfo = NodeInfo(ip: string, port: nat)

  datatype ClusterNodes = ClusterNodes(masters: seq<NodeInfo>, replicas: seq<NodeInfo>)

  /** A list taken from the parsed configuration: an empty one keeps the old entries when nodes were
      added, and leaves no entry when nodes were removed. */
  function Replaced(before: Option<seq<string>>, text: string, op: ScaleOperation): Option<seq<string>> {
    if text != "" then Some([text]) else if op == RemoveNodes then Some([]) else before
  }

  function FromLists(layout: Layout, lists: FormattedNodeLists, op: ScaleOperation): Layout {
    Layout(if lists.masters != "" then [lists.masters] else layout.tx,
           Replaced(layout.standby, lists.replicas, op), Replaced(layout.voter, lists.voters, op))
  }

  function InfoAddresses(nodes: seq<NodeInfo>): (r: seq<string>)
    ensures |r| == |nodes| && forall i :: 0 <= i < |r| ==> r[i] == HostPort(nodes[i].ip, nodes[i].port)
  {
    seq(|nodes|, i requires 0 <= i < |nodes| => HostPort(nodes[i].ip, nodes[i].port))
  }

  /** Without a readable configuration the lists of masters and replicas are used; voters stay. */
  function FromNodes(layout: Layout, nodes: ClusterNodes, op: ScaleOperation): Layout {
    var masters, replicas := InfoAddresses(nodes.masters), InfoAddresses(nodes.replicas);
    var tx := if masters != [] then [Join(masters, ",")] else layout.tx;
    var standby :=
      if replicas != [] then Some([Join(replicas, ",")]) else if op == RemoveNodes then Some([]) else layout.standby;
    Layout(tx, standby, layout.voter)
  }

  ghost function AnyOrder(keys: set<nat>): (ids: seq<nat>)
    ensures Distinct(ids) && forall id :: id in ids <==> id in keys
  {
    if keys == {} then []
    else
      var id :| id in keys;
      var rest := AnyOrder(keys - {id});
      assert forall i :: 0 <= i < |rest| ==> rest[i] in rest;
      [id] + rest
  }

  ghost function ListsOf(config: ClusterGroupConfig): FormattedNodeLists {
    Format(AnyOrder(config.groups.Keys), config)
  }

  function ReadConfig(text: Option<string>): Option<ClusterGroupConfig> {
    match text
    case None => None
    case Some(t) =>
      (match Parse(t)
       case Ok(config) => Some(config)
       case Err(_) => None)
  }

  ghost function Updated(layout: Layout, op: ScaleOperation, text: Option<string>, nodes: ClusterNodes): Layout {
    match ReadConfig(text)
    case Some(config) => FromLists(layout, ListsOf(config), op)
    case None => FromNodes(layout, nodes, op)
  }
}
