/** The cluster configuration that an RPC response carries as text, and its parser. */
module ClusterConfig {
  import opened Wrappers
  import opened Text
  import opened TextLines

  datatype NodeConfig = NodeConfig(nodeId: nat, host: string, port: nat, candidate: bool)

  datatype ClusterGroupConfig = ClusterGroupConfig(groups: map<nat, seq<NodeConfig>>, version: nat)

  datatype ParseError =
    | EmptyConfiguration
    | BadGroupCount
    | MissingGroup
    | MissingGroupId
    | BadGroupId
    | BadNodeId
    | MissingHost(nodeId: nat)
    | MissingPort(nodeId: nat)
    | MissingFlag(nodeId: nat)
    | BadPort
    | BadFlag
    | BadVersion
    | MissingVersion

  const PORT_OFFSET: nat := 10000

  /** The port on the wire less the offset, on 16 bits: it wraps below the offset. */
  function AdjustPort(raw: nat): (port: nat)
    requires raw <= U16_MAX
    ensures port <= U16_MAX
  {
    (raw + 0x1_0000 - PORT_OFFSET) % 0x1_0000
  }

  /** One quadruple: id, host, port, flag. The id is read before the other words are asked for. */
  function ReadNode(words: seq<string>): (r: Result<NodeConfig, ParseError>)
    requires words != []
    ensures r.Ok? ==> |words| >= 4
  {
    match ParseUnsigned(words[0], U32_MAX)
    case None => Err(BadNodeId)
    case Some(id) =>
      if |words| < 2 then Err(MissingHost(id))
      else if |words| < 3 then Err(MissingPort(id))
      else if |words| < 4 then Err(MissingFlag(id))
      else
        match (ParseUnsigned(words[2], U16_MAX), ParseUnsigned(words[3], U8_MAX))
        case (None, _) => Err(BadPort)
        case (_, None) => Err(BadFlag)
        case (Some(raw), Some(flag)) => Ok(NodeConfig(id, words[1], AdjustPort(raw), flag != 0))
  }

  function ReadNodes(words: seq<string>): Result<seq<NodeConfig>, ParseError>
    decreases |words|
  {
    if words == [] then Ok([])
    else
      match ReadNode(words)
      case Err(e) => Err(e)
      case Ok(node) =>
        match ReadNodes(words[4..])
        case Err(e) => Err(e)
        case Ok(rest) => Ok([node] + rest)
  }

  function ReadGroup(line: string): Result<(nat, seq<NodeConfig>), ParseError> {
    var words := Words(Trim(line));
    if words == [] then Err(MissingGroupId)
    else
      match ParseUnsigned(words[0], U32_MAX)
      case None => Err(BadGroupId)
      case Some(id) =>
        match ReadNodes(words[1..])
        case Err(e) => Err(e)
        case Ok(nodes) => Ok((id, nodes))
  }

  /** `count` group lines and the version line; a repeated group id replaces the group before it. */
  function ReadGroups(lines: seq<string>, count: nat,
                      groups: map<nat, seq<NodeConfig>>): Result<ClusterGroupConfig, ParseError>
    decreases count
  {
    if count == 0 then
      if lines == [] then Err(MissingVersion)
      else
        match ParseUnsigned(Trim(lines[0]), U64_MAX)
        case None => Err(BadVersion)
        case Some(version) => Ok(ClusterGroupConfig(groups, version))
    else if lines == [] then Err(MissingGroup)
    else
      match ReadGroup(lines[0])
      case Err(e) => Err(e)
      case Ok(group) => ReadGroups(lines[1..], count - 1, groups[group.0 := group.1])
  }

  function Parse(text: string): Result<ClusterGroupConfig, ParseError> {
    var lines := Lines(text);
    if lines == [] then Err(EmptyConfiguration)
    else
      match ParseUnsigned(Trim(lines[0]), U64_MAX)
      case None => Err(BadGroupCount)
      case Some(count) => ReadGroups(lines[1..], count, map[])
  }

  /* ---------- the wire layout ---------- */

  function Flag(candidate: bool): string { if candidate then "1" else "0" }

  function NodeWords(node: NodeConfig): seq<string> {
    [Decimal(node.nodeId), node.host, Decimal(node.port + PORT_OFFSET), Flag(node.candidate)]
  }

  function NodesWords(nodes: seq<NodeConfig>): seq<string> {
    if nodes == [] then [] else NodeWords(nodes[0]) + NodesWords(nodes[1..])
  }

  function GroupWords(id: nat, nodes: seq<NodeConfig>): seq<string> { [Decimal(id)] + NodesWords(nodes) }

  function GroupLine(id: nat, nodes: seq<NodeConfig>): string { Join(GroupWords(id, nodes), " ") }

  function GroupLines(ids: seq<nat>, groups: map<nat, seq<NodeConfig>>): seq<string>
    requires forall id :: id in ids ==> id in groups
  {
    seq(|ids|, i requires 0 <= i < |ids| => assert ids[i] in ids; GroupLine(ids[i], groups[ids[i]]))
  }

  /** The number of groups, a line for each group, and the version. */
  function WireLines(ids: seq<nat>, config: ClusterGroupConfig): seq<string>
    requires forall id :: id in ids ==> id in config.groups
  {
    [Decimal(|ids|)] + GroupLines(ids, config.groups) + [Decimal(config.version)]
  }

  function Wire(ids: seq<nat>, config: ClusterGroupConfig): string
    requires forall id :: id in ids ==> id in config.groups
  {
    Join(WireLines(ids, config), "\n")
  }

  /** What a configuration of the source can hold; hosts are words. */
  ghost predicate NodeFits(node: NodeConfig) {
    node.nodeId <= U32_MAX && IsWord(node.host) && node.port <= U16_MAX
  }

  ghost predicate GroupFits(nodes: seq<NodeConfig>) { forall i :: 0 <= i < |nodes| ==> NodeFits(nodes[i]) }

  ghost predicate AllFit(groups: map<nat, seq<NodeConfig>>) {
    forall id :: id in groups ==> id <= U32_MAX && GroupFits(groups[id])
  }

  ghost predicate Fits(config: ClusterGroupConfig) { config.version <= U64_MAX && AllFit(config.groups) }

  /** The ports still fit in 16 bits with the offset added. */
  ghost predicate PortsFit(nodes: seq<NodeConfig>) {
    forall i :: 0 <= i < |nodes| ==> nodes[i].port + PORT_OFFSET <= U16_MAX
  }

  /** Each group once, in any order. */
  ghost predicate Enumerates(ids: seq<nat>, config: ClusterGroupConfig) {
    Distinct(ids) && forall id :: id in ids <==> id in config.groups
  }
}
