/** `parse_cluster_config` as the program with a line index, a word cursor and a map it inserts into. */
module ClusterParser {
  import opened Wrappers
  import opened Text
  import opened TextLines
  import opened ClusterConfig

  /** The nodes read so far and those still to be read make up the group. */
  ghost predicate NodesSoFar(all: Result<seq<NodeConfig>, ParseError>, nodes: seq<NodeConfig>,
                             rest: Result<seq<NodeConfig>, ParseError>)
  {
    match rest
    case Ok(more) => all == Ok(nodes + more)
    case Err(e) => all == Err(e)
  }

  method ParseNode(parts: seq<string>, next: nat) returns (r: Result<NodeConfig, ParseError>)
    requires next < |parts|
    ensures r == ReadNode(parts[next..])
  {
    var nodeId := ParseUnsigned(parts[next], U32_MAX);
    if nodeId.None? { return Err(BadNodeId); }
    if next + 1 >= |parts| { return Err(MissingHost(nodeId.value)); }
    if next + 2 >= |parts| { return Err(MissingPort(nodeId.value)); }
    if next + 3 >= |parts| { return Err(MissingFlag(nodeId.value)); }
    var rawPort := ParseUnsigned(parts[next + 2], U16_MAX);
    if rawPort.None? { return Err(BadPort); }
    var port := AdjustPort(rawPort.value);
    var flag := ParseUnsigned(parts[next + 3], U8_MAX);
    if flag.None? { return Err(BadFlag); }
    r := Ok(NodeConfig(nodeId.value, parts[next + 1], port, flag.value != 0));
  }

  method ParseNodes(parts: seq<string>) returns (r: Result<seq<NodeConfig>, ParseError>)
    ensures r == ReadNodes(parts)
  {
    var nodes: seq<NodeConfig> := [];
    var next := 0;
    NothingRead(parts);
    while next < |parts|
      invariant 0 <= next <= |parts|
      invariant NodesSoFar(ReadNodes(parts), nodes, ReadNodes(parts[next..]))
    {
      ghost var rest := parts[next..];
      var node := ParseNode(parts, next);
      NextResult(ReadNodes(parts), nodes, rest, node);
      if node.Err? { return Err(node.error); }
      assert rest[4..] == parts[next + 4..];
      nodes, next := nodes + [node.value], next + 4;
    }
    assert nodes + [] == nodes;
    r := Ok(nodes);
  }

  lemma NextResult(all: Result<seq<NodeConfig>, ParseError>, nodes: seq<NodeConfig>, rest: seq<string>,
                   node: Result<NodeConfig, ParseError>)
    requires rest != [] && ReadNode(rest) == node && NodesSoFar(all, nodes, ReadNodes(rest))
    ensures match node
            case Err(e) => all == Err(e)
            case Ok(n) => NodesSoFar(all, nodes + [n], ReadNodes(rest[4..]))
  {
    if node.Ok? && ReadNodes(rest[4..]).Ok? {
      var more := ReadNodes(rest[4..]).value;
      assert nodes + ([node.value] + more) == (nodes + [node.value]) + more;
    }
  }

  lemma NothingRead(parts: seq<string>)
    ensures NodesSoFar(ReadNodes(parts), [], ReadNodes(parts[0..]))
  {
    assert parts[0..] == parts;
    match ReadNodes(parts)
    case Ok(more) => assert [] + more == more;
    case Err(_) =>
  }

  method ParseGroup(line: string) returns (r: Result<(nat, seq<NodeConfig>), ParseError>)
    ensures r == ReadGroup(line)
  {
    var parts := Words(Trim(line));
    if parts == [] { return Err(MissingGroupId); }
    var id := ParseUnsigned(parts[0], U32_MAX);
    if id.None? { return Err(BadGroupId); }
    var nodes := ParseNodes(parts[1..]);
    if nodes.Err? { return Err(nodes.error); }
    r := Ok((id.value, nodes.value));
  }

  method ParseVersion(lines: seq<string>, lineIdx: nat, groups: map<nat, seq<NodeConfig>>)
    returns (r: Result<ClusterGroupConfig, ParseError>)
    requires lineIdx <= |lines|
    ensures r == ReadGroups(lines[lineIdx..], 0, groups)
  {
    if lineIdx >= |lines| { return Err(MissingVersion); }
    var version := ParseUnsigned(Trim(lines[lineIdx]), U64_MAX);
    if version.None? { return Err(BadVersion); }
    r := Ok(ClusterGroupConfig(groups, version.value));
  }

  /** The result of the whole text is that of the rest, given the groups read so far. */
  ghost predicate Reading(all: Result<ClusterGroupConfig, ParseError>, rest: seq<string>, left: nat,
                          groups: map<nat, seq<NodeConfig>>)
  {
    all == ReadGroups(rest, left, groups)
  }

  lemma NextGroup(all: Result<ClusterGroupConfig, ParseError>, rest: seq<string>, left: nat,
                  groups: map<nat, seq<NodeConfig>>, group: Result<(nat, seq<NodeConfig>), ParseError>)
    requires left > 0 && rest != [] && ReadGroup(rest[0]) == group && Reading(all, rest, left, groups)
    ensures match group
            case Err(e) => all == Err(e)
            case Ok(g) => Reading(all, rest[1..], left - 1, groups[g.0 := g.1])
  {
  }

  method ParseGroups(lines: seq<string>, count: nat) returns (r: Result<ClusterGroupConfig, ParseError>)
    requires lines != []
    ensures r == ReadGroups(lines[1..], count, map[])
  {
    var lineIdx := 1;
    var groups: map<nat, seq<NodeConfig>> := map[];
    ghost var all, left := ReadGroups(lines[1..], count, map[]), count;
    for i := 0 to count
      invariant 1 <= lineIdx <= |lines| && left == count - i
      invariant Reading(all, lines[lineIdx..], left, groups)
    {
      ghost var rest := lines[lineIdx..];
      if lineIdx >= |lines| { return Err(MissingGroup); }
      var group := ParseGroup(lines[lineIdx]);
      NextGroup(all, rest, left, groups, group);
      if group.Err? { return Err(group.error); }
      assert rest[1..] == lines[lineIdx + 1..];
      lineIdx, left := lineIdx + 1, left - 1;
      groups := groups[group.value.0 := group.value.1];
    }
    r := ParseVersion(lines, lineIdx, groups);
  }

  method ParseClusterConfig(text: string) returns (r: Result<ClusterGroupConfig, ParseError>)
    ensures r == Parse(text)
  {
    var lines := Lines(text);
    if lines == [] { return Err(EmptyConfiguration); }
    var count := ParseUnsigned(Trim(lines[0]), U64_MAX);
    if count.None? { return Err(BadGroupCount); }
    r := ParseGroups(lines, count.value);
  }
}
