/** Which texts are cluster configurations, and what is missing in the others: the grammar that the parser
    reads, by positions of lines and words. */
module ClusterGrammar {
  import opened Wrappers
  import opened Text
  import opened TextLines
  import opened ClusterConfig

  /* ---------- accepted texts ---------- */

  /** The four words from `at` on: id, host, wire port and flag. The port is 10000 less, on 16 bits. */
  ghost predicate IsNodeAt(words: seq<string>, at: nat, node: NodeConfig) {
    && at + 4 <= |words|
    && ParseUnsigned(words[at], 0xFFFF_FFFF) == Some(node.nodeId) && words[at + 1] == node.host
    && ParseUnsigned(words[at + 2], 0xFFFF).Some?
    && node.port == PortOf(ParseUnsigned(words[at + 2], 0xFFFF).value)
    && ParseUnsigned(words[at + 3], 0xFF).Some?
    && (node.candidate <==> ParseUnsigned(words[at + 3], 0xFF) != Some(0))
  }

  function PortOf(raw: nat): nat { if raw >= 10000 then raw - 10000 else raw + 55536 }

  ghost predicate AreNodesFrom(words: seq<string>, at: nat, nodes: seq<NodeConfig>) {
    forall j :: 0 <= j < |nodes| ==> IsNodeAt(words, at + 4 * j, nodes[j])
  }

  /** A group id, and nothing behind it but the nodes. */
  ghost predicate IsGroup(line: string, id: nat, nodes: seq<NodeConfig>) {
    var words := Words(Trim(line));
    && |words| == 1 + 4 * |nodes| && ParseUnsigned(words[0], 0xFFFF_FFFF) == Some(id)
    && AreNodesFrom(words, 1, nodes)
  }

  type Group = (nat, seq<NodeConfig>)

  ghost predicate AreGroups(lines: seq<string>, read: seq<Group>) {
    |read| <= |lines| && forall i :: 0 <= i < |read| ==> IsGroup(lines[i], read[i].0, read[i].1)
  }

  /** The groups that were there before and the ones read; of several with one id the last counts. */
  ghost predicate LastCounts(before: map<nat, seq<NodeConfig>>, read: seq<Group>, groups: map<nat, seq<NodeConfig>>) {
    && (forall id :: id in groups <==> id in before || IsNamed(read, id))
    && (forall i :: 0 <= i < |read| && !IsNamed(read[i + 1..], read[i].0) ==>
          read[i].0 in groups && groups[read[i].0] == read[i].1)
    && (forall id :: id in before && !IsNamed(read, id) ==> id in groups && groups[id] == before[id])
  }

  ghost predicate IsNamed(read: seq<Group>, id: nat) { exists i :: 0 <= i < |read| && read[i].0 == id }

  ghost predicate IsVersion(line: string, version: nat) {
    ParseUnsigned(Trim(line), 0xFFFF_FFFF_FFFF_FFFF) == Some(version)
  }

  /** The number of groups, a line for each, and the version; lines behind it do not matter. */
  ghost predicate IsConfig(text: string, config: ClusterGroupConfig, read: seq<Group>) {
    var lines := Lines(text);
    && |lines| >= |read| + 2
    && ParseUnsigned(Trim(lines[0]), 0xFFFF_FFFF_FFFF_FFFF) == Some(|read|)
    && AreGroups(lines[1..], read) && IsVersion(lines[|read| + 1], config.version)
    && LastCounts(map[], read, config.groups)
  }

  lemma NodeIff(words: seq<string>, node: NodeConfig)
    requires words != []
    ensures ReadNode(words) == Ok(node) <==> IsNodeAt(words, 0, node)
  {
  }

  lemma NodeShift(words: seq<string>, k: nat, at: nat, node: NodeConfig)
    requires k <= |words|
    ensures IsNodeAt(words[k..], at, node) <==> IsNodeAt(words, at + k, node)
  {
  }

  lemma NodesShift(words: seq<string>, k: nat, nodes: seq<NodeConfig>)
    requires k <= |words|
    ensures AreNodesFrom(words[k..], 0, nodes) <==> AreNodesFrom(words, k, nodes)
  {
    forall j | 0 <= j < |nodes|
      ensures IsNodeAt(words[k..], 0 + 4 * j, nodes[j]) <==> IsNodeAt(words, k + 4 * j, nodes[j])
    {
      NodeShift(words, k, 4 * j, nodes[j]);
    }
  }

  lemma NodesTail(words: seq<string>, nodes: seq<NodeConfig>)
    requires nodes != [] && AreNodesFrom(words, 0, nodes)
    ensures IsNodeAt(words, 0, nodes[0]) && AreNodesFrom(words, 4, nodes[1..])
  {
    assert IsNodeAt(words, 0 + 4 * 0, nodes[0]);
    forall j | 0 <= j < |nodes[1..]| ensures IsNodeAt(words, 4 + 4 * j, nodes[1..][j]) {
      assert IsNodeAt(words, 0 + 4 * (j + 1), nodes[j + 1]);
    }
  }

  lemma NodesHead(words: seq<string>, nodes: seq<NodeConfig>)
    requires nodes != [] && IsNodeAt(words, 0, nodes[0]) && AreNodesFrom(words, 4, nodes[1..])
    ensures AreNodesFrom(words, 0, nodes)
  {
    forall j | 0 <= j < |nodes| ensures IsNodeAt(words, 0 + 4 * j, nodes[j]) {
      if j > 0 { assert IsNodeAt(words, 4 + 4 * (j - 1), nodes[1..][j - 1]); }
    }
  }

  lemma NodesCons(words: seq<string>, nodes: seq<NodeConfig>)
    requires nodes != []
    ensures AreNodesFrom(words, 0, nodes) <==> IsNodeAt(words, 0, nodes[0]) && AreNodesFrom(words, 4, nodes[1..])
  {
    if AreNodesFrom(words, 0, nodes) {
      NodesTail(words, nodes);
    } else if IsNodeAt(words, 0, nodes[0]) && AreNodesFrom(words, 4, nodes[1..]) {
      NodesHead(words, nodes);
    }
  }

  ghost predicate AreNodes(words: seq<string>, nodes: seq<NodeConfig>) {
    |words| == 4 * |nodes| && AreNodesFrom(words, 0, nodes)
  }

  /** The same, quadruple by quadruple. */
  ghost predicate AreRead(words: seq<string>, nodes: seq<NodeConfig>)
    decreases |nodes|
  {
    if nodes == [] then words == []
    else |words| >= 4 && ReadNode(words) == Ok(nodes[0]) && AreRead(words[4..], nodes[1..])
  }

  lemma {:induction false} AreReadIff(words: seq<string>, nodes: seq<NodeConfig>)
    ensures AreRead(words, nodes) <==> AreNodes(words, nodes)
    decreases |nodes|
  {
    if nodes != [] && |words| >= 4 {
      AreReadIff(words[4..], nodes[1..]);
      NodeIff(words, nodes[0]);
      NodesShift(words, 4, nodes[1..]);
      NodesCons(words, nodes);
    }
  }

  lemma {:induction false} NodesIff(words: seq<string>, nodes: seq<NodeConfig>)
    ensures ReadNodes(words) == Ok(nodes) <==> AreRead(words, nodes)
    decreases |words|
  {
    if words != [] && ReadNode(words).Ok? {
      var rest := ReadNodes(words[4..]);
      if rest.Ok? {
        NodesIff(words[4..], rest.value);
        assert ([ReadNode(words).value] + rest.value)[1..] == rest.value;
      }
      if nodes != [] {
        NodesIff(words[4..], nodes[1..]);
        assert nodes == [nodes[0]] + nodes[1..];
      }
    }
  }

  /** A line is accepted exactly when it is a group. */
  lemma GroupIff(line: string, id: nat, nodes: seq<NodeConfig>)
    ensures ReadGroup(line) == Ok((id, nodes)) <==> IsGroup(line, id, nodes)
  {
    var words := Words(Trim(line));
    if words != [] {
      NodesShift(words, 1, nodes);
      NodesIff(words[1..], nodes);
      AreReadIff(words[1..], nodes);
    }
  }

  /* ---------- all lines ---------- */

  lemma NamedCons(read: seq<Group>, id: nat)
    requires read != []
    ensures IsNamed(read, id) <==> read[0].0 == id || IsNamed(read[1..], id)
  {
    if i :| 0 <= i < |read| && read[i].0 == id { if i > 0 { assert read[1..][i - 1].0 == id; } }
    if i :| 0 <= i < |read[1..]| && read[1..][i].0 == id { assert read[i + 1].0 == id; }
  }

  lemma LastCountsTail(before: map<nat, seq<NodeConfig>>, read: seq<Group>, groups: map<nat, seq<NodeConfig>>)
    requires read != [] && LastCounts(before, read, groups)
    ensures LastCounts(before[read[0].0 := read[0].1], read[1..], groups)
  {
    var first, rest := read[0], read[1..];
    forall id ensures IsNamed(read, id) <==> first.0 == id || IsNamed(rest, id) { NamedCons(read, id); }
    assert forall i :: 0 <= i < |rest| ==> rest[i] == read[i + 1] && rest[i + 1..] == read[i + 2..];
    assert !IsNamed(rest, first.0) ==> groups[first.0] == first.1 by { assert read[0 + 1..] == rest; }
  }

  lemma LastCountsHead(before: map<nat, seq<NodeConfig>>, read: seq<Group>, groups: map<nat, seq<NodeConfig>>)
    requires read != [] && LastCounts(before[read[0].0 := read[0].1], read[1..], groups)
    ensures LastCounts(before, read, groups)
  {
    var first, rest := read[0], read[1..];
    forall id ensures IsNamed(read, id) <==> first.0 == id || IsNamed(rest, id) { NamedCons(read, id); }
    forall i | 0 <= i < |read| && !IsNamed(read[i + 1..], read[i].0)
      ensures read[i].0 in groups && groups[read[i].0] == read[i].1
    {
      if i > 0 { assert read[i] == rest[i - 1] && read[i + 1..] == rest[i..]; }
    }
  }

  /** The first group read is put over the groups before it. */
  lemma LastCountsCons(before: map<nat, seq<NodeConfig>>, read: seq<Group>, groups: map<nat, seq<NodeConfig>>)
    requires read != []
    ensures LastCounts(before, read, groups) <==> LastCounts(before[read[0].0 := read[0].1], read[1..], groups)
  {
    if LastCounts(before, read, groups) {
      LastCountsTail(before, read, groups);
    } else if LastCounts(before[read[0].0 := read[0].1], read[1..], groups) {
      LastCountsHead(before, read, groups);
    }
  }

  /** The groups read, put one after the other over those before them. */
  function PutAll(before: map<nat, seq<NodeConfig>>, read: seq<Group>): map<nat, seq<NodeConfig>>
    decreases |read|
  {
    if read == [] then before else PutAll(before[read[0].0 := read[0].1], read[1..])
  }

  lemma {:induction false} PutAllIff(before: map<nat, seq<NodeConfig>>, read: seq<Group>,
                                     groups: map<nat, seq<NodeConfig>>)
    ensures groups == PutAll(before, read) <==> LastCounts(before, read, groups)
    decreases |read|
  {
    if read != [] {
      PutAllIff(before[read[0].0 := read[0].1], read[1..], groups);
      LastCountsCons(before, read, groups);
    }
  }

  ghost predicate AllRead(lines: seq<string>, read: seq<Group>) {
    |read| <= |lines| && forall i :: 0 <= i < |read| ==> ReadGroup(lines[i]) == Ok(read[i])
  }

  lemma AllReadIff(lines: seq<string>, read: seq<Group>)
    ensures AllRead(lines, read) <==> AreGroups(lines, read)
  {
    forall i | 0 <= i < |read| && i < |lines|
      ensures ReadGroup(lines[i]) == Ok(read[i]) <==> IsGroup(lines[i], read[i].0, read[i].1)
    {
      GroupIff(lines[i], read[i].0, read[i].1);
    }
  }

  lemma AllReadCons(lines: seq<string>, group: Group, rest: seq<Group>)
    requires lines != [] && ReadGroup(lines[0]) == Ok(group) && AllRead(lines[1..], rest)
    ensures AllRead(lines, [group] + rest)
  {
  }

  lemma AllReadTail(lines: seq<string>, read: seq<Group>)
    requires read != [] && AllRead(lines, read)
    ensures ReadGroup(lines[0]) == Ok(read[0]) && AllRead(lines[1..], read[1..])
  {
  }

  lemma {:induction false} GroupsRead(lines: seq<string>, count: nat, before: map<nat, seq<NodeConfig>>)
    returns (read: seq<Group>)
    requires ReadGroups(lines, count, before).Ok?
    ensures |read| == count && AllRead(lines, read)
    decreases count
  {
    read := [];
    if count > 0 {
      var group := ReadGroup(lines[0]).value;
      var rest := GroupsRead(lines[1..], count - 1, before[group.0 := group.1]);
      AllReadCons(lines, group, rest);
      read := [group] + rest;
    }
  }

  /** Behind the groups read, the version is read over what they make up. */
  lemma {:induction false} GroupsArePut(lines: seq<string>, read: seq<Group>, before: map<nat, seq<NodeConfig>>)
    requires AllRead(lines, read)
    ensures ReadGroups(lines, |read|, before) == ReadGroups(lines[|read|..], 0, PutAll(before, read))
    decreases |read|
  {
    if read == [] {
      assert lines[0..] == lines;
    } else {
      AllReadTail(lines, read);
      GroupsArePut(lines[1..], read[1..], before[read[0].0 := read[0].1]);
      NextGroupIsPut(lines, before, read[0], read, read[1..]);
    }
  }

  lemma NextGroupIsPut(lines: seq<string>, before: map<nat, seq<NodeConfig>>, group: Group, read: seq<Group>,
                       rest: seq<Group>)
    requires read != [] && read[0] == group && read[1..] == rest && |read| <= |lines|
    requires ReadGroup(lines[0]) == Ok(group)
    requires var next := before[group.0 := group.1];
             ReadGroups(lines[1..], |rest|, next) == ReadGroups(lines[1..][|rest|..], 0, PutAll(next, rest))
    ensures ReadGroups(lines, |read|, before) == ReadGroups(lines[|read|..], 0, PutAll(before, read))
  {
    assert lines[1..][|rest|..] == lines[|read|..];
  }

  lemma LastLine(lines: seq<string>, groups: map<nat, seq<NodeConfig>>, config: ClusterGroupConfig)
    ensures ReadGroups(lines, 0, groups) == Ok(config) <==>
              lines != [] && IsVersion(lines[0], config.version) && config.groups == groups
  {
  }

  lemma BodyIff(lines: seq<string>, read: seq<Group>, config: ClusterGroupConfig)
    requires AllRead(lines, read)
    ensures ReadGroups(lines, |read|, map[]) == Ok(config) <==>
              |read| < |lines| && IsVersion(lines[|read|], config.version) && LastCounts(map[], read, config.groups)
  {
    GroupsArePut(lines, read, map[]);
    LastLine(lines[|read|..], PutAll(map[], read), config);
    PutAllIff(map[], read, config.groups);
  }

  /** A text is parsed into a configuration exactly when it is one, by lines and words. */
  lemma AcceptedIff(text: string, config: ClusterGroupConfig)
    ensures Parse(text) == Ok(config) <==> exists read: seq<Group> :: IsConfig(text, config, read)
  {
    var lines := Lines(text);
    if Parse(text) == Ok(config) {
      var read := GroupsRead(lines[1..], ParseUnsigned(Trim(lines[0]), U64_MAX).value, map[]);
      AllReadIff(lines[1..], read);
      BodyIff(lines[1..], read, config);
      assert IsConfig(text, config, read);
    }
    if read: seq<Group> :| IsConfig(text, config, read) {
      AllReadIff(lines[1..], read);
      BodyIff(lines[1..], read, config);
    }
  }

  /* ---------- refused texts ---------- */

  /** What is wrong with the node whose words begin at `at`: the id is read first, then the words are asked
      for one by one, and then the port and the flag are read. */
  ghost predicate IsNodeError(words: seq<string>, at: nat, error: ParseError) {
    && at < |words|
    && match ParseUnsigned(words[at], 0xFFFF_FFFF)
       case None => error == BadNodeId
       case Some(id) =>
         if |words| == at + 1 then error == MissingHost(id)
         else if |words| == at + 2 then error == MissingPort(id)
         else if |words| == at + 3 then error == MissingFlag(id)
         else if ParseUnsigned(words[at + 2], 0xFFFF).None? then error == BadPort
         else ParseUnsigned(words[at + 3], 0xFF).None? && error == BadFlag
  }

  ghost predicate IsGroupError(line: string, nodes: seq<NodeConfig>, error: ParseError) {
    var words := Words(Trim(line));
    if words == [] then error == MissingGroupId
    else if ParseUnsigned(words[0], 0xFFFF_FFFF).None? then error == BadGroupId
    else AreNodesFrom(words, 1, nodes) && IsNodeError(words, 1 + 4 * |nodes|, error)
  }

  /** The first line behind the groups read that is missing or wrong. */
  ghost predicate IsLineError(lines: seq<string>, count: nat, read: seq<Group>, nodes: seq<NodeConfig>,
                              error: ParseError)
  {
    AreGroups(lines, read) && NextIsWrong(lines, count, read, nodes, error)
  }

  ghost predicate NextIsWrong(lines: seq<string>, count: nat, read: seq<Group>, nodes: seq<NodeConfig>,
                              error: ParseError)
  {
    && |read| <= count && |read| <= |lines|
    && if |lines| == |read| then error == if |read| == count then MissingVersion else MissingGroup
       else if |read| == count then
         ParseUnsigned(Trim(lines[count]), 0xFFFF_FFFF_FFFF_FFFF).None? && error == BadVersion
       else IsGroupError(lines[|read|], nodes, error)
  }

  lemma NodeErrorShift(words: seq<string>, k: nat, at: nat, error: ParseError)
    requires k <= |words|
    ensures IsNodeError(words[k..], at, error) <==> IsNodeError(words, at + k, error)
  {
  }

  ghost predicate StopsAt(words: seq<string>, nodes: seq<NodeConfig>, error: ParseError) {
    AreNodesFrom(words, 0, nodes) && IsNodeError(words, 4 * |nodes|, error)
  }

  lemma StopsCons(words: seq<string>, node: NodeConfig, rest: seq<NodeConfig>, error: ParseError)
    requires |words| >= 4 && IsNodeAt(words, 0, node) && StopsAt(words[4..], rest, error)
    ensures StopsAt(words, [node] + rest, error)
  {
    assert ([node] + rest)[1..] == rest;
    NodesShift(words, 4, rest);
    NodesCons(words, [node] + rest);
    NodeErrorShift(words, 4, 4 * |rest|, error);
  }

  lemma {:induction false} NodesRefused(words: seq<string>) returns (nodes: seq<NodeConfig>)
    requires ReadNodes(words).Err?
    ensures StopsAt(words, nodes, ReadNodes(words).error)
    decreases |words|
  {
    if ReadNode(words).Err? {
      nodes := [];
    } else {
      var node := ReadNode(words).value;
      var rest := NodesRefused(words[4..]);
      NodeIff(words, node);
      StopsCons(words, node, rest, ReadNodes(words).error);
      nodes := [node] + rest;
    }
  }

  lemma GroupRefused(line: string) returns (nodes: seq<NodeConfig>)
    requires ReadGroup(line).Err?
    ensures IsGroupError(line, nodes, ReadGroup(line).error)
  {
    var words := Words(Trim(line));
    nodes := [];
    if words != [] && ParseUnsigned(words[0], U32_MAX).Some? {
      nodes := NodesRefused(words[1..]);
      NodesShift(words, 1, nodes);
      NodeErrorShift(words, 1, 4 * |nodes|, ReadGroup(line).error);
    }
  }

  lemma LineErrorCons(lines: seq<string>, count: nat, group: Group, read: seq<Group>, nodes: seq<NodeConfig>,
                      error: ParseError)
    requires lines != [] && count > 0 && ReadGroup(lines[0]) == Ok(group)
    requires AllRead(lines[1..], read) && NextIsWrong(lines[1..], count - 1, read, nodes, error)
    ensures AllRead(lines, [group] + read) && NextIsWrong(lines, count, [group] + read, nodes, error)
  {
    AllReadCons(lines, group, read);
    assert |lines| > |read| + 1 ==> lines[1..][|read|] == lines[|read| + 1];
  }

  lemma {:induction false} LinesRefused(lines: seq<string>, count: nat, before: map<nat, seq<NodeConfig>>)
    returns (read: seq<Group>, nodes: seq<NodeConfig>)
    requires ReadGroups(lines, count, before).Err?
    ensures AllRead(lines, read) && NextIsWrong(lines, count, read, nodes, ReadGroups(lines, count, before).error)
    decreases count
  {
    read, nodes := [], [];
    if count > 0 && lines != [] {
      match ReadGroup(lines[0])
      case Err(_) =>
        nodes := GroupRefused(lines[0]);
      case Ok(group) =>
        read, nodes := LinesRefused(lines[1..], count - 1, before[group.0 := group.1]);
        LineErrorCons(lines, count, group, read, nodes, ReadGroups(lines, count, before).error);
        read := [group] + read;
    }
  }

  /** A text that is refused is reported with the first thing that is missing or wrong in it. */
  lemma RefusedAt(text: string) returns (read: seq<Group>, nodes: seq<NodeConfig>)
    requires Parse(text).Err?
    ensures var lines, error := Lines(text), Parse(text).error;
            if lines == [] then error == EmptyConfiguration
            else
              match ParseUnsigned(Trim(lines[0]), 0xFFFF_FFFF_FFFF_FFFF)
              case None => error == BadGroupCount
              case Some(count) => IsLineError(lines[1..], count, read, nodes, error)
  {
    var lines := Lines(text);
    read, nodes := [], [];
    if lines != [] && ParseUnsigned(Trim(lines[0]), U64_MAX).Some? {
      read, nodes := LinesRefused(lines[1..], ParseUnsigned(Trim(lines[0]), U64_MAX).value, map[]);
      AllReadIff(lines[1..], read);
    }
  }
}
