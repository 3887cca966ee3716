/** The parser undoes the wire layout. */
module ClusterWire {
  import opened Wrappers
  import opened Text
  import opened TextLines
  import opened ClusterConfig

  /* ---------- one group line ---------- */

  lemma {:induction false} NodesWordsAreWords(nodes: seq<NodeConfig>)
    requires GroupFits(nodes)
    ensures AreWords(NodesWords(nodes))
  {
    if nodes != [] {
      NodesWordsAreWords(nodes[1..]);
      NodeWordsAreWords(nodes[0]);
    }
  }

  lemma NodeWordsAreWords(node: NodeConfig)
    requires NodeFits(node)
    ensures AreWords(NodeWords(node))
  {
    DecimalIsWord(node.nodeId);
    DecimalIsWord(node.port + PORT_OFFSET);
    DecimalIsWord(1);
    DecimalIsWord(0);
    assert Decimal(1) == "1" && Decimal(0) == "0";
  }

  lemma GroupWordsAreWords(id: nat, nodes: seq<NodeConfig>)
    requires GroupFits(nodes)
    ensures AreWords(GroupWords(id, nodes))
  {
    NodesWordsAreWords(nodes);
    DecimalIsWord(id);
  }

  lemma ReadNodeWords(node: NodeConfig, rest: seq<string>)
    requires NodeFits(node)
    ensures ReadNode(NodeWords(node) + rest) == if node.port + PORT_OFFSET <= U16_MAX then Ok(node) else Err(BadPort)
  {
    var words := NodeWords(node) + rest;
    assert words[0] == Decimal(node.nodeId) && words[1] == node.host;
    assert words[2] == Decimal(node.port + PORT_OFFSET) && words[3] == Flag(node.candidate);
    ParseDecimal(node.nodeId, U32_MAX);
    ParseDecimal(node.port + PORT_OFFSET, U16_MAX);
    ParseDecimal(1, U8_MAX);
    ParseDecimal(0, U8_MAX);
    assert Decimal(1) == "1" && Decimal(0) == "0";
  }

  lemma {:induction false} ReadNodesWords(nodes: seq<NodeConfig>)
    requires GroupFits(nodes)
    ensures ReadNodes(NodesWords(nodes)) == if PortsFit(nodes) then Ok(nodes) else Err(BadPort)
  {
    if nodes != [] {
      var words := NodesWords(nodes);
      ReadNodeWords(nodes[0], NodesWords(nodes[1..]));
      assert words[4..] == NodesWords(nodes[1..]);
      ReadNodesWords(nodes[1..]);
      assert nodes == [nodes[0]] + nodes[1..];
      PortsFitCons(nodes);
    }
  }

  lemma PortsFitCons(nodes: seq<NodeConfig>)
    requires nodes != []
    ensures PortsFit(nodes) <==> nodes[0].port + PORT_OFFSET <= U16_MAX && PortsFit(nodes[1..])
  {
    if PortsFit(nodes[1..]) && nodes[0].port + PORT_OFFSET <= U16_MAX {
      forall i | 0 <= i < |nodes| ensures nodes[i].port + PORT_OFFSET <= U16_MAX {
        if i > 0 { assert nodes[i] == nodes[1..][i - 1]; }
      }
    }
  }

  lemma ReadGroupLine(id: nat, nodes: seq<NodeConfig>)
    requires id <= U32_MAX && GroupFits(nodes)
    ensures ReadGroup(GroupLine(id, nodes)) == if PortsFit(nodes) then Ok((id, nodes)) else Err(BadPort)
  {
    var words := GroupWords(id, nodes);
    GroupWordsAreWords(id, nodes);
    JoinIsTight(words);
    TightTrim(GroupLine(id, nodes));
    WordsJoin(words);
    ParseDecimal(id, U32_MAX);
    assert words[1..] == NodesWords(nodes);
    ReadNodesWords(nodes);
  }

  /* ---------- all lines ---------- */

  ghost predicate AllPortsFit(ids: seq<nat>, groups: map<nat, seq<NodeConfig>>)
    requires forall id :: id in ids ==> id in groups
  {
    forall i :: 0 <= i < |ids| ==> PortsFit(groups[ids[i]])
  }

  /** The groups named by the ids, put over the groups read before. */
  function Put(acc: map<nat, seq<NodeConfig>>, ids: seq<nat>,
               groups: map<nat, seq<NodeConfig>>): map<nat, seq<NodeConfig>>
    requires forall id :: id in ids ==> id in groups
    decreases |ids|
  {
    if ids == [] then acc
    else
      assert ids[0] in ids && forall id :: id in ids[1..] ==> id in ids;
      Put(acc[ids[0] := groups[ids[0]]], ids[1..], groups)
  }

  lemma {:induction false} PutAll(acc: map<nat, seq<NodeConfig>>, ids: seq<nat>, groups: map<nat, seq<NodeConfig>>)
    requires forall id :: id in ids ==> id in groups
    ensures forall id :: id in Put(acc, ids, groups) <==> id in ids || id in acc
    ensures forall id :: id in ids ==> Put(acc, ids, groups)[id] == groups[id]
    ensures forall id :: id in acc && id !in ids ==> Put(acc, ids, groups)[id] == acc[id]
    decreases |ids|
  {
    if ids != [] {
      assert ids == [ids[0]] + ids[1..];
      assert forall id :: id in ids[1..] ==> id in ids;
      PutAll(acc[ids[0] := groups[ids[0]]], ids[1..], groups);
    }
  }

  ghost predicate GroupsFit(ids: seq<nat>, groups: map<nat, seq<NodeConfig>>) {
    forall i :: 0 <= i < |ids| ==> ids[i] <= U32_MAX && ids[i] in groups && GroupFits(groups[ids[i]])
  }

  lemma DecimalLine(n: nat)
    ensures IsTight(Decimal(n)) && FreeOf(Decimal(n), {'\n'})
  {
    DecimalIsWord(n);
    WordIsTight(Decimal(n));
    assert IsWhitespace('\n');
  }

  lemma CountLine(n: nat)
    requires n <= U64_MAX
    ensures ParseUnsigned(Trim(Decimal(n)), U64_MAX) == Some(n)
  {
    DecimalLine(n);
    TightTrim(Decimal(n));
    ParseDecimal(n, U64_MAX);
  }

  lemma ReadVersion(version: nat, acc: map<nat, seq<NodeConfig>>)
    requires version <= U64_MAX
    ensures ReadGroups([Decimal(version)], 0, acc) == Ok(ClusterGroupConfig(acc, version))
  {
    CountLine(version);
  }

  lemma ReadOne(line: string, rest: seq<string>, count: nat, acc: map<nat, seq<NodeConfig>>)
    ensures ReadGroups([line] + rest, count + 1, acc) ==
              match ReadGroup(line)
              case Err(e) => Err(e)
              case Ok(group) => ReadGroups(rest, count, acc[group.0 := group.1])
  {
    assert ([line] + rest)[1..] == rest;
  }

  /** What the group lines and the version line are read as. */
  ghost function WireResult(ids: seq<nat>, groups: map<nat, seq<NodeConfig>>, version: nat,
                            acc: map<nat, seq<NodeConfig>>):
    Result<ClusterGroupConfig, ParseError>
    requires forall id :: id in ids ==> id in groups
  {
    if AllPortsFit(ids, groups) then Ok(ClusterGroupConfig(Put(acc, ids, groups), version)) else Err(BadPort)
  }

  lemma {:induction false} ReadWireLines(ids: seq<nat>, groups: map<nat, seq<NodeConfig>>, version: nat,
                                         acc: map<nat, seq<NodeConfig>>)
    requires (forall id :: id in ids ==> id in groups) && GroupsFit(ids, groups) && version <= U64_MAX
    ensures ReadGroups(GroupLines(ids, groups) + [Decimal(version)], |ids|, acc)
         == WireResult(ids, groups, version, acc)
    decreases |ids|
  {
    if ids == [] {
      assert GroupLines(ids, groups) + [Decimal(version)] == [Decimal(version)];
      ReadVersion(version, acc);
    } else {
      assert ids[0] in ids && forall id :: id in ids[1..] ==> id in ids;
      var line, rest := GroupLine(ids[0], groups[ids[0]]), GroupLines(ids[1..], groups) + [Decimal(version)];
      assert GroupLines(ids, groups) + [Decimal(version)] == [line] + rest;
      ReadGroupLine(ids[0], groups[ids[0]]);
      ReadOne(line, rest, |ids| - 1, acc);
      GroupsFitTail(ids, groups);
      ReadWireLines(ids[1..], groups, version, acc[ids[0] := groups[ids[0]]]);
      AllPortsFitCons(ids, groups);
    }
  }

  lemma GroupsFitTail(ids: seq<nat>, groups: map<nat, seq<NodeConfig>>)
    requires ids != [] && GroupsFit(ids, groups)
    ensures GroupsFit(ids[1..], groups)
  {
  }

  lemma AllPortsFitCons(ids: seq<nat>, groups: map<nat, seq<NodeConfig>>)
    requires ids != [] && (forall id :: id in ids ==> id in groups) && forall id :: id in ids[1..] ==> id in groups
    ensures ids[0] in groups
    ensures AllPortsFit(ids, groups) <==> PortsFit(groups[ids[0]]) && AllPortsFit(ids[1..], groups)
  {
    assert ids[0] in ids;
    if PortsFit(groups[ids[0]]) && AllPortsFit(ids[1..], groups) {
      forall i | 0 <= i < |ids| ensures PortsFit(groups[ids[i]]) {
        if i > 0 { assert ids[i] == ids[1..][i - 1]; }
      }
    }
    if AllPortsFit(ids, groups) {
      forall i | 0 <= i < |ids[1..]| ensures PortsFit(groups[ids[1..][i]]) { assert ids[1..][i] == ids[i + 1]; }
    }
  }

  lemma WireLinesAreTight(ids: seq<nat>, config: ClusterGroupConfig)
    requires (forall id :: id in ids ==> id in config.groups) && GroupsFit(ids, config.groups)
    ensures forall l :: l in WireLines(ids, config) ==> IsTight(l) && FreeOf(l, {'\n'})
  {
    DecimalLine(|ids|);
    DecimalLine(config.version);
    var lines := GroupLines(ids, config.groups);
    forall l | l in lines ensures IsTight(l) && FreeOf(l, {'\n'}) {
      var i :| 0 <= i < |lines| && lines[i] == l;
      assert ids[i] in ids;
      var words := GroupWords(ids[i], config.groups[ids[i]]);
      GroupWordsAreWords(ids[i], config.groups[ids[i]]);
      JoinIsTight(words);
      WordsHoldNoLineFeed(words);
    }
  }

  lemma ParseLines(text: string, lines: seq<string>, n: nat)
    requires Lines(text) == lines && lines != [] && ParseUnsigned(Trim(lines[0]), U64_MAX) == Some(n)
    ensures Parse(text) == ReadGroups(lines[1..], n, map[])
  {
  }

  lemma WireIsRead(ids: seq<nat>, config: ClusterGroupConfig)
    requires |ids| <= U64_MAX && (forall id :: id in ids ==> id in config.groups) && GroupsFit(ids, config.groups)
    ensures Parse(Wire(ids, config))
         == ReadGroups(GroupLines(ids, config.groups) + [Decimal(config.version)], |ids|, map[])
  {
    var lines, rest := WireLines(ids, config), GroupLines(ids, config.groups) + [Decimal(config.version)];
    assert lines == [Decimal(|ids|)] + rest;
    WireLinesAreTight(ids, config);
    LinesJoin(lines);
    CountLine(|ids|);
    ParseLines(Wire(ids, config), lines, |ids|);
    assert lines[1..] == rest;
  }

  lemma AllFitIds(ids: seq<nat>, config: ClusterGroupConfig)
    requires Enumerates(ids, config) && Fits(config)
    ensures GroupsFit(ids, config.groups)
  {
    forall i | 0 <= i < |ids| ensures ids[i] in config.groups { assert ids[i] in ids; }
  }

  lemma PutIsAll(ids: seq<nat>, config: ClusterGroupConfig)
    requires Enumerates(ids, config)
    ensures Put(map[], ids, config.groups) == config.groups
  {
    PutAll(map[], ids, config.groups);
  }

  /** Parsing the printed configuration, whatever the order of its groups, gives the configuration back
      exactly when every port fits in 16 bits with the offset added; otherwise the port is refused. */
  lemma ParserUndoesTheWire(ids: seq<nat>, config: ClusterGroupConfig)
    requires Enumerates(ids, config) && Fits(config) && |ids| <= U64_MAX
    ensures Parse(Wire(ids, config)) ==
              if forall id :: id in config.groups ==> PortsFit(config.groups[id]) then Ok(config) else Err(BadPort)
  {
    AllFitIds(ids, config);
    WireIsRead(ids, config);
    PutIsAll(ids, config);
    ReadWireLines(ids, config.groups, config.version, map[]);
    PortsFitEverywhere(ids, config);
  }

  lemma PortsFitEverywhere(ids: seq<nat>, config: ClusterGroupConfig)
    requires Enumerates(ids, config)
    ensures AllPortsFit(ids, config.groups) <==> forall id :: id in config.groups ==> PortsFit(config.groups[id])
  {
    if AllPortsFit(ids, config.groups) {
      forall id | id in config.groups ensures PortsFit(config.groups[id]) { var i :| 0 <= i < |ids| && ids[i] == id; }
    }
    if forall id :: id in config.groups ==> PortsFit(config.groups[id]) {
      forall i | 0 <= i < |ids| ensures PortsFit(config.groups[ids[i]]) { assert ids[i] in ids; }
    }
  }

  /** Below the offset the subtraction wraps: the port that is read is far above the one on the wire. */
  lemma SmallPortsWrap(raw: nat)
    requires raw <= U16_MAX
    ensures AdjustPort(raw) == if raw >= PORT_OFFSET then raw - PORT_OFFSET else raw + 55536
  {
  }

  /* ---------- what any accepted text gives ---------- */

  lemma {:induction false} ReadNodesFit(words: seq<string>)
    requires AreWords(words)
    ensures ReadNodes(words).Ok? ==> GroupFits(ReadNodes(words).value)
    decreases |words|
  {
    if words != [] && ReadNode(words).Ok? {
      assert words[1] in words && forall w :: w in words[4..] ==> w in words;
      ReadNodesFit(words[4..]);
    }
  }

  lemma ReadGroupFits(line: string)
    ensures ReadGroup(line).Ok? ==> ReadGroup(line).value.0 <= U32_MAX && GroupFits(ReadGroup(line).value.1)
  {
    var words := Words(Trim(line));
    WordsAreWords(Trim(line));
    if words != [] {
      assert forall w :: w in words[1..] ==> w in words;
      ReadNodesFit(words[1..]);
    }
  }

  lemma {:induction false} ReadGroupsFit(lines: seq<string>, count: nat, groups: map<nat, seq<NodeConfig>>)
    requires AllFit(groups)
    ensures ReadGroups(lines, count, groups).Ok? ==> Fits(ReadGroups(lines, count, groups).value)
    decreases count
  {
    if count > 0 && lines != [] && ReadGroup(lines[0]).Ok? {
      ReadGroupFits(lines[0]);
      var group := ReadGroup(lines[0]).value;
      AllFitPut(groups, group.0, group.1);
      ReadGroupsFit(lines[1..], count - 1, groups[group.0 := group.1]);
    }
  }

  lemma AllFitPut(groups: map<nat, seq<NodeConfig>>, id: nat, nodes: seq<NodeConfig>)
    requires AllFit(groups) && id <= U32_MAX && GroupFits(nodes)
    ensures AllFit(groups[id := nodes])
  {
  }

  /** Every accepted text gives ids, ports and a version in range, and hosts that are words. */
  lemma ParsedFits(text: string)
    ensures Parse(text).Ok? ==> Fits(Parse(text).value)
  {
    var lines := Lines(text);
    if lines != [] && ParseUnsigned(Trim(lines[0]), U64_MAX).Some? {
      ReadGroupsFit(lines[1..], ParseUnsigned(Trim(lines[0]), U64_MAX).value, map[]);
    }
  }
}
