/** When a scaling update leaves a topology that validates. */
module TopologyTheorems {
  import opened Wrappers
  import opened Text
  import opened TextLines
  import opened ClusterConfig
  import opened ClusterWire
  import opened NodeLists
  import opened Topology

  /* ---------- tokens ---------- */

  lemma {:induction false} TokensAreChecked(field: Field, tokens: seq<string>)
    ensures CheckTokens(field, tokens).None? <==> forall t :: t in tokens ==> CheckToken(field, t).None?
  {
    if tokens != [] {
      TokensAreChecked(field, tokens[1..]);
      assert tokens == [tokens[0]] + tokens[1..];
    }
  }

  /** A token of an entry, and the tokens before it. */
  ghost predicate IsFirstBad(field: Field, entries: seq<string>, i: nat, k: nat, seps: set<char>) {
    && i < |entries| && k < |Split(entries[i], seps)|
    && CheckToken(field, Split(entries[i], seps)[k]).Some?
    && (forall l :: 0 <= l < k ==> CheckToken(field, Split(entries[i], seps)[l]).None?)
    && forall j, t :: 0 <= j < i && t in Split(entries[j], seps) ==> CheckToken(field, t).None?
  }

  lemma {:induction false} FirstBadToken(field: Field, tokens: seq<string>) returns (k: nat)
    requires CheckTokens(field, tokens).Some?
    ensures k < |tokens| && CheckTokens(field, tokens) == CheckToken(field, tokens[k])
    ensures forall l :: 0 <= l < k ==> CheckToken(field, tokens[l]).None?
  {
    if CheckToken(field, tokens[0]).Some? {
      k := 0;
    } else {
      k := FirstBadToken(field, tokens[1..]);
      k := k + 1;
    }
  }

  lemma {:induction false} FirstBadEntry(field: Field, entries: seq<string>, seps: set<char>) returns (i: nat, k: nat)
    requires seps == SeparatorsOf(field) && CheckEntries(field, entries).Some?
    ensures IsFirstBad(field, entries, i, k, seps)
    ensures CheckEntries(field, entries) == CheckToken(field, Split(entries[i], seps)[k])
  {
    var tokens := Split(entries[0], seps);
    if CheckTokens(field, tokens).Some? {
      i := 0;
      k := FirstBadToken(field, tokens);
    } else {
      var j;
      j, k := FirstBadEntry(field, entries[1..], seps);
      i := j + 1;
      TokensAreChecked(field, tokens);
      forall j, t | 0 <= j < i && t in Split(entries[j], seps) ensures CheckToken(field, t).None? {
        if j > 0 { assert entries[j] == entries[1..][j - 1]; }
      }
    }
  }

  /** Which separators a field accepts: transaction nodes are parted by commas only. */
  function FieldSeparators(field: Field): set<char> {
    match field
    case TxHostPorts => {','}
    case _ => {',', '|'}
  }

  /** A field must have entries, and the first token of the first entry that does not pass is reported. */
  lemma FirstBadIsReported(field: Field, entries: seq<string>)
    ensures match CheckField(field, entries)
            case None =>
              entries != [] && forall i, t :: 0 <= i < |entries| && t in Split(entries[i], FieldSeparators(field)) ==>
                CheckToken(field, t).None?
            case Some(error) =>
              || (entries == [] && error == EmptyField(field))
              || exists i: nat, k: nat :: IsFirstBad(field, entries, i, k, FieldSeparators(field))
                   && CheckToken(field, Split(entries[i], FieldSeparators(field))[k]) == Some(error)
  {
    assert SeparatorsOf(field) == FieldSeparators(field);
    if CheckEntries(field, entries).Some? {
      var i, k := FirstBadEntry(field, entries, FieldSeparators(field));
    } else {
      EntriesAreChecked(field, entries, FieldSeparators(field));
    }
  }

  lemma {:induction false} EntriesAreChecked(field: Field, entries: seq<string>, seps: set<char>)
    requires seps == SeparatorsOf(field) && CheckEntries(field, entries).None?
    ensures forall i, t :: 0 <= i < |entries| && t in Split(entries[i], seps) ==> CheckToken(field, t).None?
  {
    if entries != [] {
      TokensAreChecked(field, Split(entries[0], seps));
      EntriesAreChecked(field, entries[1..], seps);
      forall i, t | 0 <= i < |entries| && t in Split(entries[i], seps) ensures CheckToken(field, t).None? {
        if i > 0 { assert entries[i] == entries[1..][i - 1]; }
      }
    }
  }

  /** The fields are checked in order, and an optional one only if it is there. */
  lemma FirstFieldIsReported(layout: Layout)
    ensures match Check(layout)
            case None =>
              && CheckField(TxHostPorts, layout.tx).None?
              && (layout.standby.Some? ==> CheckField(StandbyHostPorts, layout.standby.value).None?)
              && (layout.voter.Some? ==> CheckField(VoterHostPorts, layout.voter.value).None?)
            case Some(error) =>
              if CheckField(TxHostPorts, layout.tx).Some? then CheckField(TxHostPorts, layout.tx) == Some(error)
              else if layout.standby.Some? && CheckField(StandbyHostPorts, layout.standby.value).Some?
              then CheckField(StandbyHostPorts, layout.standby.value) == Some(error)
              else layout.voter.Some? && CheckField(VoterHostPorts, layout.voter.value) == Some(error)
  {
  }

  lemma OneEntry(field: Field, text: string)
    ensures CheckField(field, [text]) == CheckTokens(field, Split(text, SeparatorsOf(field)))
  {
    assert [text][1..] == [] && CheckEntries(field, [text][1..]) == None;
  }

  lemma {:induction false} RSplitAt(a: string, c: char, b: string)
    requires FreeOf(b, {c})
    ensures RSplitOnce(a + [c] + b, c) == Some((a, b))
    decreases |b|
  {
    var s := a + [c] + b;
    var n := |s| - 1;
    if b == "" {
      assert s[..n] == a;
    } else {
      assert s[..n] == a + [c] + b[..|b| - 1] && s[n] == b[|b| - 1];
      RSplitAt(a, c, b[..|b| - 1]);
      assert b[..|b| - 1] + [s[n]] == b;
    }
  }

  lemma {:induction false} RSplitParts(s: string, c: char)
    ensures match RSplitOnce(s, c)
            case Some(parts) => s == parts.0 + [c] + parts.1 && FreeOf(parts.1, {c})
            case None => FreeOf(s, {c})
  {
    if s != "" && s[|s| - 1] != c {
      RSplitParts(s[..|s| - 1], c);
      assert s == s[..|s| - 1] + [s[|s| - 1]];
    }
  }

  /** A host that is not blank, a colon, and a 16-bit port without another colon. */
  ghost predicate IsHostPort(token: string) {
    exists host, port: string :: token == host + [':'] + port && FreeOf(port, {':'}) && Trim(host) != ""
                                 && ParseUnsigned(port, U16_MAX).Some?
  }

  /** A token passes exactly when it is blank or, without surrounding white space, host and port. */
  lemma TokenPassesIff(field: Field, raw: string)
    ensures CheckToken(field, raw).None? <==> Trim(raw) == "" || IsHostPort(Trim(raw))
  {
    var token := Trim(raw);
    RSplitParts(token, ':');
    if token != "" && IsHostPort(token) {
      var host, port: string :| token == host + [':'] + port && FreeOf(port, {':'}) && Trim(host) != ""
                                && ParseUnsigned(port, U16_MAX).Some?;
      RSplitAt(host, ':', port);
    }
    if token != "" && CheckToken(field, raw).None? {
      var parts := RSplitOnce(token, ':').value;
      assert token == parts.0 + [':'] + parts.1 && FreeOf(parts.1, {':'});
    }
  }

  /** A token without a colon is reported as such, unless it is blank. */
  lemma ColonIsMissed(field: Field, raw: string)
    ensures CheckToken(field, raw) == Some(NotHostPort(field, Trim(raw)))
       <==> Trim(raw) != "" && FreeOf(Trim(raw), {':'})
  {
    var token := Trim(raw);
    RSplitParts(token, ':');
    match RSplitOnce(token, ':')
    case Some(parts) => assert token[|parts.0|] == ':';
    case None =>
  }

  /** Otherwise what stands before the last colon is checked first, and then the port behind it. */
  lemma TokenErrorIs(field: Field, raw: string, host: string, port: string)
    requires Trim(raw) == host + [':'] + port && FreeOf(port, {':'})
    ensures CheckToken(field, raw) ==
              if Trim(host) == "" then Some(EmptyHost(field, Trim(raw)))
              else if ParseUnsigned(port, 0xFFFF).None? then Some(InvalidPort(field, Trim(raw)))
              else None
  {
    RSplitAt(host, ':', port);
  }

  lemma {:induction false} TrimStartLeft(a: string, b: string)
    requires TrimStart(a) != ""
    ensures TrimStart(a + b) == TrimStart(a) + b
  {
    if IsWhitespace(a[0]) {
      assert (a + b)[1..] == a[1..] + b;
      TrimStartLeft(a[1..], b);
    }
  }

  lemma DecimalHasNoColon(n: nat)
    ensures FreeOf(Decimal(n), {':'})
  {
    var s := Decimal(n);
    forall i | 0 <= i < |s| ensures s[i] !in {':'} { assert IsDigit(s[i]); }
  }

  /** An address with a host that is not blank and a 16-bit port passes the check. */
  lemma AddressPasses(field: Field, host: string, port: nat)
    requires Trim(host) != "" && port <= U16_MAX
    ensures CheckToken(field, HostPort(host, port)).None?
  {
    var start, digits := TrimStart(host), Decimal(port);
    assert HostPort(host, port) == host + (":" + digits);
    TrimStartLeft(host, ":" + digits);
    var token := start + [':'] + digits;
    assert start + (":" + digits) == token;
    assert IsDigit(token[|token| - 1]);
    assert Trim(HostPort(host, port)) == token;
    DecimalHasNoColon(port);
    RSplitAt(start, ':', digits);
    ParseDecimal(port, U16_MAX);
    TrimStartTwice(host);
  }

  lemma {:induction false} TrimStartTwice(s: string)
    ensures TrimStart(TrimStart(s)) == TrimStart(s)
  {
    if s != "" && IsWhitespace(s[0]) { TrimStartTwice(s[1..]); }
  }

  ghost predicate AllPass(field: Field, addrs: seq<string>) {
    forall a :: a in addrs ==> CheckToken(field, a).None?
  }

  /** A text whose non-empty tokens pass is a valid entry. */
  lemma EntryPasses(field: Field, text: string, addrs: seq<string>)
    requires NonEmpty(Split(text, SeparatorsOf(field))) == addrs && AllPass(field, addrs)
    ensures CheckField(field, [text]).None?
  {
    var tokens := Split(text, SeparatorsOf(field));
    FilterMembers(IsFilled, tokens);
    forall t | t in tokens ensures CheckToken(field, t).None? {
      if t != "" { assert t in addrs; }
    }
    TokensAreChecked(field, tokens);
    OneEntry(field, text);
  }

  /* ---------- the lists of a parsed configuration ---------- */

  lemma {:induction false} FlattenMember<T>(parts: seq<seq<T>>, x: T)
    ensures x in Flatten(parts) ==> exists i :: 0 <= i < |parts| && x in parts[i]
  {
    if parts != [] && x in Flatten(parts) && x !in parts[0] {
      FlattenMember(parts[1..], x);
      var i :| 0 <= i < |parts[1..]| && x in parts[1..][i];
      assert x in parts[i + 1];
    }
  }

  ghost predicate AddressesOf(addrs: seq<string>, nodes: seq<NodeConfig>) {
    forall a :: a in addrs ==> exists i :: 0 <= i < |nodes| && a == Address(nodes[i])
  }

  lemma AddressesOfSome(some: seq<NodeConfig>, nodes: seq<NodeConfig>)
    requires forall n :: n in some ==> n in nodes
    ensures AddressesOf(Addresses(some), nodes)
  {
    forall a | a in Addresses(some) ensures exists i :: 0 <= i < |nodes| && a == Address(nodes[i]) {
      var j :| 0 <= j < |some| && a == Address(some[j]);
      assert some[j] in nodes;
      var i :| 0 <= i < |nodes| && nodes[i] == some[j];
    }
  }

  lemma PartMembers(nodes: seq<NodeConfig>, role: Role)
    ensures AddressesOf(PartOf(role, nodes), nodes)
  {
    var candidates, others := WithFlag(nodes, true), WithFlag(nodes, false);
    FilterMembers(HasFlag(true), nodes);
    FilterMembers(HasFlag(false), nodes);
    AddressesOfSome(candidates, nodes);
    AddressesOfSome(others, nodes);
    UniqueFacts(Addresses(others));
    if candidates != [] {
      assert Addresses(candidates)[0] in Addresses(candidates);
      assert forall n :: n in candidates[1..] ==> n in candidates;
      AddressesOfSome(candidates[1..], nodes);
      UniqueFacts(Addresses(candidates[1..]));
    }
  }

  lemma GroupPasses(field: Field, nodes: seq<NodeConfig>, role: Role)
    requires GroupFits(nodes)
    ensures AllPass(field, PartOf(role, nodes))
  {
    PartMembers(nodes, role);
    forall a | a in PartOf(role, nodes) ensures CheckToken(field, a).None? {
      var i :| 0 <= i < |nodes| && a == Address(nodes[i]);
      var node := nodes[i];
      assert NodeFits(node);
      WordIsTight(node.host);
      TightTrim(node.host);
      AddressPasses(field, node.host, node.port);
    }
  }

  lemma PartsPass(field: Field, ids: seq<nat>, groups: map<nat, seq<NodeConfig>>, role: Role)
    requires (forall id :: id in ids ==> id in groups) && AllFit(groups)
    ensures AllPass(field, Flatten(Parts(ids, groups, role)))
  {
    var parts := Parts(ids, groups, role);
    forall a | a in Flatten(parts) ensures CheckToken(field, a).None? {
      FlattenMember(parts, a);
      var i :| 0 <= i < |parts| && a in parts[i];
      assert ids[i] in ids;
      GroupPasses(field, groups[ids[i]], role);
    }
  }

  lemma RolePasses(field: Field, ids: seq<nat>, config: ClusterGroupConfig, role: Role)
    requires field != TxHostPorts && Enumerates(ids, config) && AllFit(config.groups) && HostsAreFree(config.groups)
    ensures CheckField(field, [RoleText(ids, config.groups, role)]).None?
  {
    var text, sorted := RoleText(ids, config.groups, role), SortedIds(ids);
    ListsSurviveReading(ids, config, role);
    assert [text][1..] == [] && Tokens([text]) == NonEmpty(Split(text, SEPARATORS)) + Tokens([]);
    PartsPass(field, sorted, config.groups, role);
    EntryPasses(field, text, Flatten(Parts(sorted, config.groups, role)));
  }

  /** One member a group at most: the list of masters holds no `|`, only commas between addresses. */
  lemma {:induction false} SinglesAreFlat(parts: seq<seq<string>>)
    requires forall i :: 0 <= i < |parts| ==> |parts[i]| <= 1
    ensures GroupTexts(parts) == Flatten(parts)
  {
    if parts != [] {
      SinglesAreFlat(parts[1..]);
      if parts[0] != [] { assert parts[0] == [parts[0][0]] && Join(parts[0], "|") == parts[0][0]; }
    }
  }

  lemma CommaTokens(addrs: seq<string>)
    requires AddressesAreFree(addrs, {','})
    ensures NonEmpty(Split(Join(addrs, ","), {','})) == addrs
  {
    if addrs == [] {
      NothingSplit({','});
    } else {
      SplitJoinFree(addrs, ',', {','});
      FilterKeeps(IsFilled, addrs);
    }
  }

  lemma MastersAreFlat(ids: seq<nat>, config: ClusterGroupConfig)
    requires Enumerates(ids, config) && HostsAreFree(config.groups)
    ensures forall id :: id in SortedIds(ids) ==> id in config.groups
    ensures var addrs := Flatten(Parts(SortedIds(ids), config.groups, Master));
            RoleText(ids, config.groups, Master) == Join(addrs, ",") && AddressesAreFree(addrs, SEPARATORS)
  {
    IdsAscend(ids);
    var sorted := SortedIds(ids);
    var parts := Parts(sorted, config.groups, Master);
    SinglesAreFlat(parts);
    forall a | a in Flatten(parts) ensures a != "" && FreeOf(a, SEPARATORS) {
      FlattenMember(parts, a);
      var i :| 0 <= i < |parts| && a in parts[i];
      assert sorted[i] in sorted;
      GroupIsFree(config.groups, sorted[i]);
      PartsAreFree(config.groups[sorted[i]], Master);
    }
  }

  lemma CommaFree(addrs: seq<string>)
    requires AddressesAreFree(addrs, SEPARATORS)
    ensures AddressesAreFree(addrs, {','}) && AddressesAreFree(addrs, {'|'})
  {
    forall a, seps | a in addrs && (seps == {','} || seps == {'|'}) ensures FreeOf(a, seps) {
      assert forall i :: 0 <= i < |a| ==> a[i] !in SEPARATORS;
    }
  }

  /** The list of masters never holds the separator that its field does not accept. */
  lemma MastersHoldNoBar(ids: seq<nat>, config: ClusterGroupConfig)
    requires Enumerates(ids, config) && HostsAreFree(config.groups)
    ensures FreeOf(RoleText(ids, config.groups, Master), {'|'})
  {
    MastersAreFlat(ids, config);
    var addrs := Flatten(Parts(SortedIds(ids), config.groups, Master));
    CommaFree(addrs);
    JoinFree(addrs, ",", {'|'});
  }

  lemma MastersPass(ids: seq<nat>, config: ClusterGroupConfig)
    requires Enumerates(ids, config) && AllFit(config.groups) && HostsAreFree(config.groups)
    ensures CheckField(TxHostPorts, [RoleText(ids, config.groups, Master)]).None?
  {
    MastersAreFlat(ids, config);
    var addrs := Flatten(Parts(SortedIds(ids), config.groups, Master));
    CommaFree(addrs);
    CommaTokens(addrs);
    PartsPass(TxHostPorts, SortedIds(ids), config.groups, Master);
    EntryPasses(TxHostPorts, Join(addrs, ","), addrs);
  }

  /* ---------- the lists of the fallback ---------- */

  /** Addresses as the nodes report them: a host that is not blank, without separators, and a port. */
  ghost predicate AreAddresses(nodes: seq<NodeInfo>) {
    forall i :: 0 <= i < |nodes| ==>
      Trim(nodes[i].ip) != "" && FreeOf(nodes[i].ip, SEPARATORS) && nodes[i].port <= U16_MAX
  }

  lemma InfosAreFree(nodes: seq<NodeInfo>)
    requires AreAddresses(nodes)
    ensures AddressesAreFree(InfoAddresses(nodes), SEPARATORS)
  {
    forall a | a in InfoAddresses(nodes) ensures a != "" && FreeOf(a, SEPARATORS) {
      var i :| 0 <= i < |nodes| && a == HostPort(nodes[i].ip, nodes[i].port);
      HostPortFree(nodes[i].ip, nodes[i].port, SEPARATORS);
    }
  }

  lemma InfosPass(field: Field, nodes: seq<NodeInfo>)
    requires AreAddresses(nodes) && nodes != []
    ensures CheckField(field, [Join(InfoAddresses(nodes), ",")]).None?
  {
    var addrs := InfoAddresses(nodes);
    InfosAreFree(nodes);
    forall a | a in addrs ensures CheckToken(field, a).None? {
      var i :| 0 <= i < |nodes| && a == HostPort(nodes[i].ip, nodes[i].port);
      AddressPasses(field, nodes[i].ip, nodes[i].port);
    }
    if field == TxHostPorts {
      CommaFree(addrs);
      SplitJoinFree(addrs, ',', {','});
    } else {
      SplitJoinFree(addrs, ',', SEPARATORS);
    }
    FilterKeeps(IsFilled, addrs);
    EntryPasses(field, Join(addrs, ","), addrs);
  }

  /* ---------- the update ---------- */

  lemma CheckParts(layout: Layout)
    ensures IsValid(layout) <==>
              && CheckField(TxHostPorts, layout.tx).None?
              && CheckOptional(StandbyHostPorts, layout.standby).None?
              && CheckOptional(VoterHostPorts, layout.voter).None?
  {
  }

  lemma ReplacedIsValid(field: Field, before: Option<seq<string>>, text: string, op: ScaleOperation)
    requires CheckOptional(field, before).None? && CheckField(field, [text]).None?
    ensures CheckOptional(field, Replaced(before, text, op)).None? <==> !(op == RemoveNodes && text == "")
  {
  }

  ghost predicate SomeGroupFills(config: ClusterGroupConfig, role: Role) {
    exists id :: id in config.groups && Fills(role, config.groups[id])
  }

  lemma ListsKeepValidity(layout: Layout, config: ClusterGroupConfig, op: ScaleOperation)
    requires IsValid(layout) && AllFit(config.groups) && HostsAreFree(config.groups)
    ensures var lists := ListsOf(config);
            IsValid(FromLists(layout, lists, op))
            <==> op == AddNodes || (SomeGroupFills(config, Replica) && SomeGroupFills(config, Voter))
  {
    var lists, ids := ListsOf(config), AnyOrder(config.groups.Keys);
    ListIsFilledIff(ids, config, Replica);
    ListIsFilledIff(ids, config, Voter);
    MastersPass(ids, config);
    RolePasses(StandbyHostPorts, ids, config, Replica);
    RolePasses(VoterHostPorts, ids, config, Voter);
    ReplacedIsValid(StandbyHostPorts, layout.standby, lists.replicas, op);
    ReplacedIsValid(VoterHostPorts, layout.voter, lists.voters, op);
    CheckParts(layout);
    CheckParts(FromLists(layout, lists, op));
  }

  lemma NodesKeepValidity(layout: Layout, nodes: ClusterNodes, op: ScaleOperation)
    requires IsValid(layout) && AreAddresses(nodes.masters) && AreAddresses(nodes.replicas)
    ensures IsValid(FromNodes(layout, nodes, op)) <==> op == AddNodes || nodes.replicas != []
  {
    if nodes.masters != [] { InfosPass(TxHostPorts, nodes.masters); }
    if nodes.replicas != [] { InfosPass(StandbyHostPorts, nodes.replicas); }
    CheckParts(layout);
    CheckParts(FromNodes(layout, nodes, op));
  }

  /** The hosts that the update uses hold no separator. */
  ghost predicate UsableNodes(text: Option<string>, nodes: ClusterNodes) {
    match ReadConfig(text)
    case Some(config) => HostsAreFree(config.groups)
    case None => AreAddresses(nodes.masters) && AreAddresses(nodes.replicas)
  }

  /** Some group has a second candidate and some group a node that is no candidate; in the fallback,
      there is a replica. */
  ghost predicate FollowersRemain(text: Option<string>, nodes: ClusterNodes) {
    match ReadConfig(text)
    case Some(config) => SomeGroupFills(config, Replica) && SomeGroupFills(config, Voter)
    case None => nodes.replicas != []
  }

  /** From a valid topology, adding nodes always gives a valid one; removing nodes gives a valid one
      exactly when followers remain. */
  lemma ScalingValidity(layout: Layout, op: ScaleOperation, text: Option<string>, nodes: ClusterNodes)
    requires IsValid(layout) && UsableNodes(text, nodes)
    ensures IsValid(Updated(layout, op, text, nodes)) <==> op == AddNodes || FollowersRemain(text, nodes)
  {
    match ReadConfig(text)
    case Some(config) =>
      ParsedFits(text.value);
      ListsKeepValidity(layout, config, op);
    case None =>
      NodesKeepValidity(layout, nodes, op);
  }

  /** What the updated fields are read back as: the masters, and the replicas and voters that are there,
      in ascending order of group id. */
  lemma UpdateIsReadBack(layout: Layout, op: ScaleOperation, config: ClusterGroupConfig)
    requires HostsAreFree(config.groups)
    ensures var ids := AnyOrder(config.groups.Keys);
            && (forall id :: id in SortedIds(ids) ==> id in config.groups)
            && var lists, after := ListsOf(config), FromLists(layout, ListsOf(config), op);
               && (lists.masters != "" ==>
                     HostPortList(Some(after.tx)) == Flatten(Parts(SortedIds(ids), config.groups, Master)))
               && (lists.replicas != "" ==>
                     HostPortList(after.standby) == Flatten(Parts(SortedIds(ids), config.groups, Replica)))
               && (lists.voters != "" ==>
                     HostPortList(after.voter) == Flatten(Parts(SortedIds(ids), config.groups, Voter)))
  {
    var ids := AnyOrder(config.groups.Keys);
    ListsSurviveReading(ids, config, Master);
    ListsSurviveReading(ids, config, Replica);
    ListsSurviveReading(ids, config, Voter);
  }
}
