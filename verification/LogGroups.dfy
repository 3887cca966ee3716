/** The log-group allocator of `log_service.rs`: nodes are handed out to replica groups, the
    leader's host rotating over the sorted hosts and the other members preferring hosts the group
    does not use yet. The functions are the specification; `LogAllocator` is the program. */
module LogGroups {
  import opened Wrappers
  import opened Sorting

  datatype LogServiceNode = LogServiceNode(host: string, dataDir: seq<string>, port: nat)

  datatype NodeDiskCell = NodeDiskCell(hostIdx: nat, host: string, distIdx: nat, disk: string)

  /** What one round leaves behind: the unassigned nodes and the rotation index. */
  datatype Alloc = Alloc(free: set<nat>, turn: nat)

  function CellOf(nodes: seq<LogServiceNode>, i: nat): NodeDiskCell
    requires i < |nodes|
  {
    NodeDiskCell(i, nodes[i].host, 0, if nodes[i].dataDir == [] then "default" else nodes[i].dataDir[0])
  }

  /* ---------- hosts ---------- */

  function HostNames(nodes: seq<LogServiceNode>): set<string> {
    set i | 0 <= i < |nodes| :: nodes[i].host
  }

  /** The hosts a set of nodes spans. */
  function HostsIn(nodes: seq<LogServiceNode>, idxs: set<nat>): set<string> {
    set i | i in idxs && i < |nodes| :: nodes[i].host
  }

  function HostSet(hosts: seq<string>): set<string> {
    set h | h in hosts
  }

  /** `hosts` lists every host of `nodes` once. */
  ghost predicate Covers(nodes: seq<LogServiceNode>, hosts: seq<string>) {
    HostSet(hosts) == HostNames(nodes) && |hosts| == |HostSet(hosts)|
  }

  lemma CoversMeans(nodes: seq<LogServiceNode>, hosts: seq<string>)
    requires Covers(nodes, hosts)
    ensures Distinct(hosts)
    ensures forall h :: h in hosts <==> h in HostNames(nodes)
    ensures Lists(nodes, hosts)
  {
    assert forall h :: h in hosts <==> h in HostSet(hosts);
    forall i | 0 <= i < |nodes| ensures nodes[i].host in hosts { assert nodes[i].host in HostNames(nodes); }
    DistinctBySize(hosts);
  }

  lemma CoversIf(nodes: seq<LogServiceNode>, hosts: seq<string>)
    requires Distinct(hosts) && forall h :: h in hosts <==> h in HostNames(nodes)
    ensures Covers(nodes, hosts)
  {
    assert HostSet(hosts) == HostNames(nodes);
    SizeByDistinct(hosts);
  }

  lemma HostSetSplit(hosts: seq<string>)
    requires hosts != []
    ensures HostSet(hosts) == {hosts[0]} + HostSet(hosts[1..])
  {
    assert hosts == [hosts[0]] + hosts[1..];
  }

  lemma {:induction false} HostSetSize(hosts: seq<string>)
    ensures |HostSet(hosts)| <= |hosts|
  {
    if hosts == [] {
      assert HostSet(hosts) == {};
    } else {
      HostSetSplit(hosts);
      HostSetSize(hosts[1..]);
    }
  }

  lemma {:induction false} DistinctBySize(hosts: seq<string>)
    requires |hosts| == |HostSet(hosts)|
    ensures Distinct(hosts)
  {
    if hosts != [] {
      HostSetSplit(hosts);
      HostSetSize(hosts[1..]);
      DistinctBySize(hosts[1..]);
      assert hosts[0] !in HostSet(hosts[1..]);
      assert forall j :: 0 <= j < |hosts[1..]| ==>
               hosts[1..][j] == hosts[j + 1] && hosts[1..][j] in HostSet(hosts[1..]);
    }
  }

  lemma {:induction false} SizeByDistinct(hosts: seq<string>)
    requires Distinct(hosts)
    ensures |hosts| == |HostSet(hosts)|
  {
    if hosts == [] {
      assert HostSet(hosts) == {};
    } else {
      HostSetSplit(hosts);
      assert forall j :: 0 <= j < |hosts[1..]| ==> hosts[1..][j] == hosts[j + 1];
      SizeByDistinct(hosts[1..]);
    }
  }

  /** Every node's host is listed. */
  ghost predicate Lists(nodes: seq<LogServiceNode>, hosts: seq<string>) {
    forall i :: 0 <= i < |nodes| ==> nodes[i].host in hosts
  }

  ghost predicate Within(nodes: seq<LogServiceNode>, idxs: set<nat>) {
    forall i :: i in idxs ==> i < |nodes|
  }

  /** The nodes of one host in ascending order, among the first `n`. */
  function IndicesUpTo(nodes: seq<LogServiceNode>, h: string, n: nat): seq<nat>
    requires n <= |nodes|
  {
    if n == 0 then []
    else IndicesUpTo(nodes, h, n - 1) + (if nodes[n - 1].host == h then [n - 1] else [])
  }

  function IndicesOn(nodes: seq<LogServiceNode>, h: string): seq<nat> {
    IndicesUpTo(nodes, h, |nodes|)
  }

  function IndicesBelow(n: nat): seq<nat> {
    if n == 0 then [] else IndicesBelow(n - 1) + [n - 1]
  }

  lemma {:induction false} IndicesUpToMembers(nodes: seq<LogServiceNode>, h: string, n: nat)
    requires n <= |nodes|
    ensures forall i: nat :: i in IndicesUpTo(nodes, h, n) <==> i < n && nodes[i].host == h
  {
    if n > 0 { IndicesUpToMembers(nodes, h, n - 1); }
  }

  lemma {:induction false} IndicesBelowMembers(n: nat)
    ensures forall i: nat :: i in IndicesBelow(n) <==> i < n
  {
    if n > 0 { IndicesBelowMembers(n - 1); }
  }

  /* ---------- the choices of one round ---------- */

  function FirstFreeIn(list: seq<nat>, free: set<nat>): Option<nat> {
    if list == [] then None
    else if list[0] in free then Some(list[0])
    else FirstFreeIn(list[1..], free)
  }

  lemma {:induction false} FirstFreeInFacts(list: seq<nat>, free: set<nat>)
    ensures var r := FirstFreeIn(list, free);
            && (r.Some? ==> r.value in list && r.value in free)
            && (r.None? ==> forall i :: i in list ==> i !in free)
  {
    if list != [] && list[0] !in free {
      FirstFreeInFacts(list[1..], free);
      assert list == [list[0]] + list[1..];
    }
  }

  ghost predicate Ascending(list: seq<nat>) { forall a, b :: 0 <= a < b < |list| ==> list[a] < list[b] }

  lemma {:induction false} FirstFreeIsLeast(list: seq<nat>, free: set<nat>)
    requires Ascending(list) && FirstFreeIn(list, free).Some?
    ensures forall i :: i in list && i in free ==> FirstFreeIn(list, free).value <= i
  {
    if list[0] !in free {
      assert forall a :: 0 <= a < |list[1..]| ==> list[1..][a] == list[a + 1];
      FirstFreeIsLeast(list[1..], free);
      assert list == [list[0]] + list[1..];
    }
  }

  lemma AscendingPush(list: seq<nat>, i: nat)
    requires Ascending(list) && forall j :: j in list ==> j < i
    ensures Ascending(list + [i])
  {
    assert forall a :: 0 <= a < |list| ==> list[a] in list;
  }

  lemma {:induction false} IndicesOnAscend(nodes: seq<LogServiceNode>, h: string, n: nat)
    requires n <= |nodes|
    ensures Ascending(IndicesUpTo(nodes, h, n))
  {
    if n > 0 {
      IndicesOnAscend(nodes, h, n - 1);
      IndicesUpToMembers(nodes, h, n - 1);
      AscendingPush(IndicesUpTo(nodes, h, n - 1), n - 1);
    }
  }

  lemma {:induction false} IndicesBelowAscend(n: nat)
    ensures Ascending(IndicesBelow(n))
  {
    if n > 0 {
      IndicesBelowAscend(n - 1);
      IndicesBelowMembers(n - 1);
      AscendingPush(IndicesBelow(n - 1), n - 1);
    }
  }

  /** The first free node of a host, if the host has one. */
  function FreeOn(nodes: seq<LogServiceNode>, h: string, free: set<nat>): Option<nat> {
    FirstFreeIn(IndicesOn(nodes, h), free)
  }

  lemma FreeOnFacts(nodes: seq<LogServiceNode>, h: string, free: set<nat>)
    requires Within(nodes, free)
    ensures var r := FreeOn(nodes, h, free);
            && (r.Some? ==> r.value in free && nodes[r.value].host == h && h in HostsIn(nodes, free))
            && (r.None? ==> h !in HostsIn(nodes, free))
  {
    IndicesUpToMembers(nodes, h, |nodes|);
    FirstFreeInFacts(IndicesOn(nodes, h), free);
  }

  /** The first free node of all. */
  function AnyFree(nodes: seq<LogServiceNode>, free: set<nat>): Option<nat> {
    FirstFreeIn(IndicesBelow(|nodes|), free)
  }

  lemma AnyFreeFacts(nodes: seq<LogServiceNode>, free: set<nat>)
    requires Within(nodes, free)
    ensures var r := AnyFree(nodes, free);
            (r.Some? ==> r.value in free) && (r.None? ==> free == {})
  {
    IndicesBelowMembers(|nodes|);
    FirstFreeInFacts(IndicesBelow(|nodes|), free);
  }

  /** The host whose turn it is at rotation index `turn`. */
  function HostAt(hosts: seq<string>, turn: nat): string
    requires hosts != []
  {
    hosts[turn % |hosts|]
  }

  /** The rotation index, from `turn` on, at which a host with a free node comes up. */
  function LeaderTurn(nodes: seq<LogServiceNode>, hosts: seq<string>, free: set<nat>, turn: nat,
                      attempts: nat): Option<nat>
    requires hosts != []
    decreases attempts
  {
    if attempts == 0 then None
    else if FreeOn(nodes, HostAt(hosts, turn), free).Some? then Some(turn)
    else LeaderTurn(nodes, hosts, free, turn + 1, attempts - 1)
  }

  /** A free node on the first host that the group does not use yet and that has one. */
  function FreshNode(nodes: seq<LogServiceNode>, hosts: seq<string>, free: set<nat>, used: set<string>): Option<nat> {
    if hosts == [] then None
    else if hosts[0] !in used && FreeOn(nodes, hosts[0], free).Some?
    then FreeOn(nodes, hosts[0], free)
    else FreshNode(nodes, hosts[1..], free, used)
  }

  function FillSlots(nodes: seq<LogServiceNode>, hosts: seq<string>, free: set<nat>, used: set<string>,
                     slots: nat): seq<nat>
    decreases slots
  {
    if slots == 0 then []
    else
      match FreshNode(nodes, hosts, free, used)
      case Some(i) =>
        [i] + FillSlots(nodes, hosts, free - {i}, used + (if i < |nodes| then {nodes[i].host} else {}), slots - 1)
      case None =>
        match AnyFree(nodes, free)
        case Some(i) => [i] + FillSlots(nodes, hosts, free - {i}, used, slots - 1)
        case None => []
  }

  function Followers(replica: nat): nat {
    if replica == 0 then 0 else replica - 1
  }

  /** The size of a full group. A replica count of 0 still assigns a leader each round. */
  function GroupSize(replica: nat): nat {
    1 + Followers(replica)
  }

  function RoundMembers(nodes: seq<LogServiceNode>, hosts: seq<string>, replica: nat, s: Alloc): seq<nat>
    requires hosts != []
  {
    match LeaderTurn(nodes, hosts, s.free, s.turn, |hosts|)
    case None => FillSlots(nodes, hosts, s.free, {}, Followers(replica))
    case Some(t) =>
      var host := HostAt(hosts, t);
      match FreeOn(nodes, host, s.free)
      case Some(i) => [i] + FillSlots(nodes, hosts, s.free - {i}, {host}, Followers(replica))
      case None => []
  }

  function RoundTurn(nodes: seq<LogServiceNode>, hosts: seq<string>, s: Alloc): nat
    requires hosts != []
  {
    match LeaderTurn(nodes, hosts, s.free, s.turn, |hosts|)
    case None => s.turn + |hosts|
    case Some(t) => t + 1
  }

  function Elems(xs: seq<nat>): set<nat> {
    set x | x in xs
  }

  function NextAlloc(nodes: seq<LogServiceNode>, hosts: seq<string>, replica: nat, s: Alloc): Alloc
    requires hosts != []
  {
    Alloc(s.free - Elems(RoundMembers(nodes, hosts, replica, s)), RoundTurn(nodes, hosts, s))
  }

  ghost predicate Ready(nodes: seq<LogServiceNode>, hosts: seq<string>, s: Alloc) {
    Covers(nodes, hosts) && Within(nodes, s.free)
  }

  lemma ReadyHasHosts(nodes: seq<LogServiceNode>, hosts: seq<string>, s: Alloc)
    requires Ready(nodes, hosts, s) && s.free != {}
    ensures hosts != []
  {
    CoversMeans(nodes, hosts);
    var i :| i in s.free;
    assert nodes[i].host in hosts;
  }

  /* ---------- what one round does ---------- */

  /** No host that comes up in the rotation steps `[from, until)` has a free node. */
  ghost predicate ClosedBetween(nodes: seq<LogServiceNode>, hosts: seq<string>, free: set<nat>, from: nat, until: nat)
    requires hosts != []
  {
    forall k :: from <= k < until ==> HostAt(hosts, k) !in HostsIn(nodes, free)
  }

  lemma {:induction false} LeaderTurnScans(nodes: seq<LogServiceNode>, hosts: seq<string>, free: set<nat>, turn: nat,
                                           attempts: nat)
    requires hosts != [] && Within(nodes, free)
    ensures var r := LeaderTurn(nodes, hosts, free, turn, attempts);
            var stop := if r.Some? then r.value else turn + attempts;
            && turn <= stop <= turn + attempts
            && (r.Some? ==> stop < turn + attempts && HostAt(hosts, stop) in HostsIn(nodes, free))
            && ClosedBetween(nodes, hosts, free, turn, stop)
    decreases attempts
  {
    FreeOnFacts(nodes, HostAt(hosts, turn), free);
    if attempts > 0 && FreeOn(nodes, HostAt(hosts, turn), free).None? {
      LeaderTurnScans(nodes, hosts, free, turn + 1, attempts - 1);
    }
  }

  /** A window of `h` consecutive rotation steps visits every host position. */
  lemma WindowHits(turn: nat, p: nat, h: nat) returns (k: nat)
    requires p < h
    ensures turn <= k < turn + h && k % h == p
  {
    var q, r := turn / h, turn % h;
    assert turn == q * h + r;
    if r <= p {
      k := turn + (p - r);
      ModUnique(k, q, p, h);
    } else {
      k := turn + (h - r + p);
      assert (q + 1) * h == q * h + h;
      ModUnique(k, q + 1, p, h);
    }
  }

  lemma ModUnique(k: int, q: int, p: nat, h: nat)
    requires p < h && k == q * h + p
    ensures k / h == q && k % h == p
  {
    var d := k / h - q;
    assert k == (k / h) * h + k % h;
    assert (k / h) * h - q * h == d * h;
    assert d * h == p - k % h;
    MultipleAway(d, h);
  }

  lemma MultipleAway(d: int, h: nat)
    ensures d >= 1 ==> d * h >= h
    ensures d <= -1 ==> d * h + h <= 0
  {
  }

  lemma LeaderFound(nodes: seq<LogServiceNode>, hosts: seq<string>, s: Alloc)
    requires Ready(nodes, hosts, s) && s.free != {}
    ensures hosts != [] && LeaderTurn(nodes, hosts, s.free, s.turn, |hosts|).Some?
  {
    ReadyHasHosts(nodes, hosts, s);
    CoversMeans(nodes, hosts);
    var i :| i in s.free;
    assert nodes[i].host in hosts && nodes[i].host in HostsIn(nodes, s.free);
    var p :| 0 <= p < |hosts| && hosts[p] == nodes[i].host;
    var k := WindowHits(s.turn, p, |hosts|);
    assert HostAt(hosts, k) == hosts[p];
    LeaderTurnScans(nodes, hosts, s.free, s.turn, |hosts|);
  }

  lemma {:induction false} FreshNodeFacts(nodes: seq<LogServiceNode>, hosts: seq<string>, free: set<nat>,
                                          used: set<string>)
    requires Within(nodes, free)
    ensures var r := FreshNode(nodes, hosts, free, used);
            && (r.Some? ==> r.value in free && nodes[r.value].host !in used)
            && (r.None? ==> forall h :: h in hosts && h in HostsIn(nodes, free) ==> h in used)
  {
    if hosts != [] {
      FreeOnFacts(nodes, hosts[0], free);
      FreshNodeFacts(nodes, hosts[1..], free, used);
    }
  }

  /** `i` is the least free node of its host. */
  ghost predicate IsFirstOfHost(nodes: seq<LogServiceNode>, free: set<nat>, i: nat) {
    i in free && i < |nodes| && forall j :: j in free && j < |nodes| && nodes[j].host == nodes[i].host ==> i <= j
  }

  /** The node that a slot is due to: the least free node of the least open host that the group does not
      use yet, or, if it uses all open hosts, the least free node of all. */
  ghost predicate IsFirstChoice(nodes: seq<LogServiceNode>, free: set<nat>, used: set<string>, i: nat) {
    if HostsIn(nodes, free) <= used then i in free && forall j :: j in free ==> i <= j
    else
      && IsFirstOfHost(nodes, free, i) && nodes[i].host !in used
      && forall h :: h in HostsIn(nodes, free) && h !in used ==> StringLe(nodes[i].host, h)
  }

  lemma FreeOnIsFirst(nodes: seq<LogServiceNode>, h: string, free: set<nat>)
    requires Within(nodes, free) && FreeOn(nodes, h, free).Some?
    ensures IsFirstOfHost(nodes, free, FreeOn(nodes, h, free).value)
    ensures nodes[FreeOn(nodes, h, free).value].host == h
  {
    FreeOnFacts(nodes, h, free);
    IndicesUpToMembers(nodes, h, |nodes|);
    IndicesOnAscend(nodes, h, |nodes|);
    FirstFreeIsLeast(IndicesOn(nodes, h), free);
  }

  lemma {:induction false} FreshNodeIsFirst(nodes: seq<LogServiceNode>, hosts: seq<string>, free: set<nat>,
                                            used: set<string>)
    requires Within(nodes, free) && Sorted(hosts, StringLe) && FreshNode(nodes, hosts, free, used).Some?
    ensures var i := FreshNode(nodes, hosts, free, used).value;
            && IsFirstOfHost(nodes, free, i) && nodes[i].host in hosts && nodes[i].host !in used
            && forall h :: h in hosts && h in HostsIn(nodes, free) && h !in used ==> StringLe(nodes[i].host, h)
  {
    FreeOnFacts(nodes, hosts[0], free);
    if hosts[0] !in used && FreeOn(nodes, hosts[0], free).Some? {
      FreeOnIsFirst(nodes, hosts[0], free);
      forall h | h in hosts ensures StringLe(hosts[0], h) {
        StringLeConnected(h, h);
        var a :| 0 <= a < |hosts| && hosts[a] == h;
      }
    } else {
      assert forall a :: 0 <= a < |hosts[1..]| ==> hosts[1..][a] == hosts[a + 1];
      FreshNodeIsFirst(nodes, hosts[1..], free, used);
    }
  }

  lemma AnyFreeIsFirst(nodes: seq<LogServiceNode>, free: set<nat>)
    requires Within(nodes, free) && AnyFree(nodes, free).Some?
    ensures var i := AnyFree(nodes, free).value; i in free && forall j :: j in free ==> i <= j
  {
    AnyFreeFacts(nodes, free);
    IndicesBelowMembers(|nodes|);
    IndicesBelowAscend(|nodes|);
    FirstFreeIsLeast(IndicesBelow(|nodes|), free);
  }

  ghost predicate FirstChoices(nodes: seq<LogServiceNode>, free: set<nat>, used: set<string>, picks: seq<nat>) {
    picks == [] ||
    (&& IsFirstChoice(nodes, free, used, picks[0]) && picks[0] < |nodes|
     && FirstChoices(nodes, free - {picks[0]}, used + {nodes[picks[0]].host}, picks[1..]))
  }

  lemma FreshIsChoice(nodes: seq<LogServiceNode>, hosts: seq<string>, free: set<nat>, used: set<string>)
    requires Lists(nodes, hosts) && Within(nodes, free) && Sorted(hosts, StringLe)
    requires FreshNode(nodes, hosts, free, used).Some?
    ensures IsFirstChoice(nodes, free, used, FreshNode(nodes, hosts, free, used).value)
  {
    var i := FreshNode(nodes, hosts, free, used).value;
    FreshNodeIsFirst(nodes, hosts, free, used);
    assert nodes[i].host in HostsIn(nodes, free);
  }

  lemma AnyIsChoice(nodes: seq<LogServiceNode>, hosts: seq<string>, free: set<nat>, used: set<string>)
    requires Lists(nodes, hosts) && Within(nodes, free)
    requires FreshNode(nodes, hosts, free, used).None? && AnyFree(nodes, free).Some?
    ensures var i := AnyFree(nodes, free).value;
            IsFirstChoice(nodes, free, used, i) && i in free && nodes[i].host in used
  {
    FreshNodeFacts(nodes, hosts, free, used);
    AnyFreeIsFirst(nodes, free);
    assert nodes[AnyFree(nodes, free).value].host in HostsIn(nodes, free);
  }

  lemma {:induction false} FillChoosesFirst(nodes: seq<LogServiceNode>, hosts: seq<string>, free: set<nat>,
                                            used: set<string>, slots: nat)
    requires Lists(nodes, hosts) && Within(nodes, free) && Sorted(hosts, StringLe)
    ensures FirstChoices(nodes, free, used, FillSlots(nodes, hosts, free, used, slots))
    decreases slots
  {
    if slots > 0 {
      FreshNodeFacts(nodes, hosts, free, used);
      match FreshNode(nodes, hosts, free, used)
      case Some(i) =>
        var used' := used + {nodes[i].host};
        FreshIsChoice(nodes, hosts, free, used);
        FillChoosesFirst(nodes, hosts, free - {i}, used', slots - 1);
        FirstChoicesCons(nodes, free, used, i, FillSlots(nodes, hosts, free - {i}, used', slots - 1), used');
      case None =>
        if AnyFree(nodes, free).Some? {
          var i := AnyFree(nodes, free).value;
          AnyIsChoice(nodes, hosts, free, used);
          FillChoosesFirst(nodes, hosts, free - {i}, used, slots - 1);
          FirstChoicesCons(nodes, free, used, i, FillSlots(nodes, hosts, free - {i}, used, slots - 1), used);
        }
    }
  }

  lemma FirstChoicesCons(nodes: seq<LogServiceNode>, free: set<nat>, used: set<string>, i: nat, rest: seq<nat>,
                         used': set<string>)
    requires i < |nodes| && IsFirstChoice(nodes, free, used, i) && used' == used + {nodes[i].host}
    requires FirstChoices(nodes, free - {i}, used', rest)
    ensures FirstChoices(nodes, free, used, [i] + rest)
  {
    assert ([i] + rest)[1..] == rest;
  }

  lemma {:induction false} FirstChoiceAt(nodes: seq<LogServiceNode>, free: set<nat>, used: set<string>,
                                         picks: seq<nat>, m: nat)
    requires FirstChoices(nodes, free, used, picks) && m < |picks|
    ensures IsFirstChoice(nodes, free - Elems(picks[..m]), used + HostsIn(nodes, Elems(picks[..m])), picks[m])
    decreases m
  {
    if m == 0 {
      assert free - Elems(picks[..0]) == free && used + HostsIn(nodes, Elems(picks[..0])) == used;
    } else {
      var i, rest := picks[0], picks[1..];
      FirstChoiceAt(nodes, free - {i}, used + {nodes[i].host}, rest, m - 1);
      HostsOfCons(nodes, i, rest[..m - 1]);
      assert picks[..m] == [i] + rest[..m - 1];
      assert free - Elems(picks[..m]) == free - {i} - Elems(rest[..m - 1]);
      assert used + HostsIn(nodes, Elems(picks[..m])) == used + {nodes[i].host} + HostsIn(nodes, Elems(rest[..m - 1]));
    }
  }

  lemma DropOne(free: set<nat>, i: nat)
    requires i in free
    ensures |free - {i}| == |free| - 1
  {
  }

  /** As many distinct free nodes as fit into `slots`. */
  ghost predicate IsFill(free: set<nat>, slots: nat, picks: seq<nat>) {
    Distinct(picks) && Elems(picks) <= free && |picks| == Min(slots, |free|)
  }

  /** The slots are filled with as many distinct free nodes as there are. */
  lemma {:induction false} FillFacts(nodes: seq<LogServiceNode>, hosts: seq<string>, free: set<nat>, used: set<string>,
                                     slots: nat)
    requires Within(nodes, free)
    ensures IsFill(free, slots, FillSlots(nodes, hosts, free, used, slots))
    decreases slots
  {
    if slots > 0 {
      FreshNodeFacts(nodes, hosts, free, used);
      AnyFreeFacts(nodes, free);
      match FreshNode(nodes, hosts, free, used)
      case Some(i) =>
        FillStep(nodes, hosts, free, used + {nodes[i].host}, slots, i);
      case None =>
        match AnyFree(nodes, free)
        case Some(i) => FillStep(nodes, hosts, free, used, slots, i);
        case None => assert free == {};
    }
  }

  lemma {:induction false} FillStep(nodes: seq<LogServiceNode>, hosts: seq<string>, free: set<nat>, used: set<string>,
                                    slots: nat, i: nat)
    requires Within(nodes, free) && slots > 0 && i in free
    ensures IsFill(free, slots, [i] + FillSlots(nodes, hosts, free - {i}, used, slots - 1))
    decreases slots, 0
  {
    FillFacts(nodes, hosts, free - {i}, used, slots - 1);
    FillCons(free, slots, i, FillSlots(nodes, hosts, free - {i}, used, slots - 1));
  }

  lemma FillCons(free: set<nat>, slots: nat, i: nat, rest: seq<nat>)
    requires slots > 0 && i in free && IsFill(free - {i}, slots - 1, rest)
    ensures IsFill(free, slots, [i] + rest)
  {
    DropOne(free, i);
    assert forall k :: 0 <= k < |rest| ==> rest[k] in Elems(rest);
    assert Elems([i] + rest) == {i} + Elems(rest);
  }

  lemma HostsInUnion(nodes: seq<LogServiceNode>, a: set<nat>, b: set<nat>)
    ensures HostsIn(nodes, a + b) == HostsIn(nodes, a) + HostsIn(nodes, b)
  {
  }

  /** Putting node `i` in front of `rest` adds its host. */
  lemma HostsOfCons(nodes: seq<LogServiceNode>, i: nat, rest: seq<nat>)
    requires i < |nodes|
    ensures Elems([i] + rest) == {i} + Elems(rest)
    ensures HostsIn(nodes, Elems([i] + rest)) == {nodes[i].host} + HostsIn(nodes, Elems(rest))
  {
    assert Elems([i] + rest) == {i} + Elems(rest);
    HostsInUnion(nodes, {i}, Elems(rest));
    assert HostsIn(nodes, {i}) == {nodes[i].host};
  }

  lemma AddOne(a: set<string>, used: set<string>, h: string)
    requires h !in used
    ensures |({h} + a) - used| == 1 + |a - (used + {h})|
  {
    assert ({h} + a) - used == {h} + (a - (used + {h}));
  }

  lemma RemoveOne(a: set<string>, b: set<string>, used: set<string>, h: string)
    requires h in a && h !in used && b - {h} == a - {h}
    ensures |a - used| == 1 + |b - (used + {h})|
  {
    assert b - (used + {h}) == (b - {h}) - used == (a - {h}) - used;
    assert a - used == {h} + ((a - {h}) - used);
  }

  /** A pick that takes a used host only when no other host is open. */
  ghost predicate GreedyPick(nodes: seq<LogServiceNode>, free: set<nat>, used: set<string>, i: nat) {
    i in free && i < |nodes| && (nodes[i].host in used ==> HostsIn(nodes, free) <= used)
  }

  ghost predicate Greedy(nodes: seq<LogServiceNode>, free: set<nat>, used: set<string>, picks: seq<nat>) {
    picks == [] ||
    (&& GreedyPick(nodes, free, used, picks[0])
     && Greedy(nodes, free - {picks[0]}, used + {nodes[picks[0]].host}, picks[1..]))
  }

  /** The picks span as many hosts beyond `used` as their number and the open hosts allow. */
  ghost predicate Spreads(nodes: seq<LogServiceNode>, free: set<nat>, used: set<string>, picks: seq<nat>) {
    |HostsIn(nodes, Elems(picks)) - used| == Min(|picks|, |HostsIn(nodes, free) - used|)
  }

  lemma {:induction false} GreedySpread(nodes: seq<LogServiceNode>, free: set<nat>, used: set<string>, picks: seq<nat>)
    requires Within(nodes, free) && Greedy(nodes, free, used, picks)
    ensures Spreads(nodes, free, used, picks)
    decreases |picks|
  {
    if picks == [] {
      SpreadsNothing(nodes, free, used);
    } else {
      var i, rest := picks[0], picks[1..];
      var free', used' := free - {i}, used + {nodes[i].host};
      GreedySpread(nodes, free', used', rest);
      GreedyCons(nodes, free, used, i, rest, free', used');
      assert picks == [i] + rest;
    }
  }

  lemma SpreadsNothing(nodes: seq<LogServiceNode>, free: set<nat>, used: set<string>)
    ensures Spreads(nodes, free, used, [])
  {
    assert HostsIn(nodes, Elems([])) - used == {};
  }

  lemma GreedyCons(nodes: seq<LogServiceNode>, free: set<nat>, used: set<string>, i: nat, rest: seq<nat>,
                   free': set<nat>, used': set<string>)
    requires Within(nodes, free) && GreedyPick(nodes, free, used, i)
    requires free' == free - {i} && used' == used + {nodes[i].host}
    requires Spreads(nodes, free', used', rest)
    ensures Spreads(nodes, free, used, [i] + rest)
  {
    HostsOfCons(nodes, i, rest);
    TakingKeepsOthersOpen(nodes, free, i);
    SpreadStep(HostsIn(nodes, free), HostsIn(nodes, free'), HostsIn(nodes, Elems(rest)), used, nodes[i].host, |rest|);
  }

  lemma SpreadStep(open: set<string>, open': set<string>, taken: set<string>, used: set<string>, h: string, n: nat)
    requires h in open && open' - {h} == open - {h}
    requires h in used ==> open <= used
    requires |taken - (used + {h})| == Min(n, |open' - (used + {h})|)
    ensures |({h} + taken) - used| == Min(n + 1, |open - used|)
  {
    if h in used {
      NothingNew(open, open', taken, used, h);
    } else {
      AddOne(taken, used, h);
      RemoveOne(open, open', used, h);
    }
  }

  lemma NothingNew(open: set<string>, open': set<string>, rest: set<string>, used: set<string>, h: string)
    requires open <= used && h in used && open' - {h} == open - {h}
    requires |rest - (used + {h})| <= |open' - (used + {h})|
    ensures |({h} + rest) - used| == 0 && |open - used| == 0
  {
    assert open - used == {};
    assert open' - (used + {h}) == (open' - {h}) - used == {};
    assert ({h} + rest) - used == rest - (used + {h});
  }

  lemma {:induction false} FillIsGreedy(nodes: seq<LogServiceNode>, hosts: seq<string>, free: set<nat>,
                                        used: set<string>, slots: nat)
    requires Lists(nodes, hosts) && Within(nodes, free)
    ensures Greedy(nodes, free, used, FillSlots(nodes, hosts, free, used, slots))
    decreases slots
  {
    if slots > 0 {
      FreshNodeFacts(nodes, hosts, free, used);
      AnyFreeFacts(nodes, free);
      match FreshNode(nodes, hosts, free, used)
      case Some(i) =>
        FillIsGreedy(nodes, hosts, free - {i}, used + {nodes[i].host}, slots - 1);
      case None =>
        if AnyFree(nodes, free).Some? {
          var i := AnyFree(nodes, free).value;
          FillIsGreedy(nodes, hosts, free - {i}, used, slots - 1);
          assert nodes[i].host in HostsIn(nodes, free);
          assert used + {nodes[i].host} == used;
        }
    }
  }

  lemma TakingKeepsOthersOpen(nodes: seq<LogServiceNode>, free: set<nat>, i: nat)
    requires Within(nodes, free) && i in free
    ensures HostsIn(nodes, free - {i}) - {nodes[i].host} == HostsIn(nodes, free) - {nodes[i].host}
    ensures nodes[i].host in HostsIn(nodes, free)
  {
    var h := nodes[i].host;
    forall g | g in HostsIn(nodes, free) && g != h ensures g in HostsIn(nodes, free - {i}) {
      var j :| j in free && j < |nodes| && nodes[j].host == g;
      assert j in free - {i};
    }
  }

  /** `group` spans as many hosts as its size and the hosts of `free` allow. */
  ghost predicate Diverse(nodes: seq<LogServiceNode>, free: set<nat>, group: seq<nat>) {
    |HostsIn(nodes, Elems(group))| == Min(|group|, |HostsIn(nodes, free)|)
  }

  lemma LeaderSpread(nodes: seq<LogServiceNode>, free: set<nat>, i: nat, rest: seq<nat>)
    requires Within(nodes, free) && i in free
    requires Greedy(nodes, free - {i}, {nodes[i].host}, rest)
    ensures Diverse(nodes, free, [i] + rest)
  {
    assert {} + {nodes[i].host} == {nodes[i].host};
    GreedySpread(nodes, free, {}, [i] + rest);
    assert HostsIn(nodes, free) - {} == HostsIn(nodes, free);
    assert HostsIn(nodes, Elems([i] + rest)) - {} == HostsIn(nodes, Elems([i] + rest));
  }

  /** The rotation moved from `from` to just behind the leader's host, past closed hosts only. */
  ghost predicate LeaderMoves(nodes: seq<LogServiceNode>, hosts: seq<string>, s: Alloc, leader: nat, until: nat)
    requires hosts != []
  {
    && s.turn < until <= s.turn + |hosts|
    && leader in s.free && leader < |nodes|
    && nodes[leader].host == HostAt(hosts, until - 1)
    && ClosedBetween(nodes, hosts, s.free, s.turn, until - 1)
  }

  /** The leader's node and host in a round. */
  lemma RoundLeader(nodes: seq<LogServiceNode>, hosts: seq<string>, s: Alloc) returns (i: nat)
    requires Ready(nodes, hosts, s) && s.free != {}
    ensures hosts != [] && i in s.free && i < |nodes|
    ensures LeaderTurn(nodes, hosts, s.free, s.turn, |hosts|).Some?
    ensures var t := LeaderTurn(nodes, hosts, s.free, s.turn, |hosts|).value;
            FreeOn(nodes, HostAt(hosts, t), s.free) == Some(i) && nodes[i].host == HostAt(hosts, t)
    ensures LeaderMoves(nodes, hosts, s, i, RoundTurn(nodes, hosts, s))
  {
    LeaderFound(nodes, hosts, s);
    LeaderTurnScans(nodes, hosts, s.free, s.turn, |hosts|);
    var host := HostAt(hosts, LeaderTurn(nodes, hosts, s.free, s.turn, |hosts|).value);
    FreeOnFacts(nodes, host, s.free);
    i := FreeOn(nodes, host, s.free).value;
  }

  /** What one round achieves: a non-empty group of distinct free nodes, full while nodes last, that
      spans as many hosts as its size and the open hosts allow. */
  ghost predicate GoodGroup(nodes: seq<LogServiceNode>, free: set<nat>, size: nat, group: seq<nat>) {
    && group != []
    && IsFill(free, size, group)
    && Diverse(nodes, free, group)
    && free - Elems(group) < free
  }

  lemma GroupIsGood(nodes: seq<LogServiceNode>, hosts: seq<string>, free: set<nat>, i: nat, slots: nat)
    requires Covers(nodes, hosts) && Within(nodes, free) && i in free
    ensures GoodGroup(nodes, free, 1 + slots, [i] + FillSlots(nodes, hosts, free - {i}, {nodes[i].host}, slots))
  {
    var used := {nodes[i].host};
    var rest := FillSlots(nodes, hosts, free - {i}, used, slots);
    FillFacts(nodes, hosts, free - {i}, used, slots);
    FillCons(free, 1 + slots, i, rest);
    CoversMeans(nodes, hosts);
    FillIsGreedy(nodes, hosts, free - {i}, used, slots);
    LeaderSpread(nodes, free, i, rest);
    Shrinks(free, i, rest);
  }

  lemma Shrinks(free: set<nat>, i: nat, rest: seq<nat>)
    requires i in free
    ensures free - Elems([i] + rest) < free
  {
    assert ([i] + rest)[0] in Elems([i] + rest);
  }

  /** One round builds a good group, led from the host whose turn it is. */
  lemma RoundFacts(nodes: seq<LogServiceNode>, hosts: seq<string>, replica: nat, s: Alloc)
    requires Ready(nodes, hosts, s) && s.free != {}
    ensures hosts != []
    ensures var g := RoundMembers(nodes, hosts, replica, s);
            && GoodGroup(nodes, s.free, GroupSize(replica), g)
            && LeaderMoves(nodes, hosts, s, g[0], RoundTurn(nodes, hosts, s))
  {
    var i := RoundLeader(nodes, hosts, s);
    GroupIsGood(nodes, hosts, s.free, i, Followers(replica));
  }

  /** Every member of a round is the node that its slot is due to. */
  lemma RoundChoosesFirst(nodes: seq<LogServiceNode>, hosts: seq<string>, replica: nat, s: Alloc, m: nat)
    requires Ready(nodes, hosts, s) && s.free != {} && hosts != [] && Sorted(hosts, StringLe)
    requires m < |RoundMembers(nodes, hosts, replica, s)|
    ensures var g := RoundMembers(nodes, hosts, replica, s);
            if m == 0 then IsFirstOfHost(nodes, s.free, g[0])
            else IsFirstChoice(nodes, s.free - Elems(g[..m]), HostsIn(nodes, Elems(g[..m])), g[m])
  {
    var i := RoundLeader(nodes, hosts, s);
    FreeOnIsFirst(nodes, nodes[i].host, s.free);
    if m > 0 {
      var g := RoundMembers(nodes, hosts, replica, s);
      var rest := FillSlots(nodes, hosts, s.free - {i}, {nodes[i].host}, Followers(replica));
      assert g == [i] + rest;
      CoversMeans(nodes, hosts);
      FillChoosesFirst(nodes, hosts, s.free - {i}, {nodes[i].host}, Followers(replica));
      FirstChoiceAt(nodes, s.free - {i}, {nodes[i].host}, rest, m - 1);
      HostsOfCons(nodes, i, rest[..m - 1]);
      assert g[..m] == [i] + rest[..m - 1];
      assert s.free - Elems(g[..m]) == s.free - {i} - Elems(rest[..m - 1]);
    }
  }

  /* ---------- the whole allocation ---------- */

  function Rounds(nodes: seq<LogServiceNode>, hosts: seq<string>, replica: nat, s: Alloc): seq<seq<nat>>
    requires Ready(nodes, hosts, s)
    decreases s.free
  {
    if s.free == {} then []
    else
      RoundFacts(nodes, hosts, replica, s);
      [RoundMembers(nodes, hosts, replica, s)] + Rounds(nodes, hosts, replica, NextAlloc(nodes, hosts, replica, s))
  }

  /** The allocator's state after `k` rounds. */
  function After(nodes: seq<LogServiceNode>, hosts: seq<string>, replica: nat, s: Alloc, k: nat): (t: Alloc)
    requires Ready(nodes, hosts, s) && k <= |Rounds(nodes, hosts, replica, s)|
    ensures Ready(nodes, hosts, t)
    ensures Rounds(nodes, hosts, replica, t) == Rounds(nodes, hosts, replica, s)[k..]
    decreases k
  {
    if k == 0 then s
    else
      RoundFacts(nodes, hosts, replica, s);
      After(nodes, hosts, replica, NextAlloc(nodes, hosts, replica, s), k - 1)
  }

  function InitialAlloc(nodes: seq<LogServiceNode>): Alloc {
    Alloc(Elems(IndicesBelow(|nodes|)), 0)
  }

  /** The hosts in order of first appearance; the allocator sorts them. */
  function DistinctHosts(nodes: seq<LogServiceNode>): seq<string> {
    if nodes == [] then []
    else
      var hosts := DistinctHosts(nodes[..|nodes| - 1]);
      var last := nodes[|nodes| - 1].host;
      if last in hosts then hosts else hosts + [last]
  }

  lemma {:induction false} DistinctHostsCover(nodes: seq<LogServiceNode>)
    ensures Distinct(DistinctHosts(nodes))
    ensures forall h :: h in DistinctHosts(nodes) <==> h in HostNames(nodes)
  {
    if nodes != [] {
      var front, last := nodes[..|nodes| - 1], nodes[|nodes| - 1].host;
      DistinctHostsCover(front);
      assert HostNames(nodes) == HostNames(front) + {last} by {
        assert nodes == front + [nodes[|nodes| - 1]];
        HostNamesPush(front, nodes[|nodes| - 1]);
      }
      var hosts := DistinctHosts(front);
      assert forall k :: 0 <= k < |hosts| ==> hosts[k] in hosts;
    }
  }

  lemma HostNamesPush(front: seq<LogServiceNode>, node: LogServiceNode)
    ensures HostNames(front + [node]) == HostNames(front) + {node.host}
  {
    var nodes := front + [node];
    assert nodes[|front|] == node;
    forall h | h in HostNames(front) ensures h in HostNames(nodes) {
      var i :| 0 <= i < |front| && front[i].host == h;
      assert nodes[i].host == h;
    }
  }

  function SortedHosts(nodes: seq<LogServiceNode>): seq<string> {
    Sort(DistinctHosts(nodes), StringLe)
  }

  lemma SortedHostsCover(nodes: seq<LogServiceNode>)
    ensures Covers(nodes, SortedHosts(nodes)) && Sorted(SortedHosts(nodes), StringLe)
  {
    DistinctHostsCover(nodes);
    SortPermutes(DistinctHosts(nodes), StringLe);
    DistinctIsPermutable(DistinctHosts(nodes), SortedHosts(nodes));
    CoversIf(nodes, SortedHosts(nodes));
    StringLeIsTotalOrder();
    SortSorts(DistinctHosts(nodes), StringLe);
  }

  /** Whatever order a hash map hands its keys out in, sorting them gives the same hosts. */
  lemma HostOrderIsForgotten(nodes: seq<LogServiceNode>, keys: seq<string>)
    requires Distinct(keys) && forall h :: h in keys <==> h in HostNames(nodes)
    ensures Sort(keys, StringLe) == SortedHosts(nodes)
  {
    DistinctHostsCover(nodes);
    DistinctPermutation(keys, DistinctHosts(nodes));
    StringLeIsTotalOrder();
    assert AntisymmetricOn(StringLe, keys);
    SortForgetsOrder(keys, DistinctHosts(nodes), StringLe);
  }

  function Groups(nodes: seq<LogServiceNode>, replica: nat): seq<seq<nat>> {
    SortedHostsCover(nodes);
    IndicesBelowMembers(|nodes|);
    Rounds(nodes, SortedHosts(nodes), replica, InitialAlloc(nodes))
  }

  /* ---------- groups as cells ---------- */

  function CellsOf(nodes: seq<LogServiceNode>, group: seq<nat>): seq<NodeDiskCell>
    requires Within(nodes, Elems(group))
  {
    seq(|group|, m requires 0 <= m < |group| => assert group[m] in Elems(group); CellOf(nodes, group[m]))
  }

  function CellTable(nodes: seq<LogServiceNode>, groups: seq<seq<nat>>): seq<seq<NodeDiskCell>>
    requires forall k :: 0 <= k < |groups| ==> Within(nodes, Elems(groups[k]))
  {
    seq(|groups|, k requires 0 <= k < |groups| => CellsOf(nodes, groups[k]))
  }
}
