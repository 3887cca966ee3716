/** What the allocation of `LogGroups` guarantees over a whole run. */
module LogGroupProperties {
  import opened Wrappers
  import opened LogGroups

  /* ---------- partition and sizes ---------- */

  lemma ElemsConcat(a: seq<nat>, b: seq<nat>)
    ensures Elems(a + b) == Elems(a) + Elems(b)
  {
  }

  lemma DistinctConcat(a: seq<nat>, b: seq<nat>)
    requires Distinct(a) && Distinct(b) && Elems(a) !! Elems(b)
    ensures Distinct(a + b)
  {
    assert forall i :: 0 <= i < |a| ==> a[i] in Elems(a);
    assert forall j :: 0 <= j < |b| ==> b[j] in Elems(b);
  }

  lemma {:induction false} DistinctSize(xs: seq<nat>)
    requires Distinct(xs)
    ensures |Elems(xs)| == |xs|
  {
    if xs == [] {
      assert Elems(xs) == {};
    } else {
      DistinctSize(xs[1..]);
      ElemsSplit(xs);
    }
  }

  lemma ElemsSplit(xs: seq<nat>)
    requires xs != []
    ensures Elems(xs) == {xs[0]} + Elems(xs[1..])
    ensures Distinct(xs) ==> xs[0] !in Elems(xs[1..])
  {
    assert xs == [xs[0]] + xs[1..];
    assert forall k :: 0 <= k < |xs[1..]| ==> xs[1..][k] == xs[k + 1];
  }

  /** Every free node ends up in exactly one group. */
  lemma {:induction false} RoundsPartition(nodes: seq<LogServiceNode>, hosts: seq<string>, replica: nat, s: Alloc)
    requires Ready(nodes, hosts, s)
    ensures var all := Flatten(Rounds(nodes, hosts, replica, s));
            Distinct(all) && Elems(all) == s.free
    decreases s.free
  {
    if s.free == {} {
      assert Elems([]) == {};
    } else {
      RoundFacts(nodes, hosts, replica, s);
      var g, t := RoundMembers(nodes, hosts, replica, s), NextAlloc(nodes, hosts, replica, s);
      RoundsPartition(nodes, hosts, replica, t);
      var rest := Rounds(nodes, hosts, replica, t);
      assert Flatten([g] + rest) == g + Flatten(rest);
      DistinctConcat(g, Flatten(rest));
      ElemsConcat(g, Flatten(rest));
    }
  }

  function CeilDiv(n: nat, d: nat): nat
    requires d > 0
  {
    (n + d - 1) / d
  }

  lemma DivStep(n: int, d: nat)
    requires d > 0
    ensures (n + d) / d == n / d + 1
  {
    ModUnique(n + d, n / d + 1, n % d, d);
    assert (n / d + 1) * d == (n / d) * d + d;
  }

  function FullGroups(groups: seq<seq<nat>>, size: nat): nat {
    if groups == [] then 0 else (if |groups[0]| == size then 1 else 0) + FullGroups(groups[1..], size)
  }

  /** `n` nodes in groups of `size`: all but the last group full, `ceil(n / size)` of them,
      `n / size` of them full. */
  ghost predicate Sized(groups: seq<seq<nat>>, n: nat, size: nat)
    requires size > 0
  {
    && (forall k :: 0 <= k < |groups| - 1 ==> |groups[k]| == size)
    && (forall k :: 0 <= k < |groups| ==> 1 <= |groups[k]| <= size)
    && |groups| == CeilDiv(n, size)
    && FullGroups(groups, size) == n / size
  }

  lemma {:induction false} RoundsSizes(nodes: seq<LogServiceNode>, hosts: seq<string>, replica: nat, s: Alloc)
    requires Ready(nodes, hosts, s)
    ensures Sized(Rounds(nodes, hosts, replica, s), |s.free|, GroupSize(replica))
    decreases s.free
  {
    var size := GroupSize(replica);
    if s.free != {} {
      RoundFacts(nodes, hosts, replica, s);
      var g, t := RoundMembers(nodes, hosts, replica, s), NextAlloc(nodes, hosts, replica, s);
      RoundsSizes(nodes, hosts, replica, t);
      LeftOver(s.free, size, g);
      SizedCons(g, Rounds(nodes, hosts, replica, t), |s.free|, size);
    } else {
      SmallDiv(0, size);
      SmallDiv(size - 1, size);
    }
  }

  lemma LeftOver(free: set<nat>, size: nat, g: seq<nat>)
    requires IsFill(free, size, g)
    ensures |free - Elems(g)| == |free| - |g|
  {
    DistinctSize(g);
  }

  lemma SizedCons(g: seq<nat>, rest: seq<seq<nat>>, n: nat, size: nat)
    requires size > 0 && n > 0 && |g| == Min(size, n) && Sized(rest, n - |g|, size)
    ensures Sized([g] + rest, n, size)
  {
    SizeStep(n, |g|, size);
    if n <= size { SmallDiv(size - 1, size); }
  }

  lemma SmallDiv(n: nat, d: nat)
    requires n < d
    ensures n / d == 0
  {
    ModUnique(n, 0, n, d);
  }

  lemma SizeStep(n: nat, g: nat, size: nat)
    requires size > 0 && n > 0 && g == Min(size, n)
    ensures CeilDiv(n, size) == 1 + CeilDiv(n - g, size)
    ensures n / size == (if g == size then 1 else 0) + (n - g) / size
  {
    if g == size {
      DivStep(n - size + size - 1, size);
      DivStep(n - size, size);
    } else {
      DivStep(n - 1, size);
      SmallDiv(n - 1, size);
      SmallDiv(n, size);
      SmallDiv(size - 1, size);
      SmallDiv(0, size);
    }
  }

  /** The groups partition the nodes, all but the last are full, and there are
      `ceil(n / size)` of them. */
  lemma GroupsPartitionNodes(nodes: seq<LogServiceNode>, replica: nat)
    ensures var groups := Groups(nodes, replica);
            && Distinct(Flatten(groups))
            && (forall i: nat :: i in Flatten(groups) <==> i < |nodes|)
            && Sized(groups, |nodes|, GroupSize(replica))
  {
    GroupsAreSized(nodes, replica);
    SortedHostsCover(nodes);
    IndicesBelowMembers(|nodes|);
    RoundsPartition(nodes, SortedHosts(nodes), replica, InitialAlloc(nodes));
    var all := Flatten(Groups(nodes, replica));
    assert forall i: nat :: i in all <==> i in Elems(all);
    assert forall i: nat :: i in InitialAlloc(nodes).free <==> i in IndicesBelow(|nodes|);
  }

  lemma GroupsAreSized(nodes: seq<LogServiceNode>, replica: nat)
    ensures Sized(Groups(nodes, replica), |nodes|, GroupSize(replica))
  {
    SortedHostsCover(nodes);
    IndicesBelowMembers(|nodes|);
    RoundsSizes(nodes, SortedHosts(nodes), replica, InitialAlloc(nodes));
    InitiallyAllFree(nodes);
  }

  lemma InitiallyAllFree(nodes: seq<LogServiceNode>)
    ensures |InitialAlloc(nodes).free| == |nodes|
  {
    DistinctBelow(|nodes|);
    DistinctSize(IndicesBelow(|nodes|));
  }

  lemma {:induction false} DistinctBelow(n: nat)
    ensures Distinct(IndicesBelow(n)) && |IndicesBelow(n)| == n
  {
    if n > 0 {
      DistinctBelow(n - 1);
      IndicesBelowMembers(n - 1);
      var list := IndicesBelow(n - 1);
      assert forall k :: 0 <= k < |list| ==> list[k] in list;
    }
  }

  /** How many leaders the readiness probe waits for: nodes divided by replicas, rounded down. */
  function ExpectedLeaders(nodesCount: nat, replica: nat): nat
    requires replica > 0
  {
    nodesCount / replica
  }

  /** The probe expects one leader per full group, which is one per group exactly when the replica
      count divides the number of nodes; otherwise the last, partial group is not counted. */
  lemma ProbeExpectsFullGroups(nodes: seq<LogServiceNode>, replica: nat)
    requires replica > 0
    ensures ExpectedLeaders(|nodes|, replica) == FullGroups(Groups(nodes, replica), replica)
    ensures ExpectedLeaders(|nodes|, replica) == |Groups(nodes, replica)| <==> |nodes| % replica == 0
    ensures |Groups(nodes, replica)| - ExpectedLeaders(|nodes|, replica) <= 1
  {
    GroupsAreSized(nodes, replica);
    CeilFloor(|nodes|, replica);
  }

  lemma CeilFloor(n: nat, d: nat)
    requires d > 0
    ensures CeilDiv(n, d) == n / d + (if n % d == 0 then 0 else 1)
  {
    var q, r := n / d, n % d;
    assert n == q * d + r;
    if r == 0 {
      ModUnique(n + d - 1, q, d - 1, d);
    } else {
      assert (q + 1) * d == q * d + d;
      ModUnique(n + d - 1, q + 1, r - 1, d);
    }
  }

  /** `group()`, the number of groups with one node per host. */
  function GroupCount(nodes: seq<LogServiceNode>, replica: nat): nat
    requires replica > 0
  {
    var hostNum := |HostNames(nodes)|;
    if hostNum < replica then 1
    else if hostNum % replica == 0 then hostNum / replica
    else hostNum / replica + 1
  }

  /** `group()` counts the groups that are built exactly when the hosts and the nodes need equally
      many of them, as they do with one node per host. */
  lemma GroupCountAgrees(nodes: seq<LogServiceNode>, replica: nat)
    requires replica > 0 && nodes != []
    ensures GroupCount(nodes, replica) == CeilDiv(|HostNames(nodes)|, replica)
    ensures GroupCount(nodes, replica) == |Groups(nodes, replica)|
       <==> CeilDiv(|HostNames(nodes)|, replica) == CeilDiv(|nodes|, replica)
  {
    GroupsAreSized(nodes, replica);
    assert nodes[0].host in HostNames(nodes);
    CeilFloor(|HostNames(nodes)|, replica);
    OneGroup(|HostNames(nodes)|, replica);
  }

  lemma OneGroup(n: nat, d: nat)
    requires n > 0 && d > 0
    ensures n < d ==> CeilDiv(n, d) == 1
  {
    if n < d {
      DivStep(n - 1, d);
      SmallDiv(n - 1, d);
    }
  }

  /* ---------- host diversity ---------- */

  lemma {:induction false} SpansAtMostItsSize(nodes: seq<LogServiceNode>, idxs: set<nat>)
    requires Within(nodes, idxs)
    ensures |HostsIn(nodes, idxs)| <= |idxs|
  {
    if idxs == {} {
      assert HostsIn(nodes, idxs) == {};
    } else {
      var i :| i in idxs;
      SpansAtMostItsSize(nodes, idxs - {i});
      assert idxs == (idxs - {i}) + {i};
      HostsInUnion(nodes, idxs - {i}, {i});
      assert HostsIn(nodes, {i}) == {nodes[i].host};
    }
  }

  lemma SubsetSize(a: set<string>, b: set<string>)
    requires a <= b
    ensures |a| <= |b|
  {
    assert b == a + (b - a);
  }

  /** The group built in round `k` spans `min(its size, hosts with an unassigned node)` hosts, and
      no group of at most that size out of the nodes then free spans more. */
  lemma GroupsAreDiverse(nodes: seq<LogServiceNode>, hosts: seq<string>, replica: nat, s: Alloc, k: nat,
                         other: set<nat>)
    requires Ready(nodes, hosts, s) && k < |Rounds(nodes, hosts, replica, s)|
    requires other <= After(nodes, hosts, replica, s, k).free && |other| <= |Rounds(nodes, hosts, replica, s)[k]|
    ensures var g, free := Rounds(nodes, hosts, replica, s)[k], After(nodes, hosts, replica, s, k).free;
            && Elems(g) <= free
            && |HostsIn(nodes, Elems(g))| == Min(|g|, |HostsIn(nodes, free)|)
            && |HostsIn(nodes, other)| <= |HostsIn(nodes, Elems(g))|
  {
    var t := After(nodes, hosts, replica, s, k);
    var groups := Rounds(nodes, hosts, replica, s);
    assert groups[k] == groups[k..][0] == Rounds(nodes, hosts, replica, t)[0];
    RoundFacts(nodes, hosts, replica, t);
    SpansAtMostItsSize(nodes, other);
    assert HostsIn(nodes, other) <= HostsIn(nodes, t.free);
    SubsetSize(HostsIn(nodes, other), HostsIn(nodes, t.free));
  }

  /* ---------- leader rotation ---------- */

  /** How many rotation steps in `[from, to)` come past host position `i` of `h`. */
  function Visits(from: nat, until: nat, i: nat, h: nat): nat
    requires h > 0
    decreases until
  {
    if until <= from then 0
    else Visits(from, until - 1, i, h) + (if (until - 1) % h == i then 1 else 0)
  }

  function LeadsOne(nodes: seq<LogServiceNode>, group: seq<nat>, host: string): nat {
    if group != [] && group[0] < |nodes| && nodes[group[0]].host == host then 1 else 0
  }

  /** How many of the groups are led from `host`. */
  function Leads(nodes: seq<LogServiceNode>, groups: seq<seq<nat>>, host: string): nat {
    if groups == [] then 0
    else LeadsOne(nodes, groups[0], host) + Leads(nodes, groups[1..], host)
  }

  lemma {:induction false} VisitsSplit(a: nat, b: nat, c: nat, i: nat, h: nat)
    requires h > 0 && a <= b <= c
    ensures Visits(a, c, i, h) == Visits(a, b, i, h) + Visits(b, c, i, h)
    decreases c
  {
    if b < c { VisitsSplit(a, b, c - 1, i, h); }
  }

  lemma {:induction false} NoVisits(a: nat, b: nat, i: nat, h: nat)
    requires h > 0 && a <= b && forall k :: a <= k < b ==> k % h != i
    ensures Visits(a, b, i, h) == 0
    decreases b
  {
    if a < b { NoVisits(a, b - 1, i, h); }
  }

  lemma LastVisit(from: nat, until: nat, i: nat, h: nat)
    requires h > 0 && from < until && forall k :: from <= k < until - 1 ==> k % h != i
    ensures Visits(from, until, i, h) == if (until - 1) % h == i then 1 else 0
  {
    NoVisits(from, until - 1, i, h);
  }

  lemma DistinctAt(hosts: seq<string>, a: nat, b: nat)
    requires Distinct(hosts) && a < |hosts| && b < |hosts|
    ensures hosts[a] == hosts[b] <==> a == b
  {
  }

  /** One round advances the rotation past closed hosts to the leader's, so every host that is
      still open was visited as often as it led. */
  lemma RoundVisits(nodes: seq<LogServiceNode>, hosts: seq<string>, replica: nat, s: Alloc, i: nat)
    requires Ready(nodes, hosts, s) && s.free != {} && i < |hosts| && hosts[i] in HostsIn(nodes, s.free)
    ensures s.turn <= RoundTurn(nodes, hosts, s)
    ensures Visits(s.turn, RoundTurn(nodes, hosts, s), i, |hosts|)
         == LeadsOne(nodes, RoundMembers(nodes, hosts, replica, s), hosts[i])
  {
    RoundFacts(nodes, hosts, replica, s);
    CoversMeans(nodes, hosts);
    LeaderIsVisited(nodes, hosts, s, RoundMembers(nodes, hosts, replica, s)[0], RoundTurn(nodes, hosts, s), i);
  }

  lemma LeaderIsVisited(nodes: seq<LogServiceNode>, hosts: seq<string>, s: Alloc, leader: nat, until: nat, i: nat)
    requires Distinct(hosts) && i < |hosts| && hosts[i] in HostsIn(nodes, s.free)
    requires LeaderMoves(nodes, hosts, s, leader, until)
    ensures Visits(s.turn, until, i, |hosts|) == if nodes[leader].host == hosts[i] then 1 else 0
  {
    forall k | s.turn <= k < until - 1 ensures k % |hosts| != i {
      assert HostAt(hosts, k) !in HostsIn(nodes, s.free);
    }
    LastVisit(s.turn, until, i, |hosts|);
    DistinctAt(hosts, (until - 1) % |hosts|, i);
  }

  /** After any number of rounds, a host that still has a free node has led exactly as many groups
      as the rotation came past it. */
  lemma {:induction false} OpenHostsLedEveryTurn(nodes: seq<LogServiceNode>, hosts: seq<string>, replica: nat, s: Alloc,
                                                 k: nat, i: nat)
    requires Ready(nodes, hosts, s) && k <= |Rounds(nodes, hosts, replica, s)| && i < |hosts|
    requires hosts[i] in HostsIn(nodes, After(nodes, hosts, replica, s, k).free)
    ensures var t := After(nodes, hosts, replica, s, k);
            && s.turn <= t.turn
            && t.free <= s.free
            && Leads(nodes, Rounds(nodes, hosts, replica, s)[..k], hosts[i]) == Visits(s.turn, t.turn, i, |hosts|)
    decreases k
  {
    if k > 0 {
      RoundFacts(nodes, hosts, replica, s);
      var n := NextAlloc(nodes, hosts, replica, s);
      OpenHostsLedEveryTurn(nodes, hosts, replica, n, k - 1, i);
      var t := After(nodes, hosts, replica, n, k - 1);
      assert t == After(nodes, hosts, replica, s, k);
      OpenStaysOpen(nodes, t.free, s.free);
      RoundVisits(nodes, hosts, replica, s, i);
      VisitsSplit(s.turn, n.turn, t.turn, i, |hosts|);
      LeadsCons(nodes, RoundMembers(nodes, hosts, replica, s), Rounds(nodes, hosts, replica, n), k, hosts[i]);
    }
  }

  lemma LeadsCons(nodes: seq<LogServiceNode>, g: seq<nat>, rest: seq<seq<nat>>, k: nat, host: string)
    requires 0 < k <= |rest| + 1
    ensures Leads(nodes, ([g] + rest)[..k], host) == LeadsOne(nodes, g, host) + Leads(nodes, rest[..k - 1], host)
  {
    assert ([g] + rest)[..k] == [g] + rest[..k - 1];
    assert ([g] + rest[..k - 1])[1..] == rest[..k - 1];
  }

  lemma OpenStaysOpen(nodes: seq<LogServiceNode>, now: set<nat>, before: set<nat>)
    requires now <= before
    ensures HostsIn(nodes, now) <= HostsIn(nodes, before)
  {
  }

  /** Closed form of the visits from the start of the rotation. */
  lemma {:induction false} VisitsClosed(t: nat, i: nat, h: nat)
    requires i < h
    ensures Visits(0, t, i, h) == t / h + (if i < t % h then 1 else 0)
  {
    if t == 0 {
      SmallDiv(0, h);
    } else {
      VisitsClosed(t - 1, i, h);
      NextQuotient(t - 1, h);
    }
  }

  lemma NextQuotient(t: nat, h: nat)
    requires h > 0
    ensures t % h + 1 < h ==> (t + 1) / h == t / h && (t + 1) % h == t % h + 1
    ensures t % h + 1 == h ==> (t + 1) / h == t / h + 1 && (t + 1) % h == 0
  {
    var q, r := t / h, t % h;
    assert t == q * h + r;
    if r + 1 < h {
      ModUnique(t + 1, q, r + 1, h);
    } else {
      assert (q + 1) * h == q * h + h;
      ModUnique(t + 1, q + 1, 0, h);
    }
  }

  /** Leader fairness: at any point of the allocation, two hosts that still have unassigned nodes
      have led equally many groups up to one. */
  lemma LeadersAreFair(nodes: seq<LogServiceNode>, replica: nat, k: nat, i: nat, j: nat)
    requires k <= |Groups(nodes, replica)|
    requires i < |SortedHosts(nodes)| && j < |SortedHosts(nodes)|
    requires SortedHosts(nodes)[i] in HostsIn(nodes, UnassignedAfter(nodes, replica, k))
    requires SortedHosts(nodes)[j] in HostsIn(nodes, UnassignedAfter(nodes, replica, k))
    ensures var led := h => Leads(nodes, Groups(nodes, replica)[..k], h);
            && led(SortedHosts(nodes)[i]) == Visits(0, TurnAfter(nodes, replica, k), i, |SortedHosts(nodes)|)
            && -1 <= led(SortedHosts(nodes)[i]) - led(SortedHosts(nodes)[j]) <= 1
  {
    SortedHostsCover(nodes);
    IndicesBelowMembers(|nodes|);
    var hosts, s := SortedHosts(nodes), InitialAlloc(nodes);
    OpenHostsLedEveryTurn(nodes, hosts, replica, s, k, i);
    OpenHostsLedEveryTurn(nodes, hosts, replica, s, k, j);
    var t := After(nodes, hosts, replica, s, k);
    VisitsClosed(t.turn, i, |hosts|);
    VisitsClosed(t.turn, j, |hosts|);
  }

  function StateAfter(nodes: seq<LogServiceNode>, replica: nat, k: nat): Alloc
    requires k <= |Groups(nodes, replica)|
  {
    SortedHostsCover(nodes);
    IndicesBelowMembers(|nodes|);
    After(nodes, SortedHosts(nodes), replica, InitialAlloc(nodes), k)
  }

  function UnassignedAfter(nodes: seq<LogServiceNode>, replica: nat, k: nat): set<nat>
    requires k <= |Groups(nodes, replica)|
  {
    StateAfter(nodes, replica, k).free
  }

  function TurnAfter(nodes: seq<LogServiceNode>, replica: nat, k: nat): nat
    requires k <= |Groups(nodes, replica)|
  {
    StateAfter(nodes, replica, k).turn
  }

  lemma FlattenHead(g: seq<nat>, rest: seq<seq<nat>>)
    ensures Elems(Flatten([g] + rest)) == Elems(g) + Elems(Flatten(rest))
  {
    assert ([g] + rest)[1..] == rest;
    ElemsConcat(g, Flatten(rest));
  }

  /** What is unassigned after `k` rounds is what the first `k` groups do not hold. */
  lemma {:induction false} UnassignedIsTheRest(nodes: seq<LogServiceNode>, hosts: seq<string>, replica: nat, s: Alloc,
                                               k: nat)
    requires Ready(nodes, hosts, s) && k <= |Rounds(nodes, hosts, replica, s)|
    ensures After(nodes, hosts, replica, s, k).free == s.free - Elems(Flatten(Rounds(nodes, hosts, replica, s)[..k]))
    decreases k
  {
    var groups := Rounds(nodes, hosts, replica, s);
    if k == 0 {
      assert groups[..0] == [] && Elems([]) == {};
    } else {
      RoundFacts(nodes, hosts, replica, s);
      var g, n := RoundMembers(nodes, hosts, replica, s), NextAlloc(nodes, hosts, replica, s);
      UnassignedIsTheRest(nodes, hosts, replica, n, k - 1);
      var rest := Rounds(nodes, hosts, replica, n)[..k - 1];
      assert groups[..k] == [g] + rest;
      FlattenHead(g, rest);
      assert After(nodes, hosts, replica, s, k) == After(nodes, hosts, replica, n, k - 1);
    }
  }

  /** A node is unassigned when group `k` is started exactly when no earlier group holds it. */
  lemma UnassignedNodes(nodes: seq<LogServiceNode>, replica: nat, k: nat, i: nat)
    requires k <= |Groups(nodes, replica)| && i < |nodes|
    ensures i in UnassignedAfter(nodes, replica, k) <==> i !in Elems(Flatten(Groups(nodes, replica)[..k]))
  {
    SortedHostsCover(nodes);
    IndicesBelowMembers(|nodes|);
    UnassignedIsTheRest(nodes, SortedHosts(nodes), replica, InitialAlloc(nodes), k);
  }

  /** Every group spans as many hosts as its size and the hosts with an unassigned node at its start
      allow, and no choice of at most that many of the unassigned nodes spans more. */
  lemma EveryGroupIsDiverse(nodes: seq<LogServiceNode>, replica: nat, k: nat, other: set<nat>)
    requires k < |Groups(nodes, replica)|
    requires other <= UnassignedAfter(nodes, replica, k) && |other| <= |Groups(nodes, replica)[k]|
    ensures var g, free := Groups(nodes, replica)[k], UnassignedAfter(nodes, replica, k);
            && |HostsIn(nodes, Elems(g))| == Min(|g|, |HostsIn(nodes, free)|)
            && |HostsIn(nodes, other)| <= |HostsIn(nodes, Elems(g))|
  {
    SortedHostsCover(nodes);
    IndicesBelowMembers(|nodes|);
    GroupsAreDiverse(nodes, SortedHosts(nodes), replica, InitialAlloc(nodes), k, other);
  }

  /** Which node each place of a group goes to. The leader is the first unassigned node of its host. Every
      other place goes to the first unassigned node of the first host, in ascending order, that the group
      does not use yet and that has one, and if there is no such host, to the first unassigned node. */
  lemma EveryChoiceIsFirst(nodes: seq<LogServiceNode>, replica: nat, k: nat, m: nat)
    requires k < |Groups(nodes, replica)| && m < |Groups(nodes, replica)[k]|
    ensures var g, free := Groups(nodes, replica)[k], UnassignedAfter(nodes, replica, k);
            if m == 0 then IsFirstOfHost(nodes, free, g[0])
            else IsFirstChoice(nodes, free - Elems(g[..m]), HostsIn(nodes, Elems(g[..m])), g[m])
  {
    SortedHostsCover(nodes);
    IndicesBelowMembers(|nodes|);
    var hosts, s := SortedHosts(nodes), InitialAlloc(nodes);
    GroupAt(nodes, hosts, replica, s, k);
    RoundChoosesFirst(nodes, hosts, replica, After(nodes, hosts, replica, s, k), m);
  }

  /** Two consecutive groups are led from different hosts whenever some other host still had an
      unassigned node when the second leader was chosen. */
  lemma ConsecutiveLeadersDiffer(nodes: seq<LogServiceNode>, replica: nat, k: nat, h: string)
    requires k + 1 < |Groups(nodes, replica)|
    requires h in HostsIn(nodes, UnassignedAfter(nodes, replica, k + 1))
    requires LeaderHost(nodes, replica, k) != h
    ensures LeaderHost(nodes, replica, k) != LeaderHost(nodes, replica, k + 1)
  {
    SortedHostsCover(nodes);
    IndicesBelowMembers(|nodes|);
    LeadersMove(nodes, SortedHosts(nodes), replica, InitialAlloc(nodes), k, h);
  }

  lemma LeadersMove(nodes: seq<LogServiceNode>, hosts: seq<string>, replica: nat, s: Alloc, k: nat, h: string)
    requires Ready(nodes, hosts, s) && k + 1 < |Rounds(nodes, hosts, replica, s)|
    requires h in HostsIn(nodes, After(nodes, hosts, replica, s, k + 1).free)
    ensures var g, g' := Rounds(nodes, hosts, replica, s)[k], Rounds(nodes, hosts, replica, s)[k + 1];
            && g != [] && g' != [] && g[0] < |nodes| && g'[0] < |nodes|
            && (nodes[g[0]].host != h ==> nodes[g[0]].host != nodes[g'[0]].host)
  {
    LeaderInRound(nodes, hosts, replica, s, k);
    LeaderInRound(nodes, hosts, replica, s, k + 1);
    AfterSteps(nodes, hosts, replica, s, k);
    var groups := Rounds(nodes, hosts, replica, s);
    var a, b := After(nodes, hosts, replica, s, k), After(nodes, hosts, replica, s, k + 1);
    if nodes[groups[k][0]].host != h {
      NextLeaderMoves(nodes, hosts, a, b, groups[k][0], groups[k + 1][0], RoundTurn(nodes, hosts, b), h);
    }
  }

  /** Group `k` is led from the host just behind which the rotation stands afterwards. */
  lemma LeaderInRound(nodes: seq<LogServiceNode>, hosts: seq<string>, replica: nat, s: Alloc, k: nat)
    requires Ready(nodes, hosts, s) && k < |Rounds(nodes, hosts, replica, s)|
    ensures var t := After(nodes, hosts, replica, s, k);
            && t.free != {} && hosts != []
            && var g := Rounds(nodes, hosts, replica, s)[k];
               g != [] && LeaderMoves(nodes, hosts, t, g[0], RoundTurn(nodes, hosts, t))
  {
    GroupAt(nodes, hosts, replica, s, k);
    RoundFacts(nodes, hosts, replica, After(nodes, hosts, replica, s, k));
  }

  function LeaderHost(nodes: seq<LogServiceNode>, replica: nat, k: nat): string
    requires k < |Groups(nodes, replica)|
  {
    GroupsPartitionNodes(nodes, replica);
    var g := Groups(nodes, replica)[k];
    MemberOfFlatten(Groups(nodes, replica), k, 0);
    nodes[g[0]].host
  }

  lemma {:induction false} MemberOfFlatten(groups: seq<seq<nat>>, k: nat, m: nat)
    requires k < |groups| && m < |groups[k]|
    ensures groups[k][m] in Flatten(groups)
  {
    if k > 0 { MemberOfFlatten(groups[1..], k - 1, m); }
  }

  lemma GroupAt(nodes: seq<LogServiceNode>, hosts: seq<string>, replica: nat, s: Alloc, k: nat)
    requires Ready(nodes, hosts, s) && k < |Rounds(nodes, hosts, replica, s)|
    ensures var t := After(nodes, hosts, replica, s, k);
            t.free != {} && hosts != [] && Rounds(nodes, hosts, replica, s)[k] == RoundMembers(nodes, hosts, replica, t)
  {
    var t := After(nodes, hosts, replica, s, k);
    assert Rounds(nodes, hosts, replica, s)[k..][0] == Rounds(nodes, hosts, replica, s)[k];
    ReadyHasHosts(nodes, hosts, t);
  }

  lemma {:induction false} AfterSteps(nodes: seq<LogServiceNode>, hosts: seq<string>, replica: nat, s: Alloc, k: nat)
    requires Ready(nodes, hosts, s) && k < |Rounds(nodes, hosts, replica, s)|
    ensures hosts != []
    ensures After(nodes, hosts, replica, s, k + 1)
         == NextAlloc(nodes, hosts, replica, After(nodes, hosts, replica, s, k))
    decreases k
  {
    RoundFacts(nodes, hosts, replica, s);
    if k > 0 { AfterSteps(nodes, hosts, replica, NextAlloc(nodes, hosts, replica, s), k - 1); }
  }

  /** After a leader, the rotation comes to every other open host before it comes back. */
  lemma NextLeaderMoves(nodes: seq<LogServiceNode>, hosts: seq<string>, a: Alloc, b: Alloc,
                        leader: nat, leader': nat, until: nat, h: string)
    requires hosts != [] && Covers(nodes, hosts)
    requires LeaderMoves(nodes, hosts, a, leader, b.turn) && LeaderMoves(nodes, hosts, b, leader', until)
    requires h in HostsIn(nodes, b.free) && nodes[leader].host != h
    ensures nodes[leader].host != nodes[leader'].host
  {
    CoversMeans(nodes, hosts);
    var n, p, t := |hosts|, b.turn - 1, until - 1;
    var q := PositionOf(nodes, hosts, b.free, h);
    var k := WindowHits(b.turn, q, n);
    assert HostAt(hosts, k) == h;
    assert t <= k;
    if t % n == p % n { SameResidue(p, t, n); }
    DistinctAt(hosts, t % n, p % n);
  }

  lemma PositionOf(nodes: seq<LogServiceNode>, hosts: seq<string>, free: set<nat>, h: string) returns (q: nat)
    requires Lists(nodes, hosts) && h in HostsIn(nodes, free)
    ensures q < |hosts| && hosts[q] == h
  {
    var i :| i in free && i < |nodes| && nodes[i].host == h;
    q :| 0 <= q < |hosts| && hosts[q] == h;
  }

  lemma SameResidue(a: nat, b: nat, n: nat)
    requires n > 0 && a < b <= a + n && a % n == b % n
    ensures b == a + n
  {
    var d := b / n - a / n;
    assert b - a == (b / n) * n - (a / n) * n == d * n;
    MultipleAway(d, n);
  }

  /** The table the allocator returns. */
  function GroupTable(nodes: seq<LogServiceNode>, replica: nat): seq<seq<NodeDiskCell>> {
    GroupsWithin(nodes, replica);
    CellTable(nodes, Groups(nodes, replica))
  }

  /** The cells of the table: the node, its host, and the first of its directories, or `default`. */
  lemma TableCells(nodes: seq<LogServiceNode>, replica: nat, k: nat, m: nat)
    requires k < |Groups(nodes, replica)| && m < |Groups(nodes, replica)[k]|
    ensures var table, i := GroupTable(nodes, replica), Groups(nodes, replica)[k][m];
            && |table| == |Groups(nodes, replica)| && |table[k]| == |Groups(nodes, replica)[k]| && i < |nodes|
            && table[k][m].hostIdx == i && table[k][m].host == nodes[i].host && table[k][m].distIdx == 0
            && (nodes[i].dataDir == [] ==> table[k][m].disk == "default")
            && (nodes[i].dataDir != [] ==> table[k][m].disk == nodes[i].dataDir[0])
  {
    GroupsWithin(nodes, replica);
    assert Groups(nodes, replica)[k][m] in Elems(Groups(nodes, replica)[k]);
  }

  lemma GroupsWithin(nodes: seq<LogServiceNode>, replica: nat)
    ensures forall k :: 0 <= k < |Groups(nodes, replica)| ==> Within(nodes, Elems(Groups(nodes, replica)[k]))
  {
    var groups := Groups(nodes, replica);
    GroupsPartitionNodes(nodes, replica);
    forall k, i | 0 <= k < |groups| && i in Elems(groups[k]) ensures i < |nodes| {
      var m :| 0 <= m < |groups[k]| && groups[k][m] == i;
      MemberOfFlatten(groups, k, m);
    }
  }
}
