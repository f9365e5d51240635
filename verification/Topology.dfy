/**
 The topology of a cluster and its verdict (backend/internal/service/cluster_service.go:51-101,
 262-368, 389-418). Nodes are already mapped from their rows.
 */
module Topology {
  import opened Wrappers
  import opened Totals
  import opened Sorting

  const LEADER := "LEADER"
  const FOLLOWER := "FOLLOWER"
  const OBSERVER := "OBSERVER"

  datatype NodeType = FE | BE | CN

  datatype Node = Node(
    id: string,
    name: string,
    kind: NodeType,
    role: string,
    alive: bool,
    host: string,
    clusterId: string,
    replayed: Option<int>,
    journalLag: Option<int>,
    tabletNum: Option<int>)

  datatype Summary = Summary(
    frontendTotal: nat,
    frontendAlive: nat,
    backendTotal: nat,
    backendAlive: nat,
    computeTotal: nat,
    computeAlive: nat,
    leaderHost: string,
    electableAlive: nat,
    electableTotal: nat,
    quorumHealthy: bool,
    maxJournalLag: Option<int>,
    clusterIdMismatch: bool,
    tabletTotal: int,
    healthy: bool)

  datatype Topology = Topology(summary: Summary, frontends: seq<Node>, backends: seq<Node>, computeNodes: seq<Node>)

  predicate IsAlive(n: Node) { n.alive }
  predicate IsElectable(n: Node) { n.role == LEADER || n.role == FOLLOWER }
  predicate CanVote(n: Node) { IsElectable(n) && n.alive }
  predicate LiveLeader(n: Node) { n.role == LEADER && n.alive }
  function TabletsOn(n: Node): int { n.tabletNum.GetOr(0) }

  /** The lag a node contributes: dead nodes and leaders say nothing about replication. */
  function LagOf(n: Node): Option<int> {
    if n.alive && n.role != LEADER then n.journalLag else None
  }

  // ----- The summary -----

  function LeaderHost(frontends: seq<Node>): string {
    if frontends == [] then ""
    else if LiveLeader(frontends[|frontends| - 1]) then frontends[|frontends| - 1].host
    else LeaderHost(frontends[..|frontends| - 1])
  }

  function ClusterIds(frontends: seq<Node>): set<string> {
    if frontends == [] then {}
    else
      var id := frontends[|frontends| - 1].clusterId;
      if id == "" then ClusterIds(frontends[..|frontends| - 1]) else ClusterIds(frontends[..|frontends| - 1]) + {id}
  }

  function MaxLag(frontends: seq<Node>): Option<int> {
    if frontends == [] then None
    else
      var m, lag := MaxLag(frontends[..|frontends| - 1]), LagOf(frontends[|frontends| - 1]);
      if lag.Some? && (m.None? || lag.value > m.value) then lag else m
  }

  function SummaryOf(frontends: seq<Node>, backends: seq<Node>, computeNodes: seq<Node>): Summary {
    var electableAlive, electableTotal := Count(frontends, CanVote), Count(frontends, IsElectable);
    var quorumHealthy := electableTotal > 0 && electableAlive > electableTotal / 2;
    var mismatch := |ClusterIds(frontends)| > 1;
    Summary(
      |frontends|, Count(frontends, IsAlive),
      |backends|, Count(backends, IsAlive),
      |computeNodes|, Count(computeNodes, IsAlive),
      LeaderHost(frontends), electableAlive, electableTotal, quorumHealthy, MaxLag(frontends), mismatch,
      Sum(backends, TabletsOn) + Sum(computeNodes, TabletsOn),
      && LeaderHost(frontends) != "" && quorumHealthy && !mismatch
      && Count(frontends, IsAlive) == |frontends|
      && Count(backends, IsAlive) == |backends|
      && Count(computeNodes, IsAlive) == |computeNodes|
      && |backends| + |computeNodes| > 0)
  }

  method CountNodes(nodes: seq<Node>) returns (alive: nat, tablets: int)
    ensures alive == Count(nodes, IsAlive) && tablets == Sum(nodes, TabletsOn)
  {
    alive, tablets := 0, 0;
    for i := 0 to |nodes|
      invariant alive == Count(nodes[..i], IsAlive) && tablets == Sum(nodes[..i], TabletsOn)
    {
      assert nodes[..i + 1][..i] == nodes[..i];
      if nodes[i].alive {
        alive := alive + 1;
      }
      if nodes[i].tabletNum.Some? {
        tablets := tablets + nodes[i].tabletNum.value;
      }
    }
    assert nodes[..|nodes|] == nodes;
  }

  method Summarize(frontends: seq<Node>, backends: seq<Node>, computeNodes: seq<Node>) returns (s: Summary)
    ensures s == SummaryOf(frontends, backends, computeNodes)
  {
    var alive, electableAlive, electableTotal: nat := 0, 0, 0;
    var clusterIds: set<string> := {};
    var maxLag: Option<int> := None;
    var leaderHost := "";
    for i := 0 to |frontends|
      invariant alive == Count(frontends[..i], IsAlive)
      invariant electableTotal == Count(frontends[..i], IsElectable)
      invariant electableAlive == Count(frontends[..i], CanVote)
      invariant clusterIds == ClusterIds(frontends[..i])
      invariant maxLag == MaxLag(frontends[..i])
      invariant leaderHost == LeaderHost(frontends[..i])
    {
      var fe := frontends[i];
      assert frontends[..i + 1][..i] == frontends[..i];
      if fe.alive {
        alive := alive + 1;
      }
      if fe.role == LEADER || fe.role == FOLLOWER {
        electableTotal := electableTotal + 1;
        if fe.alive {
          electableAlive := electableAlive + 1;
        }
      }
      if fe.clusterId != "" {
        clusterIds := clusterIds + {fe.clusterId};
      }
      if fe.alive && fe.role != LEADER && fe.journalLag.Some? {
        if maxLag.None? || fe.journalLag.value > maxLag.value {
          maxLag := fe.journalLag;
        }
      }
      if fe.role == LEADER && fe.alive {
        leaderHost := fe.host;
      }
    }
    assert frontends[..|frontends|] == frontends;
    var backendAlive, onBackends := CountNodes(backends);
    var computeAlive, onCompute := CountNodes(computeNodes);
    var quorumHealthy := electableTotal > 0 && electableAlive > electableTotal / 2;
    var mismatch := |clusterIds| > 1;
    s := Summary(
      |frontends|, alive, |backends|, backendAlive, |computeNodes|, computeAlive,
      leaderHost, electableAlive, electableTotal, quorumHealthy, maxLag, mismatch, onBackends + onCompute,
      leaderHost != "" && quorumHealthy && !mismatch
      && alive == |frontends| && backendAlive == |backends| && computeAlive == |computeNodes|
      && |backends| + |computeNodes| > 0);
  }

  // ----- Quorum -----

  lemma {:induction false} VotersAreElectable(frontends: seq<Node>)
    ensures Count(frontends, CanVote) <= Count(frontends, IsElectable)
  {
    if frontends != [] {
      VotersAreElectable(frontends[..|frontends| - 1]);
    }
  }

  function Quorum(frontends: seq<Node>): bool {
    SummaryOf(frontends, [], []).quorumHealthy
  }

  /** The quorum is a strict majority of the electable frontends. */
  lemma QuorumIsStrictMajority(frontends: seq<Node>, backends: seq<Node>, computeNodes: seq<Node>)
    ensures SummaryOf(frontends, backends, computeNodes).quorumHealthy <==>
            2 * Count(frontends, CanVote) > Count(frontends, IsElectable)
    ensures SummaryOf(frontends, backends, computeNodes).quorumHealthy == Quorum(frontends)
    ensures var s := SummaryOf(frontends, backends, computeNodes); s.quorumHealthy <==> 2 * s.electableAlive > s.electableTotal
  {
    VotersAreElectable(frontends);
  }

  function Electables(frontends: seq<Node>): seq<Node> {
    if frontends == [] then []
    else
      var n := |frontends| - 1;
      if IsElectable(frontends[n]) then Electables(frontends[..n]) + [frontends[n]] else Electables(frontends[..n])
  }

  lemma {:induction false} ElectablesAreCounted(frontends: seq<Node>)
    ensures Count(Electables(frontends), CanVote) == Count(frontends, CanVote)
    ensures Count(Electables(frontends), IsElectable) == Count(frontends, IsElectable) == |Electables(frontends)|
    ensures forall n :: n in Electables(frontends) <==> n in frontends && IsElectable(n)
  {
    if frontends != [] {
      var n := |frontends| - 1;
      ElectablesAreCounted(frontends[..n]);
      CountOneMore(Electables(frontends[..n]), frontends[n], CanVote);
      CountOneMore(Electables(frontends[..n]), frontends[n], IsElectable);
      assert frontends == frontends[..n] + [frontends[n]];
    }
  }

  /** Frontends that cannot be elected, observers among them, have no say in the quorum. */
  lemma ObserversDoNotVote(a: seq<Node>, b: seq<Node>)
    requires Electables(a) == Electables(b)
    ensures Quorum(a) == Quorum(b)
  {
    ElectablesAreCounted(a);
    ElectablesAreCounted(b);
    QuorumIsStrictMajority(a, [], []);
    QuorumIsStrictMajority(b, [], []);
  }

  ghost predicate UniqueIds(nodes: seq<Node>) {
    forall i, j :: 0 <= i < j < |nodes| ==> nodes[i].id != nodes[j].id
  }

  /** No two of the nodes with the property share an id. */
  ghost predicate NoSharedId(nodes: seq<Node>, p: Node -> bool) {
    forall i, j :: 0 <= i < j < |nodes| && p(nodes[i]) && p(nodes[j]) ==> nodes[i].id != nodes[j].id
  }

  function IdsWhere(nodes: seq<Node>, p: Node -> bool): set<string> {
    if nodes == [] then {}
    else
      var n := |nodes| - 1;
      if p(nodes[n]) then IdsWhere(nodes[..n], p) + {nodes[n].id} else IdsWhere(nodes[..n], p)
  }

  lemma {:induction false} IdsWhereAre(nodes: seq<Node>, p: Node -> bool)
    ensures forall n :: n in nodes && p(n) ==> n.id in IdsWhere(nodes, p)
    ensures forall id :: id in IdsWhere(nodes, p) ==> exists n :: n in nodes && p(n) && n.id == id
  {
    if nodes != [] {
      var n := |nodes| - 1;
      IdsWhereAre(nodes[..n], p);
      assert nodes == nodes[..n] + [nodes[n]];
    }
  }

  lemma {:induction false} CountIsIds(nodes: seq<Node>, p: Node -> bool)
    requires NoSharedId(nodes, p)
    ensures |IdsWhere(nodes, p)| == Count(nodes, p)
  {
    if nodes != [] {
      var n := |nodes| - 1;
      CountIsIds(nodes[..n], p);
      IdsWhereAre(nodes[..n], p);
      if p(nodes[n]) {
        NewId(nodes, p);
      }
    }
  }

  lemma NewId(nodes: seq<Node>, p: Node -> bool)
    requires nodes != [] && NoSharedId(nodes, p) && p(nodes[|nodes| - 1])
    ensures nodes[|nodes| - 1].id !in IdsWhere(nodes[..|nodes| - 1], p)
  {
    var n := |nodes| - 1;
    IdsWhereAre(nodes[..n], p);
    forall m | m in nodes[..n] && p(m)
      ensures m.id != nodes[n].id
    {
      var i :| 0 <= i < n && nodes[i] == m;
    }
  }

  lemma MajoritiesMeet(a: set<string>, b: set<string>, all: set<string>)
    requires a <= all && b <= all && 2 * |a| > |all| && 2 * |b| > |all|
    ensures exists x :: x in a && x in b
  {
    if a * b == {} {
      assert |a + b| == |a| + |b|;
      SubsetIsNoLarger(a + b, all);
      assert false;
    }
    var x :| x in a * b;
  }

  lemma {:induction false} SubsetIsNoLarger(a: set<string>, b: set<string>)
    requires a <= b
    ensures |a| <= |b|
  {
    if a != {} {
      var x :| x in a;
      SubsetIsNoLarger(a - {x}, b - {x});
    }
  }

  /** Two snapshots of the same electable frontends that both have a quorum share one that is alive in both. */
  lemma QuorumsIntersect(a: seq<Node>, b: seq<Node>)
    requires NoSharedId(a, IsElectable) && NoSharedId(b, IsElectable)
    requires IdsWhere(a, IsElectable) == IdsWhere(b, IsElectable)
    requires Quorum(a) && Quorum(b)
    ensures exists m, n :: m in a && n in b && CanVote(m) && CanVote(n) && m.id == n.id
  {
    QuorumHasIds(a);
    QuorumHasIds(b);
    MajoritiesMeet(IdsWhere(a, CanVote), IdsWhere(b, CanVote), IdsWhere(a, IsElectable));
    var id :| id in IdsWhere(a, CanVote) && id in IdsWhere(b, CanVote);
    IdsWhereAre(a, CanVote);
    IdsWhereAre(b, CanVote);
    var m :| m in a && CanVote(m) && m.id == id;
    var n :| n in b && CanVote(n) && n.id == id;
  }

  lemma QuorumHasIds(frontends: seq<Node>)
    requires NoSharedId(frontends, IsElectable) && Quorum(frontends)
    ensures IdsWhere(frontends, CanVote) <= IdsWhere(frontends, IsElectable)
    ensures 2 * |IdsWhere(frontends, CanVote)| > |IdsWhere(frontends, IsElectable)|
  {
    QuorumIsStrictMajority(frontends, [], []);
    CountIsIds(frontends, IsElectable);
    CountIsIds(frontends, CanVote);
    IdsWhereAre(frontends, CanVote);
    IdsWhereAre(frontends, IsElectable);
  }

  // ----- Node by node -----

  lemma CountInserted(a: seq<Node>, n: Node, b: seq<Node>, p: Node -> bool)
    ensures Count(a + [n] + b, p) == Count(a + b, p) + if p(n) then 1 else 0
  {
    CountAppend(a + [n], b, p);
    CountAppend(a, b, p);
    CountOneMore(a, n, p);
  }

  lemma SumInserted(a: seq<Node>, n: Node, b: seq<Node>, f: Node -> int)
    ensures Sum(a + [n] + b, f) == Sum(a + b, f) + f(n)
  {
    SumAppend(a + [n], b, f);
    SumAppend(a, b, f);
    SumOneMore(a, n, f);
  }

  /** A cluster of nothing counts nothing and is not healthy. */
  lemma NothingToSumUp()
    ensures var s := SummaryOf([], [], []);
            && s.frontendTotal == s.frontendAlive == s.backendTotal == s.backendAlive == s.computeTotal == s.computeAlive == 0
            && s.electableTotal == s.electableAlive == 0 && s.tabletTotal == 0 && s.leaderHost == ""
            && !s.quorumHealthy && !s.healthy && s.maxJournalLag.None? && !s.clusterIdMismatch
  {
  }

  /**
   What one more frontend adds, wherever it stands: itself, if it is alive one of the living, and only as
   a leader or follower one of those that make the quorum. Backends and compute nodes are not affected.
   */
  lemma OneMoreFrontend(a: seq<Node>, n: Node, b: seq<Node>, be: seq<Node>, cn: seq<Node>)
    ensures var before, after := SummaryOf(a + b, be, cn), SummaryOf(a + [n] + b, be, cn);
            var electable := n.role == "LEADER" || n.role == "FOLLOWER";
            && after.frontendTotal == before.frontendTotal + 1
            && after.frontendAlive == before.frontendAlive + (if n.alive then 1 else 0)
            && after.electableTotal == before.electableTotal + (if electable then 1 else 0)
            && after.electableAlive == before.electableAlive + (if electable && n.alive then 1 else 0)
            && (!electable ==> after.quorumHealthy == before.quorumHealthy)
            && after.backendTotal == before.backendTotal && after.backendAlive == before.backendAlive
            && after.computeTotal == before.computeTotal && after.computeAlive == before.computeAlive
            && after.tabletTotal == before.tabletTotal
  {
    CountInserted(a, n, b, IsAlive);
    CountInserted(a, n, b, IsElectable);
    CountInserted(a, n, b, CanVote);
  }

  /** One more backend adds itself, if it is alive one of the living, and its tablets; nothing else is counted differently. */
  lemma OneMoreBackend(fe: seq<Node>, a: seq<Node>, n: Node, b: seq<Node>, cn: seq<Node>)
    ensures var before, after := SummaryOf(fe, a + b, cn), SummaryOf(fe, a + [n] + b, cn);
            after == before.(backendTotal := before.backendTotal + 1,
                             backendAlive := before.backendAlive + (if n.alive then 1 else 0),
                             tabletTotal := before.tabletTotal + n.tabletNum.GetOr(0),
                             healthy := after.healthy)
  {
    CountInserted(a, n, b, IsAlive);
    SumInserted(a, n, b, TabletsOn);
  }

  lemma OneMoreComputeNode(fe: seq<Node>, be: seq<Node>, a: seq<Node>, n: Node, b: seq<Node>)
    ensures var before, after := SummaryOf(fe, be, a + b), SummaryOf(fe, be, a + [n] + b);
            after == before.(computeTotal := before.computeTotal + 1,
                             computeAlive := before.computeAlive + (if n.alive then 1 else 0),
                             tabletTotal := before.tabletTotal + n.tabletNum.GetOr(0),
                             healthy := after.healthy)
  {
    CountInserted(a, n, b, IsAlive);
    SumInserted(a, n, b, TabletsOn);
  }

  lemma {:induction false} HostIsUnmoved(a: seq<Node>, n: Node, b: seq<Node>)
    requires !n.alive || n.role != "LEADER"
    ensures LeaderHost(a + [n] + b) == LeaderHost(a + b)
    decreases |b|
  {
    if b == [] {
      assert a + [n] + b == a + [n] && a + b == a && (a + [n])[..|a|] == a;
    } else {
      HostIsUnmoved(a, n, b[..|b| - 1]);
      AppendLast(a + [n], b);
      AppendLast(a, b);
      HostOneMore(a + [n] + b[..|b| - 1], b[|b| - 1]);
      HostOneMore(a + b[..|b| - 1], b[|b| - 1]);
    }
  }

  lemma HostOneMore(frontends: seq<Node>, last: Node)
    ensures LeaderHost(frontends + [last]) == if last.alive && last.role == "LEADER" then last.host else LeaderHost(frontends)
  {
    assert (frontends + [last])[..|frontends|] == frontends;
  }

  /** Only a live leader can be named, and the last one is. */
  lemma OnlyLiveLeadersAreNamed(a: seq<Node>, n: Node, b: seq<Node>, be: seq<Node>, cn: seq<Node>)
    ensures !n.alive || n.role != "LEADER" ==> SummaryOf(a + [n] + b, be, cn).leaderHost == SummaryOf(a + b, be, cn).leaderHost
    ensures n.alive && n.role == "LEADER" ==> SummaryOf(a + [n], be, cn).leaderHost == n.host
  {
    HostOneMore(a, n);
    if !n.alive || n.role != "LEADER" {
      HostIsUnmoved(a, n, b);
    }
  }

  // ----- Journal lag -----

  /** The journal position of the first live leader that reports one. */
  function LeaderJournal(frontends: seq<Node>): Option<int> {
    if frontends == [] then None
    else if LiveLeader(frontends[0]) && frontends[0].replayed.Some? then frontends[0].replayed
    else LeaderJournal(frontends[1..])
  }

  function WithLag(n: Node, leader: int): Node {
    if n.replayed.None? then n
    else n.(journalLag := Some(if leader - n.replayed.value > 0 then leader - n.replayed.value else 0))
  }

  function Lagged(frontends: seq<Node>): (lagged: seq<Node>)
    ensures |lagged| == |frontends|
  {
    var leader := LeaderJournal(frontends);
    if leader.None? then frontends
    else seq(|frontends|, i requires 0 <= i < |frontends| => WithLag(frontends[i], leader.value))
  }

  /** Fills in every lag in place, or leaves the frontends alone when no live leader reports a position. */
  method ApplyJournalLag(frontends: array<Node>)
    modifies frontends
    ensures frontends[..] == Lagged(old(frontends[..]))
  {
    var leader: Option<int> := None;
    ghost var before := frontends[..];
    var k := 0;
    while k < frontends.Length && leader.None?
      invariant k <= frontends.Length
      invariant LeaderJournal(before) == if leader.Some? then leader else LeaderJournal(before[k..])
    {
      assert before[k..][1..] == before[k + 1..];
      if frontends[k].role == LEADER && frontends[k].alive && frontends[k].replayed.Some? {
        leader := frontends[k].replayed;
      }
      k := k + 1;
    }
    if leader.None? {
      return;
    }
    for i := 0 to frontends.Length
      invariant forall j :: 0 <= j < i ==> frontends[j] == WithLag(before[j], leader.value)
      invariant forall j :: i <= j < frontends.Length ==> frontends[j] == before[j]
    {
      var journal := frontends[i].replayed;
      if journal.Some? {
        var lag := leader.value - journal.value;
        frontends[i] := frontends[i].(journalLag := Some(if lag > 0 then lag else 0));
      }
    }
  }

  /** The leader that lags are measured against: the first live one that reports a position. */
  ghost predicate IsMeasured(frontends: seq<Node>, k: int) {
    && 0 <= k < |frontends| && LiveLeader(frontends[k]) && frontends[k].replayed.Some?
    && forall j :: 0 <= j < k ==> !(LiveLeader(frontends[j]) && frontends[j].replayed.Some?)
  }

  lemma {:induction false} MeasuredIsUsed(frontends: seq<Node>, k: int)
    requires IsMeasured(frontends, k)
    ensures LeaderJournal(frontends) == frontends[k].replayed
  {
    if k > 0 {
      assert !(LiveLeader(frontends[0]) && frontends[0].replayed.Some?);
      MeasuredIsUsed(frontends[1..], k - 1);
    }
  }

  lemma {:induction false} SomeoneIsMeasured(frontends: seq<Node>)
    ensures LeaderJournal(frontends).Some? ==> exists k :: IsMeasured(frontends, k)
  {
    if frontends != [] {
      if LiveLeader(frontends[0]) && frontends[0].replayed.Some? {
        assert IsMeasured(frontends, 0);
      } else {
        SomeoneIsMeasured(frontends[1..]);
        if k :| IsMeasured(frontends[1..], k) {
          assert forall j :: 0 < j < |frontends| ==> frontends[j] == frontends[1..][j - 1];
          assert IsMeasured(frontends, k + 1);
        }
      }
    }
  }

  /**
   Every frontend that reports a position lags by how far it trails the first live leader that
   reports one, never less than zero; that leader itself by nothing. Nothing but the lags changes.
   */
  lemma LagTrailsTheLeader(frontends: seq<Node>, k: nat, i: nat)
    requires IsMeasured(frontends, k) && i < |frontends|
    ensures var trails := frontends[k].replayed.value - frontends[i].replayed.GetOr(0);
            Lagged(frontends)[i] ==
            if frontends[i].replayed.None? then frontends[i]
            else frontends[i].(journalLag := Some(if trails > 0 then trails else 0))
    ensures Lagged(frontends)[k].journalLag == Some(0)
  {
    MeasuredIsUsed(frontends, k);
  }

  /** Without a live leader that reports a position no lag is set. */
  lemma NoLeaderNoLag(frontends: seq<Node>)
    requires forall i :: 0 <= i < |frontends| && LiveLeader(frontends[i]) ==> frontends[i].replayed.None?
    ensures Lagged(frontends) == frontends
  {
    SomeoneIsMeasured(frontends);
  }

  // ----- Order of the rows -----

  predicate FrontendLess(a: Node, b: Node) {
    if RoleRank(a.role) != RoleRank(b.role) then RoleRank(a.role) < RoleRank(b.role) else StringLess(a.name, b.name)
  }

  predicate BackendLess(a: Node, b: Node) {
    if a.host != b.host then StringLess(a.host, b.host) else StringLess(a.id, b.id)
  }

  function RoleRank(role: string): nat {
    if role == LEADER then 0 else if role == FOLLOWER then 1 else if role == OBSERVER then 2 else 3
  }

  /** Both comparisons are orders, so sorting by them is well defined. */
  lemma ComparisonsAreOrders()
    ensures StrictWeakOrder(FrontendLess) && StrictWeakOrder(BackendLess)
  {
    forall a: Node, b: Node, c: Node
      ensures !FrontendLess(a, a) && !BackendLess(a, a)
      ensures FrontendLess(a, b) && FrontendLess(b, c) ==> FrontendLess(a, c)
      ensures !FrontendLess(a, b) && !FrontendLess(b, c) ==> !FrontendLess(a, c)
      ensures BackendLess(a, b) && BackendLess(b, c) ==> BackendLess(a, c)
      ensures !BackendLess(a, b) && !BackendLess(b, c) ==> !BackendLess(a, c)
    {
      FrontendTriple(a, b, c);
      BackendTriple(a, b, c);
    }
  }

  lemma FrontendTriple(a: Node, b: Node, c: Node)
    ensures !FrontendLess(a, a)
    ensures FrontendLess(a, b) && FrontendLess(b, c) ==> FrontendLess(a, c)
    ensures !FrontendLess(a, b) && !FrontendLess(b, c) ==> !FrontendLess(a, c)
  {
    StringLessTrichotomy(a.name, a.name);
    StringLessTransitive(a.name, b.name, c.name);
  }

  lemma BackendTriple(a: Node, b: Node, c: Node)
    ensures !BackendLess(a, a)
    ensures BackendLess(a, b) && BackendLess(b, c) ==> BackendLess(a, c)
    ensures !BackendLess(a, b) && !BackendLess(b, c) ==> !BackendLess(a, c)
  {
    StringLessTrichotomy(a.id, a.id);
    StringLessTransitive(a.id, b.id, c.id);
    StringLessTransitive(a.host, b.host, c.host);
    StringLessTrichotomy(a.host, b.host);
    StringLessTrichotomy(b.host, c.host);
    StringLessTrichotomy(b.host, a.host);
    StringLessTransitive(c.host, b.host, a.host);
    StringLessTransitive(b.host, a.host, b.host);
    StringLessTransitive(c.host, b.host, c.host);
  }

  /** The leader the summary names: the last live one. */
  ghost predicate IsNamed(frontends: seq<Node>, k: int) {
    && 0 <= k < |frontends| && LiveLeader(frontends[k])
    && forall j :: k < j < |frontends| ==> !LiveLeader(frontends[j])
  }

  lemma {:induction false} NamedIsShown(frontends: seq<Node>, k: int)
    requires IsNamed(frontends, k)
    ensures LeaderHost(frontends) == frontends[k].host
  {
    if k < |frontends| - 1 {
      assert !LiveLeader(frontends[|frontends| - 1]);
      NamedIsShown(frontends[..|frontends| - 1], k);
    }
  }

  lemma {:induction false} SomeoneIsNamed(frontends: seq<Node>)
    ensures if forall n :: n in frontends ==> !LiveLeader(n) then LeaderHost(frontends) == ""
            else exists k :: IsNamed(frontends, k)
  {
    if frontends != [] {
      var n := |frontends| - 1;
      if LiveLeader(frontends[n]) {
        assert IsNamed(frontends, n) && frontends[n] in frontends;
      } else {
        SomeoneIsNamed(frontends[..n]);
        assert frontends == frontends[..n] + [frontends[n]];
        if k :| IsNamed(frontends[..n], k) {
          assert IsNamed(frontends, k);
        }
      }
    }
  }

  lemma {:induction false} ClusterIdsAre(frontends: seq<Node>)
    ensures forall n :: n in frontends && n.clusterId != "" ==> n.clusterId in ClusterIds(frontends)
    ensures forall id :: id in ClusterIds(frontends) ==> exists n :: n in frontends && n.clusterId == id && id != ""
  {
    if frontends != [] {
      var n := |frontends| - 1;
      ClusterIdsAre(frontends[..n]);
      assert frontends == frontends[..n] + [frontends[n]];
    }
  }

  lemma {:induction false} MaxLagIsMax(frontends: seq<Node>)
    ensures forall n :: n in frontends && LagOf(n).Some? ==> MaxLag(frontends).Some? && LagOf(n).value <= MaxLag(frontends).value
    ensures MaxLag(frontends).Some? ==> exists n :: n in frontends && LagOf(n) == MaxLag(frontends)
  {
    if frontends != [] {
      var n := |frontends| - 1;
      MaxLagIsMax(frontends[..n]);
      assert frontends == frontends[..n] + [frontends[n]];
      if MaxLag(frontends).Some? && MaxLag(frontends) != LagOf(frontends[n]) {
        var m :| m in frontends[..n] && LagOf(m) == MaxLag(frontends[..n]);
        assert m in frontends && LagOf(m) == MaxLag(frontends);
      } else if MaxLag(frontends).Some? {
        assert frontends[n] in frontends && LagOf(frontends[n]) == MaxLag(frontends);
      }
    }
  }

  /** The lag shown: the largest of those of live frontends that are not the leader, and absent when none of them has one. */
  lemma ShownLagIsOfLiveReplicas(frontends: seq<Node>, be: seq<Node>, cn: seq<Node>)
    ensures var shown := SummaryOf(frontends, be, cn).maxJournalLag;
            && (shown.Some? <==> exists n :: n in frontends && n.alive && n.role != "LEADER" && n.journalLag.Some?)
            && (shown.Some? ==>
                  && (exists n :: n in frontends && n.alive && n.role != "LEADER" && n.journalLag == shown)
                  && (forall n :: n in frontends && n.alive && n.role != "LEADER" && n.journalLag.Some? ==> n.journalLag.value <= shown.value))
  {
    MaxLagIsMax(frontends);
  }

  lemma SameElements<T>(s: seq<T>, t: seq<T>)
    requires multiset(s) == multiset(t)
    ensures forall x :: x in s <==> x in t
  {
    assert forall x :: x in s <==> x in multiset(s);
    assert forall x :: x in t <==> x in multiset(t);
  }

  /** All live leaders, if there are several, run on one host. */
  ghost predicate OneLeaderHost(frontends: seq<Node>) {
    forall m, n :: m in frontends && n in frontends && LiveLeader(m) && LiveLeader(n) ==> m.host == n.host
  }

  lemma LeaderHostForgetsOrder(s: seq<Node>, t: seq<Node>)
    requires multiset(s) == multiset(t) && OneLeaderHost(s)
    ensures LeaderHost(s) == LeaderHost(t)
  {
    SameElements(s, t);
    SomeoneIsNamed(s);
    SomeoneIsNamed(t);
    if i :| IsNamed(s, i) {
      NamedIsShown(s, i);
      assert s[i] in s && s[i] in t;
      var j :| IsNamed(t, j);
      NamedIsShown(t, j);
      assert t[j] in t && t[j] in s;
    }
  }

  lemma LastIsNamed(frontends: seq<Node>, i: nat)
    requires i < |frontends| && LiveLeader(frontends[i])
    ensures multiset(Without(frontends, i) + [frontends[i]]) == multiset(frontends)
    ensures LeaderHost(Without(frontends, i) + [frontends[i]]) == frontends[i].host
  {
    MultisetWithout(frontends, i);
  }

  lemma MaxLagForgetsOrder(s: seq<Node>, t: seq<Node>)
    requires multiset(s) == multiset(t)
    ensures MaxLag(s) == MaxLag(t)
  {
    SameElements(s, t);
    MaxLagIsMax(s);
    MaxLagIsMax(t);
  }

  lemma ClusterIdsForgetOrder(s: seq<Node>, t: seq<Node>)
    requires multiset(s) == multiset(t)
    ensures ClusterIds(s) == ClusterIds(t)
  {
    SameElements(s, t);
    ClusterIdsAre(s);
    ClusterIdsAre(t);
  }

  lemma SummaryForgetsOrder(fe: seq<Node>, fe': seq<Node>, be: seq<Node>, be': seq<Node>, cn: seq<Node>, cn': seq<Node>)
    requires multiset(fe) == multiset(fe') && multiset(be) == multiset(be') && multiset(cn) == multiset(cn')
    requires OneLeaderHost(fe)
    ensures SummaryOf(fe, be, cn) == SummaryOf(fe', be', cn')
  {
    SameSize(fe, fe');
    SameSize(be, be');
    SameSize(cn, cn');
    CountForgetsOrder(fe, fe', IsAlive);
    CountForgetsOrder(fe, fe', IsElectable);
    CountForgetsOrder(fe, fe', CanVote);
    CountForgetsOrder(be, be', IsAlive);
    CountForgetsOrder(cn, cn', IsAlive);
    SumForgetsOrder(be, be', TabletsOn);
    SumForgetsOrder(cn, cn', TabletsOn);
    LeaderHostForgetsOrder(fe, fe');
    MaxLagForgetsOrder(fe, fe');
    ClusterIdsForgetOrder(fe, fe');
  }

  /** However the three lists are arranged, they sum up to the same. */
  ghost predicate SummarizesAlike(fe: seq<Node>, be: seq<Node>, cn: seq<Node>) {
    forall fe', be', cn' :: multiset(fe') == multiset(fe) && multiset(be') == multiset(be) && multiset(cn') == multiset(cn)
                            ==> SummaryOf(fe', be', cn') == SummaryOf(fe, be, cn)
  }

  /** Summing up forgets the order of the nodes exactly when all live leaders run on one host. */
  lemma SummarizesAlikeIffOneLeaderHost(fe: seq<Node>, be: seq<Node>, cn: seq<Node>)
    ensures SummarizesAlike(fe, be, cn) <==> OneLeaderHost(fe)
  {
    if OneLeaderHost(fe) {
      forall fe', be', cn' | multiset(fe') == multiset(fe) && multiset(be') == multiset(be) && multiset(cn') == multiset(cn)
        ensures SummaryOf(fe', be', cn') == SummaryOf(fe, be, cn)
      {
        SummaryForgetsOrder(fe, fe', be, be', cn, cn');
      }
    } else {
      var m, n :| m in fe && n in fe && LiveLeader(m) && LiveLeader(n) && m.host != n.host;
      var i :| 0 <= i < |fe| && fe[i] == m;
      var j :| 0 <= j < |fe| && fe[j] == n;
      LastIsNamed(fe, i);
      LastIsNamed(fe, j);
      assert SummaryOf(Without(fe, i) + [m], be, cn) != SummaryOf(Without(fe, j) + [n], be, cn);
    }
  }

  // ----- The whole topology -----

  function TopologyOf(frontends: seq<Node>, backends: seq<Node>, computeNodes: seq<Node>): Topology {
    var fe := Lagged(StableSort(frontends, FrontendLess));
    var be, cn := StableSort(backends, BackendLess), StableSort(computeNodes, BackendLess);
    Topology(SummaryOf(fe, be, cn), fe, be, cn)
  }

  lemma FrontendTies(a: Node, b: Node)
    ensures Tied(a, b, FrontendLess) <==> RoleRank(a.role) == RoleRank(b.role) && a.name == b.name
  {
    StringLessTrichotomy(a.name, b.name);
  }

  lemma BackendTies(a: Node, b: Node)
    ensures Tied(a, b, BackendLess) <==> a.host == b.host && a.id == b.id
  {
    StringLessTrichotomy(a.host, b.host);
    StringLessTrichotomy(a.id, b.id);
  }

  /** No two different frontends share rank and name. */
  ghost predicate DistinctFrontends(nodes: seq<Node>) {
    forall m, n :: m in nodes && n in nodes && RoleRank(m.role) == RoleRank(n.role) && m.name == n.name ==> m == n
  }

  /** No two different backends share host and id. */
  ghost predicate DistinctBackends(nodes: seq<Node>) {
    forall m, n :: m in nodes && n in nodes && m.host == n.host && m.id == n.id ==> m == n
  }

  lemma FrontendsSortAlike(nodes: seq<Node>)
    ensures SortsAlike(nodes, FrontendLess) <==> DistinctFrontends(nodes)
  {
    ComparisonsAreOrders();
    SortsAlikeIffNoTies(nodes, FrontendLess);
    forall m, n | m in nodes && n in nodes
      ensures Tied(m, n, FrontendLess) <==> RoleRank(m.role) == RoleRank(n.role) && m.name == n.name
    {
      FrontendTies(m, n);
    }
  }

  lemma BackendsSortAlike(nodes: seq<Node>)
    ensures SortsAlike(nodes, BackendLess) <==> DistinctBackends(nodes)
  {
    ComparisonsAreOrders();
    SortsAlikeIffNoTies(nodes, BackendLess);
    forall m, n | m in nodes && n in nodes
      ensures Tied(m, n, BackendLess) <==> m.host == n.host && m.id == n.id
    {
      BackendTies(m, n);
    }
  }

  /** As nodes come from their rows. */
  ghost predicate Unlagged(nodes: seq<Node>) {
    forall n :: n in nodes ==> n.journalLag.None?
  }

  lemma SortingStaysUnlagged(nodes: seq<Node>)
    requires Unlagged(nodes)
    ensures Unlagged(StableSort(nodes, FrontendLess))
  {
    StableSortSorts(nodes, FrontendLess);
    SameElements(nodes, StableSort(nodes, FrontendLess));
  }

  /** What was filled in can be taken out again. */
  lemma LaggedIsInjective(s: seq<Node>, t: seq<Node>)
    requires Unlagged(s) && Unlagged(t) && Lagged(s) == Lagged(t)
    ensures s == t
  {
    assert |s| == |Lagged(s)| == |t|;
    forall i | 0 <= i < |s|
      ensures s[i] == t[i]
    {
      assert s[i] in s && t[i] in t;
      assert Lagged(s)[i].(journalLag := None) == s[i];
      assert Lagged(t)[i].(journalLag := None) == t[i];
    }
  }

  /** However the rows arrive, the topology built from them is the same. */
  ghost predicate BuildsAlike(fe: seq<Node>, be: seq<Node>, cn: seq<Node>) {
    forall fe', be', cn' :: multiset(fe') == multiset(fe) && multiset(be') == multiset(be) && multiset(cn') == multiset(cn)
                            ==> TopologyOf(fe', be', cn') == TopologyOf(fe, be, cn)
  }

  lemma BuildingSortsAlike(fe: seq<Node>, be: seq<Node>, cn: seq<Node>)
    requires Unlagged(fe) && BuildsAlike(fe, be, cn)
    ensures SortsAlike(fe, FrontendLess) && SortsAlike(be, BackendLess) && SortsAlike(cn, BackendLess)
  {
    forall fe' | multiset(fe') == multiset(fe)
      ensures StableSort(fe', FrontendLess) == StableSort(fe, FrontendLess)
    {
      assert TopologyOf(fe', be, cn) == TopologyOf(fe, be, cn);
      SameElements(fe, fe');
      SortingStaysUnlagged(fe);
      SortingStaysUnlagged(fe');
      LaggedIsInjective(StableSort(fe', FrontendLess), StableSort(fe, FrontendLess));
    }
    forall be' | multiset(be') == multiset(be)
      ensures StableSort(be', BackendLess) == StableSort(be, BackendLess)
    {
      assert TopologyOf(fe, be', cn) == TopologyOf(fe, be, cn);
    }
    forall cn' | multiset(cn') == multiset(cn)
      ensures StableSort(cn', BackendLess) == StableSort(cn, BackendLess)
    {
      assert TopologyOf(fe, be, cn') == TopologyOf(fe, be, cn);
    }
  }

  /**
   The topology, lags and summary included and with any number of live leaders, does not depend on
   the order of the rows exactly when no two different frontends share rank and name, and no two
   different backends or compute nodes share host and id.
   */
  lemma BuildsAlikeIffRowsAreDistinct(fe: seq<Node>, be: seq<Node>, cn: seq<Node>)
    requires Unlagged(fe)
    ensures BuildsAlike(fe, be, cn) <==> DistinctFrontends(fe) && DistinctBackends(be) && DistinctBackends(cn)
  {
    FrontendsSortAlike(fe);
    BackendsSortAlike(be);
    BackendsSortAlike(cn);
    if BuildsAlike(fe, be, cn) {
      BuildingSortsAlike(fe, be, cn);
    }
  }

  lemma LaggedKeepsTheRest(frontends: seq<Node>, i: nat)
    requires i < |frontends|
    ensures Lagged(frontends)[i].(journalLag := None) == frontends[i].(journalLag := None)
  {
  }

  lemma RanksInOrder(a: Node, b: Node)
    requires !FrontendLess(b, a)
    ensures b.role == "LEADER" ==> a.role == "LEADER"
    ensures b.role == "FOLLOWER" ==> a.role in {"LEADER", "FOLLOWER"}
    ensures b.role == "OBSERVER" ==> a.role in {"LEADER", "FOLLOWER", "OBSERVER"}
    ensures a.role == b.role ==> !StringLess(b.name, a.name)
  {
  }

  /** The frontends are shown leader first, then followers, then observers, then any others, each kind by name; the other lists by host, then id. */
  lemma ShownInOrder(fe: seq<Node>, be: seq<Node>, cn: seq<Node>, i: nat, j: nat)
    ensures var t := TopologyOf(fe, be, cn);
            && |t.frontends| == |fe| && |t.backends| == |be| && |t.computeNodes| == |cn|
            && (i < j < |fe| ==>
                  var a, b := t.frontends[i], t.frontends[j];
                  && (b.role == "LEADER" ==> a.role == "LEADER")
                  && (b.role == "FOLLOWER" ==> a.role in {"LEADER", "FOLLOWER"})
                  && (b.role == "OBSERVER" ==> a.role in {"LEADER", "FOLLOWER", "OBSERVER"})
                  && (a.role == b.role ==> !StringLess(b.name, a.name)))
            && (i < j < |be| ==>
                  var a, b := t.backends[i], t.backends[j];
                  if a.host == b.host then !StringLess(b.id, a.id) else !StringLess(b.host, a.host))
  {
    ComparisonsAreOrders();
    StableSortSorts(fe, FrontendLess);
    StableSortSorts(be, BackendLess);
    StableSortSorts(cn, BackendLess);
    var sorted := StableSort(fe, FrontendLess);
    if i < j < |fe| {
      LaggedKeepsTheRest(sorted, i);
      LaggedKeepsTheRest(sorted, j);
      RanksInOrder(sorted[i], sorted[j]);
    }
    if i < j < |be| {
      assert !BackendLess(StableSort(be, BackendLess)[j], StableSort(be, BackendLess)[i]);
    }
  }

  // ----- Several live leaders -----

  /** The lags are the distances behind this leader, or none if it reports no position. */
  predicate LagsAreBehind(frontends: seq<Node>, leader: Node) {
    Lagged(frontends) ==
    if leader.replayed.None? then frontends else LagsBehind(frontends, leader.replayed.value)
  }

  lemma {:induction false} NobodyIsMeasured(frontends: seq<Node>, k: nat)
    requires LeaderJournal(frontends).None? && k < |frontends| && LiveLeader(frontends[k])
    ensures frontends[k].replayed.None?
  {
    if k > 0 {
      NobodyIsMeasured(frontends[1..], k - 1);
    }
  }

  function LagsBehind(frontends: seq<Node>, position: int): (lagged: seq<Node>)
    ensures |lagged| == |frontends| && forall i :: 0 <= i < |frontends| ==> lagged[i] == WithLag(frontends[i], position)
  {
    seq(|frontends|, i requires 0 <= i < |frontends| => WithLag(frontends[i], position))
  }

  /** Lags measured against two of the frontends differ as soon as their positions do. */
  lemma PositionsShow(frontends: seq<Node>, j: nat, k: nat)
    requires j < |frontends| && k < |frontends| && frontends[j].replayed.Some? && frontends[k].replayed.Some?
    requires LagsBehind(frontends, frontends[j].replayed.value) == LagsBehind(frontends, frontends[k].replayed.value)
    ensures frontends[j].replayed == frontends[k].replayed
  {
    var p, q := frontends[j].replayed.value, frontends[k].replayed.value;
    assert WithLag(frontends[j], p) == WithLag(frontends[j], q);
    assert WithLag(frontends[k], p) == WithLag(frontends[k], q);
  }

  lemma LagsAreBehindIff(frontends: seq<Node>, k: nat)
    requires Unlagged(frontends) && k < |frontends| && LiveLeader(frontends[k])
    ensures LagsAreBehind(frontends, frontends[k]) <==> LeaderJournal(frontends) == frontends[k].replayed
  {
    if LeaderJournal(frontends).None? {
      NobodyIsMeasured(frontends, k);
    } else {
      SomeoneIsMeasured(frontends);
      var j :| IsMeasured(frontends, j);
      MeasuredIsUsed(frontends, j);
      assert Lagged(frontends) == LagsBehind(frontends, frontends[j].replayed.value);
      assert frontends[j] in frontends && Lagged(frontends)[j].journalLag.Some?;
      assert Lagged(frontends) != frontends;
      if LagsAreBehind(frontends, frontends[k]) {
        PositionsShow(frontends, j, k);
      }
    }
  }

  /**
   The leader the summary names is the one the lags are measured against, as far as anyone can see,
   exactly when the first live leader that reports a position reports the same one as the last live leader.
   */
  lemma NamedLeaderIsMeasuredIff(frontends: seq<Node>, k: nat)
    requires Unlagged(frontends) && IsNamed(frontends, k)
    ensures LagsAreBehind(frontends, frontends[k]) <==>
            forall j :: IsMeasured(frontends, j) ==> frontends[j].replayed == frontends[k].replayed
  {
    LagsAreBehindIff(frontends, k);
    if LeaderJournal(frontends).None? {
      NobodyIsMeasured(frontends, k);
    } else {
      SomeoneIsMeasured(frontends);
    }
    forall j | IsMeasured(frontends, j)
      ensures LeaderJournal(frontends) == frontends[j].replayed
    {
      MeasuredIsUsed(frontends, j);
    }
  }

  /** Two live leaders at different positions: whichever row comes first, the summary names the second by name while lags are measured against the first. */
  lemma TwoLeadersDisagree(a: Node, b: Node, rows: seq<Node>)
    requires LiveLeader(a) && LiveLeader(b) && StringLess(a.name, b.name)
    requires a.journalLag.None? && b.journalLag.None?
    requires a.replayed.Some? && b.replayed.Some? && a.replayed != b.replayed
    requires rows == [a, b] || rows == [b, a]
    ensures var t := TopologyOf(rows, [], []);
            && t.frontends == Lagged([a, b]) && t.summary.leaderHost == b.host
            && LagsAreBehind([a, b], a) && !LagsAreBehind([a, b], b)
  {
    StringLessTransitive(a.name, b.name, a.name);
    StringLessTrichotomy(a.name, a.name);
    SortPair(a, b, FrontendLess);
    assert IsMeasured([a, b], 0) && IsNamed([a, b], 1);
    MeasuredIsUsed([a, b], 0);
    NamedIsShown(Lagged([a, b]), 1);
    NamedLeaderIsMeasuredIff([a, b], 1);
  }

  // ----- Tablets -----

  function TabletsIfAlive(n: Node): int { if n.alive then TabletsOn(n) else 0 }
  function TabletsIfDead(n: Node): int { if n.alive then 0 else TabletsOn(n) }

  lemma {:induction false} TabletsSplit(nodes: seq<Node>)
    ensures Sum(nodes, TabletsOn) == Sum(nodes, TabletsIfAlive) + Sum(nodes, TabletsIfDead)
  {
    if nodes != [] {
      TabletsSplit(nodes[..|nodes| - 1]);
    }
  }

  /** The tablet total is that of the live nodes exactly when the tablets of the dead ones add up to nothing. */
  lemma TabletTotalIsLiveIff(fe: seq<Node>, be: seq<Node>, cn: seq<Node>)
    ensures SummaryOf(fe, be, cn).tabletTotal == Sum(be, TabletsIfAlive) + Sum(cn, TabletsIfAlive) <==>
            Sum(be, TabletsIfDead) + Sum(cn, TabletsIfDead) == 0
  {
    TabletsSplit(be);
    TabletsSplit(cn);
  }

  /** Sort, fill in the lags, sort the rest, and sum up. */
  method BuildTopology(frontends: seq<Node>, backends: seq<Node>, computeNodes: seq<Node>) returns (t: Topology)
    ensures t == TopologyOf(frontends, backends, computeNodes)
    ensures t.summary == SummaryOf(t.frontends, t.backends, t.computeNodes)
  {
    var sorted := StableSort(frontends, FrontendLess);
    var a := new Node[|sorted|](i requires 0 <= i < |sorted| => sorted[i]);
    assert a[..] == sorted;
    ApplyJournalLag(a);
    var be, cn := StableSort(backends, BackendLess), StableSort(computeNodes, BackendLess);
    var summary := Summarize(a[..], be, cn);
    t := Topology(summary, a[..], be, cn);
  }
}
