/** The cluster alert rules (backend/internal/service/cluster_alerts.go). */
module ClusterAlerts {
  import opened Wrappers
  import opened Totals
  import opened Topology
  import opened AlertFindings
  import AlertManager

  const NODE_DOWN := "cluster_node_down"
  const NO_LEADER := "cluster_no_leader"
  const QUORUM_LOST := "cluster_quorum_lost"
  const ID_MISMATCH := "cluster_id_mismatch"
  const JOURNAL_LAG := "fe_journal_lag"
  const NO_COMPUTE_CAPACITY := "cluster_no_compute_capacity"

  datatype ClusterPolicy = ClusterPolicy(maxJournalLag: int)

  function KindName(kind: NodeType): string {
    match kind
    case FE => "FE"
    case BE => "BE"
    case CN => "CN"
  }

  function Plain(rule: string): Finding {
    Finding(rule, rule, AlertManager.Critical, map[])
  }

  function Down(n: Node): Finding {
    Finding(NODE_DOWN + "|" + n.id, NODE_DOWN, AlertManager.Critical,
            map["node" := n.name, "host" := n.host, "type" := KindName(n.kind), "role" := n.role])
  }

  function Lagging(n: Node): Finding {
    Finding(JOURNAL_LAG + "|" + n.id, JOURNAL_LAG, AlertManager.Warning,
            map["node" := n.name, "host" := n.host, "role" := n.role])
  }

  /** Findings about the summary as a whole: leadership or quorum, identity, capacity. */
  function Overall(s: Summary): seq<Finding> {
    (if s.leaderHost == "" then [Plain(NO_LEADER)]
     else if !s.quorumHealthy then [Plain(QUORUM_LOST).(labels := map["leader" := s.leaderHost])]
     else []) +
    (if s.clusterIdMismatch then [Plain(ID_MISMATCH)] else []) +
    (if s.backendTotal + s.computeTotal > 0 && s.backendAlive + s.computeAlive == 0 then [Plain(NO_COMPUTE_CAPACITY)] else [])
  }

  predicate IsDead(n: Node) {
    !n.alive
  }

  /** The lag rule is on, and the node, alive and no leader, is over its threshold. */
  predicate LagsOver(policy: ClusterPolicy, n: Node) {
    policy.maxJournalLag > 0 && LagOf(n).Some? && LagOf(n).value > policy.maxJournalLag
  }

  function OverLag(policy: ClusterPolicy): Node -> bool {
    (n: Node) => LagsOver(policy, n)
  }

  /** One finding for each node the rule applies to, in order. */
  function Report(nodes: seq<Node>, applies: Node -> bool, finding: Node -> Finding): seq<Finding> {
    if nodes == [] then []
    else
      var n := |nodes| - 1;
      if applies(nodes[n]) then Report(nodes[..n], applies, finding) + [finding(nodes[n])]
      else Report(nodes[..n], applies, finding)
  }

  function Downs(nodes: seq<Node>): seq<Finding> {
    Report(nodes, IsDead, Down)
  }

  function Lags(policy: ClusterPolicy, frontends: seq<Node>): seq<Finding> {
    Report(frontends, OverLag(policy), Lagging)
  }

  function Findings(policy: ClusterPolicy, t: Topology): seq<Finding> {
    Overall(t.summary) + (Downs(t.frontends) + Downs(t.backends) + Downs(t.computeNodes)) + Lags(policy, t.frontends)
  }

  class ClusterService {
    var policy: ClusterPolicy

    constructor (policy: ClusterPolicy)
      ensures this.policy == policy
    {
      this.policy := policy;
    }

    method SetAlertPolicy(policy: ClusterPolicy)
      modifies this
      ensures this.policy == policy
    {
      this.policy := policy;
    }

    method EvaluateAlerts(t: Topology) returns (alerts: seq<Finding>)
      ensures alerts == Findings(policy, t)
    {
      alerts := [];
      var s := t.summary;
      if s.leaderHost == "" {
        alerts := alerts + [Plain(NO_LEADER)];
      } else if !s.quorumHealthy {
        alerts := alerts + [Plain(QUORUM_LOST).(labels := map["leader" := s.leaderHost])];
      }
      if s.clusterIdMismatch {
        alerts := alerts + [Plain(ID_MISMATCH)];
      }
      if s.backendTotal + s.computeTotal > 0 && s.backendAlive + s.computeAlive == 0 {
        alerts := alerts + [Plain(NO_COMPUTE_CAPACITY)];
      }
      assert alerts == Overall(s);
      var down := NodeDownAlerts(t);
      var lag := JournalLagAlerts(policy, t.frontends);
      alerts := alerts + down;
      alerts := alerts + lag;
    }
  }

  method NodeDownAlerts(t: Topology) returns (alerts: seq<Finding>)
    ensures alerts == Downs(t.frontends) + Downs(t.backends) + Downs(t.computeNodes)
  {
    alerts := [];
    var groups := [t.frontends, t.backends, t.computeNodes];
    ghost var done := [[], Downs(groups[0]), Downs(groups[0]) + Downs(groups[1]),
                       Downs(groups[0]) + Downs(groups[1]) + Downs(groups[2])];
    for g := 0 to 3
      invariant alerts == done[g]
    {
      var nodes := groups[g];
      for i := 0 to |nodes|
        invariant alerts == done[g] + Downs(nodes[..i])
      {
        assert nodes[..i + 1][..i] == nodes[..i];
        if nodes[i].alive {
          continue;
        }
        alerts := alerts + [Down(nodes[i])];
      }
      assert nodes[..|nodes|] == nodes;
    }
  }

  method JournalLagAlerts(policy: ClusterPolicy, frontends: seq<Node>) returns (alerts: seq<Finding>)
    ensures alerts == Lags(policy, frontends)
  {
    alerts := [];
    if policy.maxJournalLag <= 0 {
      LagsFire(policy, frontends);
      return;
    }
    for i := 0 to |frontends|
      invariant alerts == Lags(policy, frontends[..i])
    {
      var fe := frontends[i];
      assert frontends[..i + 1][..i] == frontends[..i];
      if !fe.alive || fe.role == LEADER || fe.journalLag.None? {
        continue;
      }
      if fe.journalLag.value <= policy.maxJournalLag {
        continue;
      }
      alerts := alerts + [Lagging(fe)];
    }
    assert frontends[..|frontends|] == frontends;
  }

  // ----- The rules and the verdict agree -----

  /** The topology's summary is the one computed from its lists. */
  predicate Summarized(t: Topology) {
    t.summary == SummaryOf(t.frontends, t.backends, t.computeNodes)
  }

  lemma {:induction false} DownsAreTheDead(nodes: seq<Node>)
    ensures |Downs(nodes)| == |nodes| - Count(nodes, IsAlive)
  {
    if nodes != [] {
      DownsAreTheDead(nodes[..|nodes| - 1]);
    }
  }

  /** One node-down alert per dead node: as many as nodes in total less nodes alive, over all three lists. */
  lemma DownAlertsAreTheDead(policy: ClusterPolicy, t: Topology)
    requires Summarized(t)
    ensures var s := t.summary;
            |Downs(t.frontends) + Downs(t.backends) + Downs(t.computeNodes)| ==
            (s.frontendTotal + s.backendTotal + s.computeTotal) - (s.frontendAlive + s.backendAlive + s.computeAlive)
  {
    DownsAreTheDead(t.frontends);
    DownsAreTheDead(t.backends);
    DownsAreTheDead(t.computeNodes);
  }

  /**
   The dashboard and the alerts never disagree: a topology is healthy exactly when, the lag rule being
   off, no rule fires and there is at least one node to compute on.
   */
  lemma HealthyIffNothingFires(policy: ClusterPolicy, t: Topology)
    requires Summarized(t) && policy.maxJournalLag <= 0
    ensures t.summary.healthy <==> Findings(policy, t) == [] && |t.backends| + |t.computeNodes| > 0
  {
    DownsAreTheDead(t.frontends);
    DownsAreTheDead(t.backends);
    DownsAreTheDead(t.computeNodes);
    var downs := Downs(t.frontends) + Downs(t.backends) + Downs(t.computeNodes);
    LagsFire(policy, t.frontends);
    assert |Findings(policy, t)| == |Overall(t.summary)| + |downs|;
  }

  lemma LagsFire(policy: ClusterPolicy, frontends: seq<Node>)
    ensures Lags(policy, frontends) != [] <==> exists n :: n in frontends && LagsOver(policy, n)
  {
    ReportIs(frontends, OverLag(policy), Lagging);
    if Lags(policy, frontends) != [] {
      assert Lags(policy, frontends)[0] in Lags(policy, frontends);
    }
    if n :| n in frontends && LagsOver(policy, n) {
      assert OverLag(policy)(n) && Lagging(n) in Lags(policy, frontends);
    }
  }

  /** The lag rule fires exactly when it is on and the largest lag the dashboard shows is over its threshold. */
  lemma LagFiresIffMaxIsOver(policy: ClusterPolicy, t: Topology)
    requires Summarized(t)
    ensures Lags(policy, t.frontends) != [] <==>
            && policy.maxJournalLag > 0
            && t.summary.maxJournalLag.Some?
            && t.summary.maxJournalLag.value > policy.maxJournalLag
  {
    LagsFire(policy, t.frontends);
    MaxLagIsMax(t.frontends);
  }

  // ----- Keys -----

  lemma {:induction false} ReportAppend(a: seq<Node>, b: seq<Node>, applies: Node -> bool, finding: Node -> Finding)
    ensures Report(a + b, applies, finding) == Report(a, applies, finding) + Report(b, applies, finding)
    decreases |b|
  {
    if b == [] {
      assert a + b == a;
    } else {
      var n := |b| - 1;
      ReportAppend(a, b[..n], applies, finding);
      AppendLast(a, b);
      ReportOneMore(a + b[..n], b[n], applies, finding);
    }
  }

  lemma ReportOneMore(nodes: seq<Node>, n: Node, applies: Node -> bool, finding: Node -> Finding)
    ensures Report(nodes + [n], applies, finding) ==
            if applies(n) then Report(nodes, applies, finding) + [finding(n)] else Report(nodes, applies, finding)
  {
    assert (nodes + [n])[..|nodes|] == nodes;
  }

  lemma {:induction false} ReportIs(nodes: seq<Node>, applies: Node -> bool, finding: Node -> Finding)
    ensures forall n :: n in nodes && applies(n) ==> finding(n) in Report(nodes, applies, finding)
    ensures forall f :: f in Report(nodes, applies, finding) ==> exists n :: n in nodes && applies(n) && f == finding(n)
  {
    if nodes != [] {
      var last := |nodes| - 1;
      ReportIs(nodes[..last], applies, finding);
      assert nodes == nodes[..last] + [nodes[last]];
      forall f | f in Report(nodes, applies, finding)
        ensures exists n :: n in nodes && applies(n) && f == finding(n)
      {
        if f in Report(nodes[..last], applies, finding) {
          var n :| n in nodes[..last] && applies(n) && f == finding(n);
          assert n in nodes;
        } else {
          assert nodes[last] in nodes && f == finding(nodes[last]);
        }
      }
    }
  }

  lemma SameKeySameId(rule: string, a: string, b: string)
    ensures rule + "|" + a == rule + "|" + b <==> a == b
  {
    assert (rule + "|" + a)[|rule| + 1..] == a;
    assert (rule + "|" + b)[|rule| + 1..] == b;
  }

  lemma ApartIffOtherIds(nodes: seq<Node>, last: Node, applies: Node -> bool, finding: Node -> Finding, rule: string)
    requires forall n :: finding(n).key == rule + "|" + n.id
    ensures Apart(Report(nodes, applies, finding), [finding(last)]) <==>
            forall n :: n in nodes && applies(n) ==> n.id != last.id
  {
    ReportIs(nodes, applies, finding);
    if forall n :: n in nodes && applies(n) ==> n.id != last.id {
      forall f | f in Report(nodes, applies, finding)
        ensures f.key != finding(last).key
      {
        var n :| n in nodes && applies(n) && f == finding(n);
        SameKeySameId(rule, n.id, last.id);
      }
    } else {
      var n :| n in nodes && applies(n) && n.id == last.id;
      assert finding(n) in Report(nodes, applies, finding) && finding(n).key == finding(last).key;
      assert finding(last) in [finding(last)];
    }
  }

  lemma NoSharedIdSplits(nodes: seq<Node>, applies: Node -> bool)
    requires nodes != []
    ensures var init, last := nodes[..|nodes| - 1], nodes[|nodes| - 1];
            NoSharedId(nodes, applies) <==>
            NoSharedId(init, applies) && (applies(last) ==> forall n :: n in init && applies(n) ==> n.id != last.id)
  {
    var init, last := nodes[..|nodes| - 1], nodes[|nodes| - 1];
    if NoSharedId(nodes, applies) && applies(last) {
      forall n | n in init && applies(n)
        ensures n.id != last.id
      {
        var i :| 0 <= i < |init| && init[i] == n;
        assert nodes[i] == n;
      }
    }
    assert forall i :: 0 <= i < |init| ==> nodes[i] in init;
  }

  /** One rule's keys are distinct exactly when the nodes it applies to have distinct ids. */
  lemma {:induction false} ReportDistinctIff(nodes: seq<Node>, applies: Node -> bool, finding: Node -> Finding, rule: string)
    requires forall n :: finding(n).key == rule + "|" + n.id
    ensures DistinctKeys(Report(nodes, applies, finding)) <==> NoSharedId(nodes, applies)
  {
    if nodes != [] {
      var init, last := nodes[..|nodes| - 1], nodes[|nodes| - 1];
      ReportDistinctIff(init, applies, finding, rule);
      NoSharedIdSplits(nodes, applies);
      if applies(last) {
        ApartIffOtherIds(init, last, applies, finding, rule);
        DistinctAppend(Report(init, applies, finding), [finding(last)]);
      }
    }
  }

  /** What tells the keys of the rules apart: the first letter, and the eleventh. */
  predicate LagKey(key: string) {
    |key| > 10 && key[0] == 'f'
  }

  predicate DownKey(key: string) {
    |key| > 10 && key[0] == 'c' && key[10] == 'd' && key[8] == 'n'
  }

  predicate OverallKey(key: string) {
    |key| > 10 && key[0] == 'c' && !(key[10] == 'd' && key[8] == 'n')
  }

  lemma DownKeys(nodes: seq<Node>)
    ensures forall f :: f in Downs(nodes) ==> DownKey(f.key)
  {
    ReportIs(nodes, IsDead, Down);
    forall f | f in Downs(nodes)
      ensures DownKey(f.key)
    {
      assert f.key[0] == NODE_DOWN[0] && f.key[8] == NODE_DOWN[8] && f.key[10] == NODE_DOWN[10];
    }
  }

  lemma LagKeys(policy: ClusterPolicy, nodes: seq<Node>)
    ensures forall f :: f in Lags(policy, nodes) ==> LagKey(f.key)
  {
    ReportIs(nodes, OverLag(policy), Lagging);
    forall f | f in Lags(policy, nodes)
      ensures LagKey(f.key)
    {
      assert f.key[0] == JOURNAL_LAG[0];
    }
  }

  lemma OverallKeys(s: Summary)
    ensures DistinctKeys(Overall(s))
    ensures forall f :: f in Overall(s) ==> OverallKey(f.key)
  {
    assert NO_LEADER[10] == '_' && QUORUM_LOST[10] != 'd' && ID_MISMATCH[10] != 'd' && NO_COMPUTE_CAPACITY[10] == '_';
    assert NO_LEADER[8] == 'n' && QUORUM_LOST[8] == 'q' && ID_MISMATCH[8] == 'i' && NO_COMPUTE_CAPACITY[8] == 'n';
    assert |NO_LEADER| != |NO_COMPUTE_CAPACITY|;
  }

  function Nodes(t: Topology): seq<Node> {
    t.frontends + t.backends + t.computeNodes
  }

  lemma DownsOfAll(t: Topology)
    ensures Downs(Nodes(t)) == Downs(t.frontends) + Downs(t.backends) + Downs(t.computeNodes)
  {
    ReportAppend(t.frontends, t.backends, IsDead, Down);
    ReportAppend(t.frontends + t.backends, t.computeNodes, IsDead, Down);
  }

  lemma RulesApart(policy: ClusterPolicy, t: Topology)
    ensures Apart(Overall(t.summary), Downs(Nodes(t)))
    ensures Apart(Overall(t.summary) + Downs(Nodes(t)), Lags(policy, t.frontends))
  {
    OverallKeys(t.summary);
    DownKeys(Nodes(t));
    LagKeys(policy, t.frontends);
  }

  /**
   The alerts of one evaluation carry distinct keys, across all rules and all nodes, exactly when no
   two dead nodes share an id and no two frontends over the lag threshold do; where they do, the
   manager's deduplication silences one condition in favour of another.
   */
  lemma KeysDistinctIffNoSharedId(policy: ClusterPolicy, t: Topology)
    ensures DistinctKeys(Findings(policy, t)) <==>
            NoSharedId(Nodes(t), IsDead) && NoSharedId(t.frontends, OverLag(policy))
  {
    var overall, downs, lags := Overall(t.summary), Downs(Nodes(t)), Lags(policy, t.frontends);
    DownsOfAll(t);
    OverallKeys(t.summary);
    RulesApart(policy, t);
    DistinctAppend(overall, downs);
    DistinctAppend(overall + downs, lags);
    ReportDistinctIff(Nodes(t), IsDead, Down, NODE_DOWN);
    ReportDistinctIff(t.frontends, OverLag(policy), Lagging, JOURNAL_LAG);
  }

  ghost predicate Tagged(nodes: seq<Node>, tag: string) {
    forall i :: 0 <= i < |nodes| ==> |nodes[i].id| >= 3 && nodes[i].id[..3] == tag
  }

  /** Ids unique in each list, and prefixed with the kind of node. */
  ghost predicate WellIdentified(t: Topology) {
    && UniqueIds(t.frontends) && UniqueIds(t.backends) && UniqueIds(t.computeNodes)
    && Tagged(t.frontends, "fe:") && Tagged(t.backends, "be:") && Tagged(t.computeNodes, "cn:")
  }

  lemma UniqueAcross(a: seq<Node>, b: seq<Node>)
    requires UniqueIds(a) && UniqueIds(b)
    requires forall m, n :: m in a && n in b ==> m.id != n.id
    ensures UniqueIds(a + b)
  {
    var both := a + b;
    forall i, j | 0 <= i < j < |both|
      ensures both[i].id != both[j].id
    {
      if i < |a| <= j {
        assert a[i] in a && b[j - |a|] in b;
      }
    }
  }

  lemma TagsApart(a: seq<Node>, tag: string, b: seq<Node>, other: string)
    requires Tagged(a, tag) && Tagged(b, other) && tag != other
    ensures forall m, n :: m in a && n in b ==> m.id != n.id
  {
    assert forall m :: m in a ==> m.id[..3] == tag;
    assert forall n :: n in b ==> n.id[..3] == other;
  }

  /** So ids that are unique in each list are enough for no alert to silence another. */
  lemma KeysAreDistinct(policy: ClusterPolicy, t: Topology)
    requires WellIdentified(t)
    ensures DistinctKeys(Findings(policy, t))
  {
    TagsApart(t.frontends, "fe:", t.backends, "be:");
    TagsApart(t.frontends, "fe:", t.computeNodes, "cn:");
    TagsApart(t.backends, "be:", t.computeNodes, "cn:");
    UniqueAcross(t.frontends, t.backends);
    UniqueAcross(t.frontends + t.backends, t.computeNodes);
    KeysDistinctIffNoSharedId(policy, t);
  }

  // ----- What the rules about the whole cluster mean -----

  ghost predicate Fires(findings: seq<Finding>, rule: string) {
    exists f :: f in findings && f.key == rule
  }

  lemma OnlyOverallFires(policy: ClusterPolicy, t: Topology, rule: string)
    requires OverallKey(rule)
    ensures Fires(Findings(policy, t), rule) <==> Fires(Overall(t.summary), rule)
  {
    DownsOfAll(t);
    DownKeys(Nodes(t));
    LagKeys(policy, t.frontends);
    if f :| f in Overall(t.summary) && f.key == rule {
      assert f in Findings(policy, t);
    }
  }

  lemma OverallRules(s: Summary)
    ensures Fires(Overall(s), NO_LEADER) <==> s.leaderHost == ""
    ensures Fires(Overall(s), QUORUM_LOST) <==> s.leaderHost != "" && !s.quorumHealthy
    ensures Fires(Overall(s), ID_MISMATCH) <==> s.clusterIdMismatch
    ensures Fires(Overall(s), NO_COMPUTE_CAPACITY) <==>
            s.backendTotal + s.computeTotal > 0 && s.backendAlive + s.computeAlive == 0
  {
    RulesDiffer();
    var overall := Overall(s);
    if s.leaderHost == "" {
      assert overall[0].key == NO_LEADER;
    } else if !s.quorumHealthy {
      assert overall[0].key == QUORUM_LOST;
    }
    if s.clusterIdMismatch {
      assert Plain(ID_MISMATCH) in overall;
    }
    if s.backendTotal + s.computeTotal > 0 && s.backendAlive + s.computeAlive == 0 {
      assert Plain(NO_COMPUTE_CAPACITY) in overall;
    }
  }

  lemma RulesDiffer()
    ensures |{NO_LEADER, QUORUM_LOST, ID_MISMATCH, NO_COMPUTE_CAPACITY}| == 4
    ensures OverallKey(NO_LEADER) && OverallKey(QUORUM_LOST) && OverallKey(ID_MISMATCH) && OverallKey(NO_COMPUTE_CAPACITY)
  {
    assert |NO_LEADER| == 17 && |NO_COMPUTE_CAPACITY| == 27;
    assert NO_LEADER[8] == 'n' && QUORUM_LOST[8] == 'q' && ID_MISMATCH[8] == 'i' && NO_COMPUTE_CAPACITY[8] == 'n';
    assert NO_LEADER[10] == '_' && NO_COMPUTE_CAPACITY[10] == '_';
  }

  lemma {:induction false} NoneAlive(nodes: seq<Node>)
    ensures Count(nodes, IsAlive) == 0 <==> forall n :: n in nodes ==> !n.alive
  {
    if nodes != [] {
      var last := |nodes| - 1;
      NoneAlive(nodes[..last]);
      assert nodes == nodes[..last] + [nodes[last]];
      assert nodes[last] in nodes;
    }
  }

  lemma TwoElements<T>(s: set<T>)
    ensures |s| > 1 <==> exists x, y :: x in s && y in s && x != y
  {
    if s != {} {
      var x :| x in s;
      if s - {x} != {} {
        var y :| y in s - {x};
        assert |s - {x}| > 0;
      } else {
        assert s == {x};
      }
    }
  }

  /** There is a live leader, and the last one has a known host. */
  ghost predicate HasLeader(frontends: seq<Node>) {
    exists k :: IsNamed(frontends, k) && frontends[k].host != ""
  }

  lemma LeaderIsNamed(frontends: seq<Node>)
    ensures LeaderHost(frontends) != "" <==> HasLeader(frontends)
  {
    SomeoneIsNamed(frontends);
    forall k | IsNamed(frontends, k)
      ensures frontends[k].host == LeaderHost(frontends)
    {
      NamedIsShown(frontends, k);
    }
  }

  lemma MismatchIsSeen(frontends: seq<Node>)
    ensures |ClusterIds(frontends)| > 1 <==>
            exists m, n :: m in frontends && n in frontends && m.clusterId != "" && n.clusterId != "" && m.clusterId != n.clusterId
  {
    ClusterIdsAre(frontends);
    TwoElements(ClusterIds(frontends));
    if x, y :| x in ClusterIds(frontends) && y in ClusterIds(frontends) && x != y {
      var m :| m in frontends && m.clusterId == x && x != "";
      var n :| n in frontends && n.clusterId == y && y != "";
    }
  }

  /**
   Each rule about the whole cluster, in terms of the nodes: no live leader, or none with a known host; a
   leader, but no strict majority of the electable frontends alive; two frontends that name different
   clusters; and nothing alive to compute on where something is registered.
   */
  lemma RulesMeanWhatTheySay(policy: ClusterPolicy, t: Topology)
    requires Summarized(t)
    ensures Fires(Findings(policy, t), NO_LEADER) <==> !HasLeader(t.frontends)
    ensures Fires(Findings(policy, t), QUORUM_LOST) <==>
            HasLeader(t.frontends) && 2 * Count(t.frontends, CanVote) <= Count(t.frontends, IsElectable)
    ensures Fires(Findings(policy, t), ID_MISMATCH) <==>
            exists m, n :: m in t.frontends && n in t.frontends && m.clusterId != "" && n.clusterId != "" && m.clusterId != n.clusterId
    ensures Fires(Findings(policy, t), NO_COMPUTE_CAPACITY) <==>
            && t.backends + t.computeNodes != []
            && forall n :: n in t.backends || n in t.computeNodes ==> !n.alive
  {
    RulesDiffer();
    OnlyOverallFires(policy, t, NO_LEADER);
    OnlyOverallFires(policy, t, QUORUM_LOST);
    OnlyOverallFires(policy, t, ID_MISMATCH);
    OnlyOverallFires(policy, t, NO_COMPUTE_CAPACITY);
    OverallRules(t.summary);
    LeaderIsNamed(t.frontends);
    QuorumIsStrictMajority(t.frontends, t.backends, t.computeNodes);
    MismatchIsSeen(t.frontends);
    NoneAlive(t.backends);
    NoneAlive(t.computeNodes);
  }

  // ----- What a finding tells -----

  /** A finding is under its rule's key, alone or with the id of a node; all are critical but a lagging journal. */
  predicate IsProper(f: Finding) {
    && f.ruleId in {"cluster_node_down", "cluster_no_leader", "cluster_quorum_lost", "cluster_id_mismatch", "fe_journal_lag",
                    "cluster_no_compute_capacity"}
    && (f.key == f.ruleId || f.ruleId + "|" <= f.key)
    && f.severity == if f.ruleId == "fe_journal_lag" then AlertManager.Warning else AlertManager.Critical
  }

  lemma DownIsProper(n: Node)
    ensures IsProper(Down(n)) && IsProper(Lagging(n))
    ensures Down(n).key == "cluster_node_down|" + n.id && Lagging(n).key == "fe_journal_lag|" + n.id
  {
    assert "cluster_node_down|" == NODE_DOWN + "|";
    assert "fe_journal_lag|" == JOURNAL_LAG + "|";
  }

  lemma FindingsAreProper(policy: ClusterPolicy, t: Topology)
    ensures forall f :: f in Findings(policy, t) ==> IsProper(f)
  {
    DownsOfAll(t);
    ReportIs(Nodes(t), IsDead, Down);
    ReportIs(t.frontends, OverLag(policy), Lagging);
    forall f | f in Findings(policy, t)
      ensures IsProper(f)
    {
      if f in Downs(Nodes(t)) {
        var n :| n in Nodes(t) && f == Down(n);
        DownIsProper(n);
      } else if f in Lags(policy, t.frontends) {
        var n :| n in t.frontends && f == Lagging(n);
        DownIsProper(n);
      } else {
        assert f in Overall(t.summary);
      }
    }
  }

  /** Each dead node is reported with its own name, host and role, and each frontend over the lag threshold with its own. */
  lemma FindingsNameTheirNodes(policy: ClusterPolicy, t: Topology, n: Node)
    ensures n in Nodes(t) && !n.alive ==>
              exists f :: f in Findings(policy, t) && f.ruleId == "cluster_node_down"
                          && f.labels == map["node" := n.name, "host" := n.host, "type" := KindName(n.kind), "role" := n.role]
    ensures n in t.frontends && n.alive && n.role != "LEADER" && n.journalLag.Some?
            && policy.maxJournalLag > 0 && n.journalLag.value > policy.maxJournalLag ==>
              exists f :: f in Findings(policy, t) && f.ruleId == "fe_journal_lag"
                          && f.labels == map["node" := n.name, "host" := n.host, "role" := n.role]
  {
    DownsOfAll(t);
    ReportIs(Nodes(t), IsDead, Down);
    ReportIs(t.frontends, OverLag(policy), Lagging);
    if n in Nodes(t) && !n.alive {
      assert IsDead(n) && Down(n) in Findings(policy, t);
    }
    if n in t.frontends && LagsOver(policy, n) {
      assert OverLag(policy)(n) && Lagging(n) in Findings(policy, t);
    }
  }
}
