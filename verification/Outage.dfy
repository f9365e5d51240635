/**
 From a dead node to its notifications: the cluster rules
 (backend/internal/service/cluster_alerts.go:124-158) next to the routine load rules
 (backend/cmd/server/main.go:124-127), the evaluation loop (backend/internal/alert/poller.go:47-81)
 and the cooldown (backend/internal/alert/manager.go:81-95) together.
 */
module Outage {
  import opened Wrappers
  import opened Totals
  import opened AlertManager
  import opened AlertCooldown
  import opened AlertPoller
  import opened Topology
  import opened AlertFindings
  import opened ClusterAlerts
  import opened RoutineLoadAlerts

  function DeadAs(id: string): Node -> bool {
    (n: Node) => !n.alive && n.id == id
  }

  /** How many registered nodes with this id are dead. */
  function DeadCount(t: Topology, id: string): nat {
    Count(Nodes(t), DeadAs(id))
  }

  /** A registered node with this id is dead. */
  ghost predicate Dead(t: Topology, id: string) {
    exists n :: n in Nodes(t) && n.id == id && !n.alive
  }

  function KeyFor(id: string): string {
    NODE_DOWN + "|" + id
  }

  /** A way to put findings into words that leaves their keys alone. */
  ghost predicate KeepsKeys(word: Finding -> Alert) {
    forall f :: word(f).key == f.key
  }

  lemma {:induction false} TimesAppend(a: seq<Alert>, b: seq<Alert>, key: string)
    ensures Times(a + b, key) == Times(a, key) + Times(b, key)
    decreases |b|
  {
    if b == [] {
      assert a + b == a;
    } else {
      TimesAppend(a, b[..|b| - 1], key);
      AppendLast(a, b);
      TimesOneMore(a + b[..|b| - 1], b[|b| - 1], key);
    }
  }

  lemma TimesOneMore(alerts: seq<Alert>, last: Alert, key: string)
    ensures Times(alerts + [last], key) == Times(alerts, key) + if last.key == key then 1 else 0
  {
    assert (alerts + [last])[..|alerts|] == alerts;
  }

  lemma {:induction false} DownsReport(nodes: seq<Node>, word: Finding -> Alert, id: string)
    requires KeepsKeys(word)
    ensures Times(Map(Downs(nodes), word), KeyFor(id)) == Count(nodes, DeadAs(id))
  {
    if nodes != [] {
      var n := |nodes| - 1;
      DownsReport(nodes[..n], word, id);
      if !nodes[n].alive {
        MapOneMore(Downs(nodes[..n]), Down(nodes[n]), word);
        TimesOneMore(Map(Downs(nodes[..n]), word), word(Down(nodes[n])), KeyFor(id));
        SameKeySameId(NODE_DOWN, nodes[n].id, id);
      }
    }
  }

  lemma OtherKeys(findings: seq<Finding>, word: Finding -> Alert, key: string)
    requires KeepsKeys(word) && forall f :: f in findings ==> f.key != key
    ensures Times(Map(findings, word), key) == 0
  {
    var alerts := Map(findings, word);
    forall i | 0 <= i < |alerts|
      ensures alerts[i].key != key
    {
      assert findings[i] in findings && alerts[i].key == findings[i].key;
    }
    TimesNone(alerts, key);
  }

  lemma MapAppend<T, U>(a: seq<T>, b: seq<T>, f: T -> U)
    ensures Map(a + b, f) == Map(a, f) + Map(b, f)
  {
  }

  lemma KeyForIsDown(id: string)
    ensures DownKey(KeyFor(id))
  {
    var key := KeyFor(id);
    assert key[0] == NODE_DOWN[0] && key[8] == NODE_DOWN[8] && key[10] == NODE_DOWN[10];
  }

  /** The cluster rules report a key of a node once for each dead node with that id, and no other rule uses it. */
  lemma FoundPerDeadNode(policy: ClusterPolicy, t: Topology, word: Finding -> Alert, id: string)
    requires KeepsKeys(word)
    ensures Times(Map(Findings(policy, t), word), KeyFor(id)) == DeadCount(t, id)
  {
    var key := KeyFor(id);
    var overall, downs, lags := Overall(t.summary), Downs(Nodes(t)), Lags(policy, t.frontends);
    DownsOfAll(t);
    KeyForIsDown(id);
    OverallKeys(t.summary);
    LagKeys(policy, t.frontends);
    MapAppend(overall + downs, lags, word);
    MapAppend(overall, downs, word);
    TimesAppend(Map(overall + downs, word), Map(lags, word), key);
    TimesAppend(Map(overall, word), Map(downs, word), key);
    OtherKeys(overall, word, key);
    OtherKeys(lags, word, key);
    DownsReport(Nodes(t), word, id);
  }

  /** An evaluation has a finding under the key of a node exactly when a node with that id is dead. */
  lemma FoundIffDead(policy: ClusterPolicy, t: Topology, id: string)
    ensures Fires(Findings(policy, t), KeyFor(id)) <==> Dead(t, id)
  {
    DownsOfAll(t);
    KeyForIsDown(id);
    OverallKeys(t.summary);
    LagKeys(policy, t.frontends);
    ReportIs(Nodes(t), IsDead, Down);
    if n :| n in Nodes(t) && n.id == id && !n.alive {
      assert IsDead(n) && Down(n) in Findings(policy, t);
    }
    if f :| f in Findings(policy, t) && f.key == KeyFor(id) {
      var n :| n in Nodes(t) && IsDead(n) && f == Down(n);
      SameKeySameId(NODE_DOWN, n.id, id);
    }
  }

  /** What one evaluation collects: the cluster's alerts, and those of the routine loads if they can be read. */
  datatype Survey = Survey(policy: ClusterPolicy, topology: Topology, loadPolicy: RoutinePolicy, loads: Result<seq<Job>, string>)
  {
    function Sources(word: Finding -> Alert): seq<Found> {
      [Success(Map(Findings(policy, topology), word)),
       if loads.Failure? then Failure(loads.error) else Success(Map(LoadFindings(loadPolicy, loads.value), word))]
    }
  }

  lemma TwoSources(a: Found, b: Found)
    requires a.Success?
    ensures Successes([a, b]) == if b.Success? then a.value + b.value else a.value
  {
    assert [a, b][..1] == [a] && [a][..0] == [];
    assert Successes([a]) == [] + a.value;
  }

  lemma {:induction false} LoadKeys(policy: RoutinePolicy, jobs: seq<Job>, key: string)
    requires key != "" && key[0] != 'r'
    ensures forall f :: f in LoadFindings(policy, jobs) ==> f.key != key
  {
    if jobs != [] {
      LoadKeys(policy, jobs[..|jobs| - 1], key);
      JobKeys(policy, jobs[|jobs| - 1]);
    }
  }

  /** Every finding of one evaluation. */
  function AllFindings(survey: Survey): seq<Finding> {
    Findings(survey.policy, survey.topology) +
    if survey.loads.Failure? then [] else LoadFindings(survey.loadPolicy, survey.loads.value)
  }

  lemma FamiliesApart(policy: ClusterPolicy, t: Topology, loadPolicy: RoutinePolicy, jobs: seq<Job>)
    ensures Apart(Findings(policy, t), LoadFindings(loadPolicy, jobs))
  {
    DownsOfAll(t);
    OverallKeys(t.summary);
    DownKeys(Nodes(t));
    LagKeys(policy, t.frontends);
    forall f, g | f in Findings(policy, t) && g in LoadFindings(loadPolicy, jobs)
      ensures f.key != g.key
    {
      LoadKeys(loadPolicy, jobs, f.key);
    }
  }

  /**
   No alert of one evaluation carries the key of another, across cluster and routine loads, exactly
   when no two dead nodes share an id, no two frontends over the lag threshold do, and no two jobs clash.
   */
  lemma SurveyKeysDistinctIff(survey: Survey)
    ensures DistinctKeys(AllFindings(survey)) <==>
            && NoSharedId(Nodes(survey.topology), IsDead)
            && NoSharedId(survey.topology.frontends, OverLag(survey.policy))
            && (survey.loads.Success? ==> NoClashes(survey.loadPolicy, survey.loads.value))
  {
    var cluster := Findings(survey.policy, survey.topology);
    KeysDistinctIffNoSharedId(survey.policy, survey.topology);
    if survey.loads.Success? {
      var jobs := survey.loads.value;
      FamiliesApart(survey.policy, survey.topology, survey.loadPolicy, jobs);
      LoadKeysDistinctIffNoClash(survey.loadPolicy, jobs);
      DistinctAppend(cluster, LoadFindings(survey.loadPolicy, jobs));
    } else {
      assert AllFindings(survey) == cluster;
    }
  }

  /** Whatever the routine loads are doing, an evaluation reports a key of a node as often as nodes with that id are dead. */
  lemma ReportedPerDeadNode(survey: Survey, word: Finding -> Alert, id: string)
    requires KeepsKeys(word)
    ensures Times(Successes(survey.Sources(word)), KeyFor(id)) == DeadCount(survey.topology, id)
  {
    var sources := survey.Sources(word);
    TwoSources(sources[0], sources[1]);
    assert sources == [sources[0], sources[1]];
    FoundPerDeadNode(survey.policy, survey.topology, word, id);
    if survey.loads.Success? {
      assert KeyFor(id)[0] == NODE_DOWN[0];
      LoadKeys(survey.loadPolicy, survey.loads.value, KeyFor(id));
      OtherKeys(LoadFindings(survey.loadPolicy, survey.loads.value), word, KeyFor(id));
      TimesAppend(sources[0].value, sources[1].value, KeyFor(id));
    }
  }

  lemma {:induction false} DeadCountIsOne(nodes: seq<Node>, id: string)
    requires NoSharedId(nodes, IsDead)
    ensures Count(nodes, DeadAs(id)) == if exists n :: n in nodes && n.id == id && !n.alive then 1 else 0
  {
    if nodes != [] {
      var init, last := nodes[..|nodes| - 1], nodes[|nodes| - 1];
      DeadCountIsOne(init, id);
      NoSharedIdSplits(nodes, IsDead);
      assert nodes == init + [last];
      if n :| n in init && n.id == id && !n.alive {
        assert n in nodes && IsDead(n);
      }
      assert last in nodes;
    }
  }

  /** So when no two dead nodes share an id, a node is reported once if it is dead and not at all otherwise. */
  lemma ReportedOnceIffDead(survey: Survey, word: Finding -> Alert, id: string)
    requires KeepsKeys(word) && NoSharedId(Nodes(survey.topology), IsDead)
    ensures Times(Successes(survey.Sources(word)), KeyFor(id)) ==
            if Dead(survey.topology, id) then 1 else 0
  {
    ReportedPerDeadNode(survey, word, id);
    DeadCountIsOne(Nodes(survey.topology), id);
  }

  lemma SurveysReport(ticks: seq<Tick>, period: int, surveys: seq<Survey>, word: Finding -> Alert, id: string)
    requires KeepsKeys(word) && |surveys| == |ticks|
    requires forall i :: 0 <= i < |ticks| ==>
                           && DeadCount(surveys[i].topology, id) == 1
                           && ticks[i] == Tick(true, period, Success(Successes(surveys[i].Sources(word))))
    ensures ReportsEveryTick(ticks, KeyFor(id), period)
  {
    forall i | 0 <= i < |ticks|
      ensures ticks[i].enabled && ticks[i].interval == period
      ensures ticks[i].found.Success? && Times(ticks[i].found.value, KeyFor(id)) == 1
    {
      ReportedPerDeadNode(surveys[i], word, id);
    }
  }

  /**
   A node that stays dead, the only dead one with its id, is notified on ticks 0, q, 2q, ... and no
   others, where q is the smallest number of periods that spans the cooldown, whatever else goes
   wrong in the meantime: every channel gets its alert once on each of those ticks, and nothing else
   under its key.
   */
  lemma OutageIsNotifiedOnSchedule(o: Office, start: int, ticks: seq<Tick>, period: int, surveys: seq<Survey>,
                                   word: Finding -> Alert, id: string)
    requires KeyFor(id) !in o.manager.lastFired && period > 0 && KeepsKeys(word)
    requires |surveys| == |ticks|
    requires forall i :: 0 <= i < |ticks| ==>
                           && DeadCount(surveys[i].topology, id) == 1
                           && ticks[i] == Tick(true, period, Success(Successes(surveys[i].Sources(word))))
    ensures ReportsEveryTick(ticks, KeyFor(id), period)
    ensures OnStride(Decisions(o.manager, PollOps(start, ticks), KeyFor(id)), Stride(o.manager.cooldown, period))
    ensures UnderKey(Polled(o, start, ticks).sent, KeyFor(id)) ==
            UnderKey(o.sent, KeyFor(id)) +
            Schedule(o.manager.Channels(), start, ticks, KeyFor(id), period, Stride(o.manager.cooldown, period))
  {
    SurveysReport(ticks, period, surveys, word, id);
    Cadence(o.manager, start, ticks, KeyFor(id), period);
    CadenceOnTheWire(o, start, ticks, KeyFor(id), period);
  }
}
