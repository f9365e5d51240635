/**
 The routine load alert rules (backend/internal/service/routineload_alerts.go) and the dashboard they
 must agree with (backend/internal/service/routineload_service.go:193-249). Ratios are exact.
 */
module RoutineLoadAlerts {
  import opened Wrappers
  import opened Totals
  import opened Sorting
  import opened AlertFindings
  import AlertManager

  const PAUSED := "PAUSED"
  const CANCELLED := "CANCELLED"
  const NEED_SCHEDULE := "NEED_SCHEDULE"
  const RUNNING := "RUNNING"
  const STOPPED := "STOPPED"

  const JOB_PAUSED := "routine_load_paused"
  const JOB_CANCELLED := "routine_load_cancelled"
  const ERROR_RATIO := "routine_load_error_ratio"
  const OFFSET_LAG := "routine_load_offset_lag"

  datatype Statistics = Statistics(totalRows: int, errorRows: int) {
    function ErrorRatio(): real {
      if totalRows <= 0 then 0.0 else errorRows as real / totalRows as real
    }
  }

  /** A job as mapped from its row; the state is any text, known or not. */
  datatype Job = Job(
    name: string,
    database: string,
    table: string,
    state: string,
    source: string,
    offsetLag: Option<int>,
    statistics: Option<Statistics>)
  {
    predicate Unhealthy() {
      state == PAUSED || state == CANCELLED
    }
  }

  datatype RoutinePolicy = RoutinePolicy(errorRowsRatio: real, errorRowsMinTotal: int, maxOffsetLag: int)

  function Subject(job: Job): string {
    job.database + "." + job.name
  }

  function Labels(job: Job): map<string, string> {
    var labels := map["database" := job.database, "job" := job.name, "table" := job.table, "state" := job.state];
    if job.source != "" then labels["source" := job.source] else labels
  }

  function Report(rule: string, severity: AlertManager.Severity, job: Job): Finding {
    Finding(rule + "|" + Subject(job), rule, severity, Labels(job))
  }

  // ----- What each rule means -----

  /** The error rule: on, enough rows seen, and more of them failed than the threshold allows. */
  predicate ErrorsOver(policy: RoutinePolicy, job: Job) {
    && policy.errorRowsRatio > 0.0
    && job.statistics.Some?
    && var s := job.statistics.value;
       && s.totalRows >= policy.errorRowsMinTotal
       && s.totalRows > 0
       && s.errorRows as real > policy.errorRowsRatio * s.totalRows as real
  }

  predicate LagOver(policy: RoutinePolicy, job: Job) {
    policy.maxOffsetLag > 0 && job.offsetLag.Some? && job.offsetLag.value > policy.maxOffsetLag
  }

  /** The rules a job breaks. */
  predicate Breaks(policy: RoutinePolicy, job: Job, rule: string) {
    || (rule == JOB_PAUSED && job.state == PAUSED)
    || (rule == JOB_CANCELLED && job.state == CANCELLED)
    || (rule == ERROR_RATIO && ErrorsOver(policy, job))
    || (rule == OFFSET_LAG && LagOver(policy, job))
  }

  function StateFinding(job: Job): seq<Finding> {
    if job.state == PAUSED then [Report(JOB_PAUSED, AlertManager.Warning, job)]
    else if job.state == CANCELLED then [Report(JOB_CANCELLED, AlertManager.Critical, job)]
    else []
  }

  function ErrorFinding(policy: RoutinePolicy, job: Job): seq<Finding> {
    if ErrorsOver(policy, job) then [Report(ERROR_RATIO, AlertManager.Warning, job)] else []
  }

  function LagFinding(policy: RoutinePolicy, job: Job): seq<Finding> {
    if LagOver(policy, job) then [Report(OFFSET_LAG, AlertManager.Warning, job)] else []
  }

  function JobFindings(policy: RoutinePolicy, job: Job): seq<Finding> {
    StateFinding(job) + ErrorFinding(policy, job) + LagFinding(policy, job)
  }

  function LoadFindings(policy: RoutinePolicy, jobs: seq<Job>): seq<Finding> {
    if jobs == [] then []
    else LoadFindings(policy, jobs[..|jobs| - 1]) + JobFindings(policy, jobs[|jobs| - 1])
  }

  lemma RatioOver(errors: int, total: int, threshold: real)
    requires total > 0
    ensures errors as real / total as real > threshold <==> errors as real > threshold * total as real
  {
    var ratio := errors as real / total as real;
    assert ratio * total as real == errors as real;
    if ratio > threshold {
      assert (ratio - threshold) * total as real > 0.0;
    } else {
      assert (threshold - ratio) * total as real >= 0.0;
    }
  }

  method ErrorRatioAlert(policy: RoutinePolicy, job: Job) returns (finding: Option<Finding>)
    ensures finding == if ErrorsOver(policy, job) then Some(Report(ERROR_RATIO, AlertManager.Warning, job)) else None
  {
    if policy.errorRowsRatio <= 0.0 || job.statistics.None? || job.statistics.value.totalRows < policy.errorRowsMinTotal {
      return None;
    }
    var stats := job.statistics.value;
    var ratio := stats.ErrorRatio();
    if stats.totalRows > 0 {
      RatioOver(stats.errorRows, stats.totalRows, policy.errorRowsRatio);
    }
    if ratio <= policy.errorRowsRatio {
      return None;
    }
    return Some(Report(ERROR_RATIO, AlertManager.Warning, job));
  }

  method OffsetLagAlert(policy: RoutinePolicy, job: Job) returns (finding: Option<Finding>)
    ensures finding == if LagOver(policy, job) then Some(Report(OFFSET_LAG, AlertManager.Warning, job)) else None
  {
    if policy.maxOffsetLag <= 0 || job.offsetLag.None? || job.offsetLag.value <= policy.maxOffsetLag {
      return None;
    }
    return Some(Report(OFFSET_LAG, AlertManager.Warning, job));
  }

  class RoutineLoadService {
    var policy: RoutinePolicy

    constructor (policy: RoutinePolicy)
      ensures this.policy == policy
    {
      this.policy := policy;
    }

    method SetPolicy(policy: RoutinePolicy)
      modifies this
      ensures this.policy == policy
    {
      this.policy := policy;
    }

    method EvaluateAlerts(jobs: seq<Job>) returns (alerts: seq<Finding>)
      ensures alerts == LoadFindings(policy, jobs)
    {
      alerts := [];
      for i := 0 to |jobs|
        invariant alerts == LoadFindings(policy, jobs[..i])
      {
        var found := EvaluateJob(policy, jobs[i]);
        alerts := alerts + found;
        assert jobs[..i + 1][..i] == jobs[..i];
      }
      assert jobs[..|jobs|] == jobs;
    }
  }

  method EvaluateJob(policy: RoutinePolicy, job: Job) returns (alerts: seq<Finding>)
    ensures alerts == JobFindings(policy, job)
  {
    alerts := [];
    if job.state == PAUSED {
      alerts := alerts + [Report(JOB_PAUSED, AlertManager.Warning, job)];
    } else if job.state == CANCELLED {
      alerts := alerts + [Report(JOB_CANCELLED, AlertManager.Critical, job)];
    }
    assert alerts == StateFinding(job);
    var errors := ErrorRatioAlert(policy, job);
    if errors.Some? {
      alerts := alerts + [errors.value];
    }
    assert alerts == StateFinding(job) + ErrorFinding(policy, job);
    var lag := OffsetLagAlert(policy, job);
    if lag.Some? {
      alerts := alerts + [lag.value];
    }
  }

  // ----- What a finding tells -----

  /** Each job is reported once for every rule it breaks and for no other, as critical only if it was cancelled, with its own names. */
  lemma JobFindingsTell(policy: RoutinePolicy, job: Job)
    ensures forall f :: f in JobFindings(policy, job) ==>
                          && f.key == f.ruleId + "|" + (job.database + "." + job.name)
                          && f.severity == (if f.ruleId == "routine_load_cancelled" then AlertManager.Critical else AlertManager.Warning)
                          && {"database", "job", "table", "state"} <= f.labels.Keys
                          && f.labels["database"] == job.database && f.labels["job"] == job.name
                          && f.labels["table"] == job.table && f.labels["state"] == job.state
                          && ("source" in f.labels <==> job.source != "")
    ensures (exists f :: f in JobFindings(policy, job) && f.ruleId == "routine_load_paused") <==> job.state == "PAUSED"
    ensures (exists f :: f in JobFindings(policy, job) && f.ruleId == "routine_load_cancelled") <==> job.state == "CANCELLED"
    ensures (exists f :: f in JobFindings(policy, job) && f.ruleId == "routine_load_error_ratio") <==>
            && policy.errorRowsRatio > 0.0 && job.statistics.Some?
            && job.statistics.value.totalRows >= policy.errorRowsMinTotal && job.statistics.value.totalRows > 0
            && job.statistics.value.errorRows as real > policy.errorRowsRatio * job.statistics.value.totalRows as real
    ensures (exists f :: f in JobFindings(policy, job) && f.ruleId == "routine_load_offset_lag") <==>
            policy.maxOffsetLag > 0 && job.offsetLag.Some? && job.offsetLag.value > policy.maxOffsetLag
  {
    JobKeys(policy, job);
    RulesDiffer();
    SeveritiesAre(policy, job);
    assert Breaks(policy, job, JOB_PAUSED) <==> job.state == PAUSED;
    assert Breaks(policy, job, JOB_CANCELLED) <==> job.state == CANCELLED;
    assert Breaks(policy, job, ERROR_RATIO) <==> ErrorsOver(policy, job);
    assert Breaks(policy, job, OFFSET_LAG) <==> LagOver(policy, job);
  }

  lemma SeveritiesAre(policy: RoutinePolicy, job: Job)
    ensures forall f :: f in JobFindings(policy, job) ==>
                          f.labels == Labels(job)
                          && f.severity == if f.ruleId == JOB_CANCELLED then AlertManager.Critical else AlertManager.Warning
  {
    RulesDiffer();
  }

  // ----- Keys -----

  lemma JobKeys(policy: RoutinePolicy, job: Job)
    ensures DistinctKeys(JobFindings(policy, job))
    ensures forall f :: f in JobFindings(policy, job) ==> Breaks(policy, job, f.ruleId) && f.key == f.ruleId + "|" + Subject(job)
    ensures forall rule :: Breaks(policy, job, rule) ==> exists f :: f in JobFindings(policy, job) && f.ruleId == rule
  {
    var state, errors, lag := StateFinding(job), ErrorFinding(policy, job), LagFinding(policy, job);
    assert forall f :: f in JobFindings(policy, job) <==> f in state || f in errors || f in lag;
    RulesDiffer();
    DistinctAppend(state, errors);
    DistinctAppend(state + errors, lag);
    forall rule | Breaks(policy, job, rule)
      ensures exists f :: f in JobFindings(policy, job) && f.ruleId == rule
    {
      var f := Report(rule, if rule == JOB_CANCELLED then AlertManager.Critical else AlertManager.Warning, job);
      assert f in state || f in errors || f in lag;
    }
  }

  lemma BarFree(rule: string)
    requires rule == JOB_PAUSED || rule == JOB_CANCELLED || rule == ERROR_RATIO || rule == OFFSET_LAG
    ensures '|' !in rule
  {
  }

  /** Keys of routine load alerts agree exactly when rule and subject do. */
  lemma SameLoadKey(rule: string, subject: string, rule': string, subject': string)
    requires '|' !in rule && '|' !in rule'
    ensures rule + "|" + subject == rule' + "|" + subject' <==> rule == rule' && subject == subject'
  {
    if rule + "|" + subject == rule' + "|" + subject' {
      SplitAtFirst('|', rule, subject, rule', subject');
    }
  }

  /** Two jobs clash when an alert about one carries the key of an alert about the other. */
  predicate Clash(policy: RoutinePolicy, a: Job, b: Job) {
    && Subject(a) == Subject(b)
    && ((a.state == b.state && a.Unhealthy())
        || (ErrorsOver(policy, a) && ErrorsOver(policy, b))
        || (LagOver(policy, a) && LagOver(policy, b)))
  }

  lemma ApartIffNoClash(policy: RoutinePolicy, a: Job, b: Job)
    ensures Apart(JobFindings(policy, a), JobFindings(policy, b)) <==> !Clash(policy, a, b)
  {
    JobKeys(policy, a);
    JobKeys(policy, b);
    if Clash(policy, a, b) {
      var rule := if a.state == b.state && a.Unhealthy() then (if a.state == PAUSED then JOB_PAUSED else JOB_CANCELLED)
                  else if ErrorsOver(policy, a) && ErrorsOver(policy, b) then ERROR_RATIO else OFFSET_LAG;
      assert Breaks(policy, a, rule) && Breaks(policy, b, rule);
      var f :| f in JobFindings(policy, a) && f.ruleId == rule;
      var g :| g in JobFindings(policy, b) && g.ruleId == rule;
      assert f.key == g.key;
    } else {
      forall f, g | f in JobFindings(policy, a) && g in JobFindings(policy, b)
        ensures f.key != g.key
      {
        BarFree(f.ruleId);
        BarFree(g.ruleId);
        SameLoadKey(f.ruleId, Subject(a), g.ruleId, Subject(b));
        assert Breaks(policy, a, f.ruleId) && Breaks(policy, b, g.ruleId);
      }
    }
  }

  ghost predicate ClashesWithNone(policy: RoutinePolicy, jobs: seq<Job>, last: Job) {
    forall i :: 0 <= i < |jobs| ==> !Clash(policy, jobs[i], last)
  }

  lemma ClashesWithNoneSplits(policy: RoutinePolicy, jobs: seq<Job>, last: Job)
    requires jobs != []
    ensures ClashesWithNone(policy, jobs, last) <==>
            ClashesWithNone(policy, jobs[..|jobs| - 1], last) && !Clash(policy, jobs[|jobs| - 1], last)
  {
  }

  lemma {:induction false} ApartFromAll(policy: RoutinePolicy, jobs: seq<Job>, last: Job)
    ensures Apart(LoadFindings(policy, jobs), JobFindings(policy, last)) <==> ClashesWithNone(policy, jobs, last)
  {
    if jobs != [] {
      var n := |jobs| - 1;
      ApartFromAll(policy, jobs[..n], last);
      ApartIffNoClash(policy, jobs[n], last);
      ApartSplits(LoadFindings(policy, jobs[..n]), JobFindings(policy, jobs[n]), JobFindings(policy, last));
      ClashesWithNoneSplits(policy, jobs, last);
    }
  }

  lemma ApartSplits(a: seq<Finding>, b: seq<Finding>, c: seq<Finding>)
    ensures Apart(a + b, c) <==> Apart(a, c) && Apart(b, c)
  {
    if Apart(a + b, c) {
      assert forall f :: f in a || f in b ==> f in a + b;
    }
  }

  ghost predicate NoClashes(policy: RoutinePolicy, jobs: seq<Job>) {
    forall i, j :: 0 <= i < j < |jobs| ==> !Clash(policy, jobs[i], jobs[j])
  }

  lemma NoClashesSplits(policy: RoutinePolicy, jobs: seq<Job>)
    requires jobs != []
    ensures NoClashes(policy, jobs) <==>
            NoClashes(policy, jobs[..|jobs| - 1]) && ClashesWithNone(policy, jobs[..|jobs| - 1], jobs[|jobs| - 1])
  {
  }

  /**
   The alerts of one evaluation carry distinct keys exactly when no two jobs clash. Jobs clash only
   under the same subject, so either a repeated name or a dot inside a database name is needed.
   */
  lemma {:induction false} LoadKeysDistinctIffNoClash(policy: RoutinePolicy, jobs: seq<Job>)
    ensures DistinctKeys(LoadFindings(policy, jobs)) <==> NoClashes(policy, jobs)
  {
    if jobs != [] {
      var n := |jobs| - 1;
      LoadKeysDistinctIffNoClash(policy, jobs[..n]);
      JobKeys(policy, jobs[n]);
      ApartFromAll(policy, jobs[..n], jobs[n]);
      DistinctAppend(LoadFindings(policy, jobs[..n]), JobFindings(policy, jobs[n]));
      NoClashesSplits(policy, jobs);
    }
  }

  /** Without a dot in the database names a subject names one job. */
  lemma SubjectNamesOneJob(a: Job, b: Job)
    requires '.' !in a.database && '.' !in b.database
    ensures Subject(a) == Subject(b) <==> a.database == b.database && a.name == b.name
  {
    if Subject(a) == Subject(b) {
      SplitAtFirst('.', a.database, a.name, b.database, b.name);
    }
  }

  /** With one, two different jobs can share a key, and then the alert about one silences the other. */
  lemma DottedNamesClash(policy: RoutinePolicy, table: string, m: AlertManager.State, first: AlertManager.Alert, second: AlertManager.Alert)
    requires m.cooldown > 0
    requires first.key == StateFinding(Job("c", "a.b", table, PAUSED, "", None, None))[0].key
    requires second.key == StateFinding(Job("b.c", "a", table, PAUSED, "", None, None))[0].key
    ensures !m.Accept(first).Accepts(second.key, first.firedAt)
  {
    assert "a.b" + "." + "c" == "a" + "." + "b.c";
  }

  /**
   No dot is needed: a job that was cancelled and created anew under its name, and cancelled or paused
   again like the first, shares the key of the first, and only one of the two is heard of.
   */
  lemma RepeatedNamesClash(a: Job, b: Job, m: AlertManager.State, first: AlertManager.Alert, second: AlertManager.Alert)
    requires a.database == b.database && a.name == b.name && a.state == b.state && a.Unhealthy()
    requires m.cooldown > 0
    requires first.key == StateFinding(a)[0].key && second.key == StateFinding(b)[0].key
    ensures forall policy :: Clash(policy, a, b)
    ensures !m.Accept(first).Accepts(second.key, first.firedAt)
  {
  }

  // ----- The dashboard -----

  datatype LoadSummary = LoadSummary(
    total: nat,
    running: nat,
    needSchedule: nat,
    paused: nat,
    stopped: nat,
    cancelled: nat,
    unhealthy: nat,
    totalErrorRows: int)

  predicate IsUnhealthy(job: Job) {
    job.Unhealthy()
  }

  function ErrorRows(job: Job): int {
    if job.statistics.Some? then job.statistics.value.errorRows else 0
  }

  function InState(state: string): Job -> bool {
    (job: Job) => job.state == state
  }

  function SummaryOf(jobs: seq<Job>): LoadSummary {
    LoadSummary(|jobs|, Count(jobs, InState(RUNNING)), Count(jobs, InState(NEED_SCHEDULE)), Count(jobs, InState(PAUSED)),
                Count(jobs, InState(STOPPED)), Count(jobs, InState(CANCELLED)), Count(jobs, IsUnhealthy), Sum(jobs, ErrorRows))
  }

  method Summarize(jobs: seq<Job>) returns (summary: LoadSummary)
    ensures summary == SummaryOf(jobs)
  {
    summary := LoadSummary(|jobs|, 0, 0, 0, 0, 0, 0, 0);
    for i := 0 to |jobs|
      invariant summary == SummaryOf(jobs[..i]).(total := |jobs|)
    {
      var job := jobs[i];
      SummaryOneMore(jobs[..i], job);
      assert jobs[..i + 1] == jobs[..i] + [job];
      if job.state == RUNNING {
        summary := summary.(running := summary.running + 1);
      } else if job.state == NEED_SCHEDULE {
        summary := summary.(needSchedule := summary.needSchedule + 1);
      } else if job.state == PAUSED {
        summary := summary.(paused := summary.paused + 1);
      } else if job.state == STOPPED {
        summary := summary.(stopped := summary.stopped + 1);
      } else if job.state == CANCELLED {
        summary := summary.(cancelled := summary.cancelled + 1);
      }
      if job.Unhealthy() {
        summary := summary.(unhealthy := summary.unhealthy + 1);
      }
      if job.statistics.Some? {
        summary := summary.(totalErrorRows := summary.totalErrorRows + job.statistics.value.errorRows);
      }
    }
    assert jobs[..|jobs|] == jobs;
  }

  function One(b: bool): nat {
    if b then 1 else 0
  }

  lemma SummaryOneMore(jobs: seq<Job>, job: Job)
    ensures var s := SummaryOf(jobs);
            SummaryOf(jobs + [job]) ==
            LoadSummary(s.total + 1, s.running + One(job.state == RUNNING), s.needSchedule + One(job.state == NEED_SCHEDULE),
                        s.paused + One(job.state == PAUSED), s.stopped + One(job.state == STOPPED),
                        s.cancelled + One(job.state == CANCELLED), s.unhealthy + One(job.Unhealthy()),
                        s.totalErrorRows + ErrorRows(job))
  {
    CountOneMore(jobs, job, InState(RUNNING));
    CountOneMore(jobs, job, InState(NEED_SCHEDULE));
    CountOneMore(jobs, job, InState(PAUSED));
    CountOneMore(jobs, job, InState(STOPPED));
    CountOneMore(jobs, job, InState(CANCELLED));
    CountOneMore(jobs, job, IsUnhealthy);
    SumOneMore(jobs, job, ErrorRows);
  }

  predicate IsStateFinding(f: Finding) {
    f.ruleId == JOB_PAUSED || f.ruleId == JOB_CANCELLED
  }

  /** The dashboard's unhealthy jobs are the paused and the cancelled ones, one state alert each. */
  lemma UnhealthyAreAlerted(policy: RoutinePolicy, jobs: seq<Job>)
    ensures var s := SummaryOf(jobs);
            && s.unhealthy == s.paused + s.cancelled == Count(LoadFindings(policy, jobs), IsStateFinding)
            && s.running + s.needSchedule + s.paused + s.stopped + s.cancelled <= s.total
  {
    SummaryAddsUp(jobs);
    UnhealthyAreReported(policy, jobs);
  }

  lemma {:induction false} SummaryAddsUp(jobs: seq<Job>)
    ensures var s := SummaryOf(jobs);
            && s.unhealthy == s.paused + s.cancelled
            && s.running + s.needSchedule + s.paused + s.stopped + s.cancelled <= s.total
  {
    if jobs != [] {
      var n := |jobs| - 1;
      SummaryAddsUp(jobs[..n]);
      SummaryOneMore(jobs[..n], jobs[n]);
      assert jobs == jobs[..n] + [jobs[n]];
    }
  }

  lemma {:induction false} UnhealthyAreReported(policy: RoutinePolicy, jobs: seq<Job>)
    ensures Count(LoadFindings(policy, jobs), IsStateFinding) == Count(jobs, IsUnhealthy)
  {
    if jobs != [] {
      var n := |jobs| - 1;
      UnhealthyAreReported(policy, jobs[..n]);
      CountAppend(LoadFindings(policy, jobs[..n]), JobFindings(policy, jobs[n]), IsStateFinding);
      CountJob(policy, jobs[n]);
    }
  }

  lemma CountJob(policy: RoutinePolicy, job: Job)
    ensures Count(JobFindings(policy, job), IsStateFinding) == One(job.Unhealthy())
  {
    var state, errors, lag := StateFinding(job), ErrorFinding(policy, job), LagFinding(policy, job);
    CountThree(state, errors, lag);
    RulesDiffer();
    CountFew(state);
    CountFew(errors);
    CountFew(lag);
  }

  lemma RulesDiffer()
    ensures JOB_PAUSED != JOB_CANCELLED
    ensures ERROR_RATIO != OFFSET_LAG
    ensures ERROR_RATIO != JOB_PAUSED && ERROR_RATIO != JOB_CANCELLED
    ensures OFFSET_LAG != JOB_PAUSED && OFFSET_LAG != JOB_CANCELLED
  {
    assert |JOB_PAUSED| == 19 && |JOB_CANCELLED| == 22 && |ERROR_RATIO| == 24 && |OFFSET_LAG| == 23;
  }

  lemma CountThree(a: seq<Finding>, b: seq<Finding>, c: seq<Finding>)
    ensures Count(a + b + c, IsStateFinding) ==
            Count(a, IsStateFinding) + Count(b, IsStateFinding) + Count(c, IsStateFinding)
  {
    CountAppend(a + b, c, IsStateFinding);
    CountAppend(a, b, IsStateFinding);
  }

  lemma CountFew(few: seq<Finding>)
    requires |few| <= 1
    ensures Count(few, IsStateFinding) == One(few != [] && IsStateFinding(few[0]))
  {
    if few != [] {
      assert few[..0] == [];
    }
  }

  function StateRank(state: string): nat {
    if state == CANCELLED then 0
    else if state == PAUSED then 1
    else if state == NEED_SCHEDULE then 2
    else if state == RUNNING then 3
    else if state == STOPPED then 5
    else 4
  }

  predicate JobLess(a: Job, b: Job) {
    if StateRank(a.state) != StateRank(b.state) then StateRank(a.state) < StateRank(b.state)
    else if a.database != b.database then StringLess(a.database, b.database)
    else StringLess(a.name, b.name)
  }

  lemma JobTriple(a: Job, b: Job, c: Job)
    ensures !JobLess(a, a)
    ensures JobLess(a, b) && JobLess(b, c) ==> JobLess(a, c)
    ensures !JobLess(a, b) && !JobLess(b, c) ==> !JobLess(a, c)
  {
    StringLessIsTotal();
  }

  lemma JobLessIsOrder()
    ensures StrictWeakOrder(JobLess)
  {
    forall a: Job, b: Job, c: Job
      ensures !JobLess(a, a)
      ensures JobLess(a, b) && JobLess(b, c) ==> JobLess(a, c)
      ensures !JobLess(a, b) && !JobLess(b, c) ==> !JobLess(a, c)
    {
      JobTriple(a, b, c);
    }
  }

  lemma StatesInOrder(a: Job, b: Job)
    requires !JobLess(b, a)
    ensures b.state == "CANCELLED" ==> a.state == "CANCELLED"
    ensures b.state == "PAUSED" ==> a.state in {"CANCELLED", "PAUSED"}
    ensures b.state == "NEED_SCHEDULE" ==> a.state in {"CANCELLED", "PAUSED", "NEED_SCHEDULE"}
    ensures b.state == "RUNNING" ==> a.state in {"CANCELLED", "PAUSED", "NEED_SCHEDULE", "RUNNING"}
    ensures a.state == "STOPPED" ==> b.state == "STOPPED"
    ensures a.state == b.state ==> if a.database == b.database then !StringLess(b.name, a.name) else !StringLess(b.database, a.database)
  {
  }

  /** The jobs are shown cancelled first, then paused, waiting and running, with stopped ones last, each by database and name. */
  lemma JobsInOrder(jobs: seq<Job>, i: nat, j: nat)
    requires i < j < |jobs|
    ensures |StableSort(jobs, JobLess)| == |jobs|
    ensures var a, b := StableSort(jobs, JobLess)[i], StableSort(jobs, JobLess)[j];
            && (b.state == "CANCELLED" ==> a.state == "CANCELLED")
            && (b.state == "PAUSED" ==> a.state in {"CANCELLED", "PAUSED"})
            && (b.state == "NEED_SCHEDULE" ==> a.state in {"CANCELLED", "PAUSED", "NEED_SCHEDULE"})
            && (b.state == "RUNNING" ==> a.state in {"CANCELLED", "PAUSED", "NEED_SCHEDULE", "RUNNING"})
            && (a.state == "STOPPED" ==> b.state == "STOPPED")
            && (a.state == b.state ==>
                  if a.database == b.database then !StringLess(b.name, a.name) else !StringLess(b.database, a.database))
  {
    JobLessIsOrder();
    StableSortSorts(jobs, JobLess);
    StatesInOrder(StableSort(jobs, JobLess)[i], StableSort(jobs, JobLess)[j]);
  }

  /** Sorting puts every job that needs attention before every one that does not. */
  lemma UnhealthyFirst(jobs: seq<Job>, i: nat, j: nat)
    requires i < j < |StableSort(jobs, JobLess)|
    ensures StableSort(jobs, JobLess)[j].Unhealthy() ==> StableSort(jobs, JobLess)[i].Unhealthy()
  {
    JobLessIsOrder();
    StableSortSorts(jobs, JobLess);
    assert !JobLess(StableSort(jobs, JobLess)[j], StableSort(jobs, JobLess)[i]);
  }

  /** The summary does not depend on the order of the jobs, so taking it after sorting is the same. */
  lemma LoadSummaryForgetsOrder(s: seq<Job>, t: seq<Job>)
    requires multiset(s) == multiset(t)
    ensures SummaryOf(s) == SummaryOf(t)
  {
    assert |s| == |multiset(s)| == |t|;
    CountForgetsOrder(s, t, InState(RUNNING));
    CountForgetsOrder(s, t, InState(NEED_SCHEDULE));
    CountForgetsOrder(s, t, InState(PAUSED));
    CountForgetsOrder(s, t, InState(STOPPED));
    CountForgetsOrder(s, t, InState(CANCELLED));
    CountForgetsOrder(s, t, IsUnhealthy);
    SumForgetsOrder(s, t, ErrorRows);
  }
}
