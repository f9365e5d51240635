/**
 Reading routine load jobs: the offset lag of a job (backend/internal/service/routineload_service.go:137-191)
 and the sweep over databases when one query cannot serve them all
 (backend/internal/repository/routineload_repository.go:76-112).
 */
module RoutineLoads {
  import opened Wrappers
  import opened Text
  import opened Totals

  // ----- Offset lag -----

  /** A decoded offset: a number, or a marker such as OFFSET_END. */
  datatype Offset = Numeric(n: int) | Marker

  /** The numeric offsets of a column; a column that is missing or not a map has none. */
  function ParseOffsets(column: Option<map<string, Offset>>): map<string, int> {
    if column.None? then map[]
    else map k | k in column.value && column.value[k].Numeric? :: column.value[k].n
  }

  /** The column holds a number for the partition. */
  predicate NumberAt(column: Option<map<string, Offset>>, k: string) {
    column.Some? && k in column.value && column.value[k].Numeric?
  }

  function At(column: Option<map<string, Offset>>, k: string): int
    requires NumberAt(column, k)
  {
    column.value[k].n
  }

  lemma ParsedIs(column: Option<map<string, Offset>>)
    ensures forall k :: k in ParseOffsets(column) <==> NumberAt(column, k)
    ensures forall k :: NumberAt(column, k) ==> ParseOffsets(column)[k] == At(column, k)
  {
  }

  function Gap(progress: map<string, int>, latest: map<string, int>, k: string): nat
    requires k in progress && k in latest
  {
    if latest[k] - progress[k] > 0 then latest[k] - progress[k] else 0
  }

  /** The sum of the gaps of some partitions, taken in any order. */
  ghost function GapSum(keys: set<string>, progress: map<string, int>, latest: map<string, int>): nat
    requires keys <= progress.Keys && keys <= latest.Keys
  {
    if keys == {} then 0
    else
      var k :| k in keys;
      Gap(progress, latest, k) + GapSum(keys - {k}, progress, latest)
  }

  /** Whichever partition is taken out first, the sum is the same. */
  lemma {:induction false} GapSumTake(keys: set<string>, k: string, progress: map<string, int>, latest: map<string, int>)
    requires keys <= progress.Keys && keys <= latest.Keys && k in keys
    ensures GapSum(keys, progress, latest) == Gap(progress, latest, k) + GapSum(keys - {k}, progress, latest)
  {
    var first :| first in keys && GapSum(keys, progress, latest) ==
                                  Gap(progress, latest, first) + GapSum(keys - {first}, progress, latest);
    if first != k {
      GapSumTake(keys - {first}, k, progress, latest);
      GapSumTake(keys - {k}, first, progress, latest);
      assert keys - {first} - {k} == keys - {k} - {first};
    }
  }

  lemma {:induction false} NoGapExceedsTheSum(keys: set<string>, k: string, progress: map<string, int>, latest: map<string, int>)
    requires keys <= progress.Keys && keys <= latest.Keys && k in keys
    ensures latest[k] - progress[k] <= GapSum(keys, progress, latest)
  {
    GapSumTake(keys, k, progress, latest);
  }

  lemma OneSharedPartition(k: string, progress: map<string, int>, latest: map<string, int>)
    requires progress.Keys * latest.Keys == {k}
    ensures k in progress && k in latest
    ensures GapSum({k}, progress, latest) == if latest[k] > progress[k] then latest[k] - progress[k] else 0
  {
    assert k in progress.Keys * latest.Keys;
    GapSumTake({k}, k, progress, latest);
    assert {k} - {k} == {};
  }

  /**
   On the columns themselves: there is a lag exactly when some partition has a number in both; it is
   never less than what one of those trails by, and it is zero exactly when none of them trails.
   */
  lemma LagOfColumns(progressColumn: Option<map<string, Offset>>, latestColumn: Option<map<string, Offset>>)
    ensures var progress, latest := ParseOffsets(progressColumn), ParseOffsets(latestColumn);
            var shared := progress.Keys * latest.Keys;
            var lag := GapSum(shared, progress, latest);
            && (shared != {} <==> exists k :: NumberAt(progressColumn, k) && NumberAt(latestColumn, k))
            && (forall k :: NumberAt(progressColumn, k) && NumberAt(latestColumn, k) ==>
                              At(latestColumn, k) - At(progressColumn, k) <= lag)
            && (lag == 0 <==> forall k :: NumberAt(progressColumn, k) && NumberAt(latestColumn, k) ==>
                                            At(latestColumn, k) <= At(progressColumn, k))
            && (forall k :: shared == {k} ==>
                              lag == var trails := At(latestColumn, k) - At(progressColumn, k); if trails > 0 then trails else 0)
  {
    var progress, latest := ParseOffsets(progressColumn), ParseOffsets(latestColumn);
    var shared := progress.Keys * latest.Keys;
    ParsedIs(progressColumn);
    ParsedIs(latestColumn);
    assert forall k :: k in shared <==> NumberAt(progressColumn, k) && NumberAt(latestColumn, k);
    if shared != {} {
      var k :| k in shared;
      assert NumberAt(progressColumn, k) && NumberAt(latestColumn, k);
    }
    forall k | k in shared
      ensures latest[k] - progress[k] <= GapSum(shared, progress, latest)
    {
      NoGapExceedsTheSum(shared, k, progress, latest);
    }
    NoLagIffCaughtUp(shared, progress, latest);
    forall k | shared == {k}
      ensures GapSum(shared, progress, latest) == if latest[k] > progress[k] then latest[k] - progress[k] else 0
    {
      OneSharedPartition(k, progress, latest);
    }
  }

  /** Nothing when no partition is shared, and otherwise the sum of the gaps over all shared ones. */
  method ComputeOffsetLag(progressColumn: Option<map<string, Offset>>, latestColumn: Option<map<string, Offset>>)
    returns (lag: Option<int>)
    ensures var progress, latest := ParseOffsets(progressColumn), ParseOffsets(latestColumn);
            var shared := progress.Keys * latest.Keys;
            lag == if shared == {} then None else Some(GapSum(shared, progress, latest))
    ensures lag.Some? <==> exists k :: NumberAt(progressColumn, k) && NumberAt(latestColumn, k)
    ensures lag.Some? ==>
              (lag.value == 0 <==> forall k :: NumberAt(progressColumn, k) && NumberAt(latestColumn, k) ==>
                                                 At(latestColumn, k) <= At(progressColumn, k))
  {
    LagOfColumns(progressColumn, latestColumn);
    var progress, latest := ParseOffsets(progressColumn), ParseOffsets(latestColumn);
    if |progress| == 0 || |latest| == 0 {
      assert progress.Keys * latest.Keys == {};
      return None;
    }
    var sum := 0;
    var matched := false;
    var pending := latest.Keys;
    ghost var done: set<string> := {};
    while pending != {}
      invariant pending <= latest.Keys && done == progress.Keys * (latest.Keys - pending)
      invariant sum == GapSum(done, progress, latest)
      invariant matched <==> done != {}
      decreases pending
    {
      var partition :| partition in pending;
      pending := pending - {partition};
      if partition in progress {
        matched := true;
        done := done + {partition};
        GapSumTake(done, partition, progress, latest);
        assert done - {partition} == progress.Keys * (latest.Keys - (pending + {partition}));
        var delta := latest[partition] - progress[partition];
        if delta > 0 {
          sum := sum + delta;
        }
      }
    }
    assert done == progress.Keys * latest.Keys;
    if !matched {
      return None;
    }
    return Some(sum);
  }

  lemma {:induction false} GapSumElsewhere(keys: set<string>, k: string, consumed: int, progress: map<string, int>, latest: map<string, int>)
    requires keys <= progress.Keys && keys <= latest.Keys && k !in keys
    ensures GapSum(keys, progress[k := consumed], latest) == GapSum(keys, progress, latest)
  {
    if keys != {} {
      var first :| first in keys;
      GapSumTake(keys, first, progress, latest);
      GapSumTake(keys, first, progress[k := consumed], latest);
      GapSumElsewhere(keys - {first}, k, consumed, progress, latest);
    }
  }

  /** Consuming `d` more of one shared partition lowers the lag by somewhere between nothing and `d`, down to where it is caught up. */
  lemma ProgressLowersLag(progress: map<string, int>, latest: map<string, int>, k: string, d: nat)
    requires k in progress && k in latest
    ensures var shared := progress.Keys * latest.Keys;
            var before := GapSum(shared, progress, latest);
            var after := GapSum(shared, progress[k := progress[k] + d], latest);
            && before - d <= after <= before
            && before - after == (if d <= Gap(progress, latest, k) then d else Gap(progress, latest, k))
  {
    var shared := progress.Keys * latest.Keys;
    var advanced := progress[k := progress[k] + d];
    GapSumTake(shared, k, progress, latest);
    GapSumTake(shared, k, advanced, latest);
    GapSumElsewhere(shared - {k}, k, progress[k] + d, progress, latest);
  }

  /** The lag is nothing exactly when every shared partition is caught up. */
  lemma {:induction false} NoLagIffCaughtUp(keys: set<string>, progress: map<string, int>, latest: map<string, int>)
    requires keys <= progress.Keys && keys <= latest.Keys
    ensures GapSum(keys, progress, latest) == 0 <==> forall k :: k in keys ==> latest[k] <= progress[k]
  {
    if keys != {} {
      var first :| first in keys;
      GapSumTake(keys, first, progress, latest);
      NoLagIffCaughtUp(keys - {first}, progress, latest);
      if forall k :: k in keys - {first} ==> latest[k] <= progress[k] {
        assert latest[first] <= progress[first] <==> Gap(progress, latest, first) == 0;
        assert forall k :: k in keys ==> k == first || k in keys - {first};
      } else {
        var k :| k in keys - {first} && latest[k] > progress[k];
        assert k in keys;
      }
    }
  }

  // ----- The sweep -----

  const SYSTEM_DATABASES := {"information_schema", "sys", "_statistics_"}

  /** A database and what asking it for its jobs gives. */
  datatype Database = Database(name: string, jobs: Result<seq<string>, string>)

  predicate IsSwept(d: Database) {
    d.name != "" && ToLower(d.name) !in SYSTEM_DATABASES
  }

  function JobsOf(databases: seq<Database>): seq<string> {
    if databases == [] then []
    else
      var n := |databases| - 1;
      if IsSwept(databases[n]) && databases[n].jobs.Success? then JobsOf(databases[..n]) + databases[n].jobs.value
      else JobsOf(databases[..n])
  }

  /** The databases that were asked and failed. */
  function Unreadable(databases: seq<Database>): seq<string> {
    if databases == [] then []
    else
      var n := |databases| - 1;
      if IsSwept(databases[n]) && databases[n].jobs.Failure? then Unreadable(databases[..n]) + [databases[n].name]
      else Unreadable(databases[..n])
  }

  /** Some database was there to ask. */
  ghost predicate AnyAsked(databases: seq<Database>) {
    exists d :: d in databases && IsSwept(d)
  }

  /** Every database that was asked failed. */
  ghost predicate AllFailed(databases: seq<Database>) {
    forall d :: d in databases && IsSwept(d) ==> d.jobs.Failure?
  }

  lemma SweepOneMore(databases: seq<Database>, last: Database)
    ensures JobsOf(databases + [last]) ==
            if IsSwept(last) && last.jobs.Success? then JobsOf(databases) + last.jobs.value else JobsOf(databases)
    ensures Unreadable(databases + [last]) ==
            if IsSwept(last) && last.jobs.Failure? then Unreadable(databases) + [last.name] else Unreadable(databases)
  {
    assert (databases + [last])[..|databases|] == databases;
  }

  lemma AskedOneMore(databases: seq<Database>, last: Database)
    ensures AnyAsked(databases + [last]) <==> AnyAsked(databases) || IsSwept(last)
    ensures AllFailed(databases + [last]) <==> AllFailed(databases) && (IsSwept(last) ==> last.jobs.Failure?)
  {
    assert last in databases + [last];
    if d :| d in databases && IsSwept(d) {
      assert d in databases + [last];
    }
    if d :| d in databases && IsSwept(d) && !d.jobs.Failure? {
      assert d in databases + [last];
    }
  }

  datatype Swept = Swept(rows: seq<string>, warnings: seq<string>)

  /**
   A database that cannot be read becomes a warning; the sweep fails only when there was something to
   ask and everything asked failed.
   */
  method JobsViaShow(databases: Result<seq<Database>, string>) returns (result: Result<Swept, string>)
    ensures databases.Failure? ==> result.Failure?
    ensures databases.Success? ==>
              (result.Failure? <==> AnyAsked(databases.value) && AllFailed(databases.value))
    ensures result.Success? ==>
              databases.Success? && result.value == Swept(JobsOf(databases.value), Unreadable(databases.value))
  {
    if databases.Failure? {
      return Failure(databases.error);
    }
    var dbs := databases.value;
    var rows, warnings := [], [];
    var attempted, failed: nat := 0, 0;
    for i := 0 to |dbs|
      invariant rows == JobsOf(dbs[..i]) && warnings == Unreadable(dbs[..i])
      invariant failed <= attempted
      invariant attempted > 0 <==> AnyAsked(dbs[..i])
      invariant attempted == failed <==> AllFailed(dbs[..i])
    {
      var d := dbs[i];
      assert dbs[..i + 1] == dbs[..i] + [d];
      SweepOneMore(dbs[..i], d);
      AskedOneMore(dbs[..i], d);
      if !IsSwept(d) {
        continue;
      }
      attempted := attempted + 1;
      if d.jobs.Failure? {
        failed := failed + 1;
        warnings := warnings + [d.name];
        continue;
      }
      rows := rows + d.jobs.value;
    }
    assert dbs[..|dbs|] == dbs;
    if attempted > 0 && failed == attempted {
      return Failure("all databases failed");
    }
    return Success(Swept(rows, warnings));
  }

  /** What the sweep yields comes from databases it asked, and it warns of those only. */
  lemma {:induction false} NothingElseIsSwept(databases: seq<Database>)
    ensures forall job :: job in JobsOf(databases) ==>
                            exists d :: d in databases && IsSwept(d) && d.jobs.Success? && job in d.jobs.value
    ensures forall name :: name in Unreadable(databases) ==>
                             exists d :: d in databases && IsSwept(d) && d.jobs.Failure? && d.name == name
  {
    if databases != [] {
      var n := |databases| - 1;
      NothingElseIsSwept(databases[..n]);
      assert databases == databases[..n] + [databases[n]];
      assert databases[n] in databases;
    }
  }

  /** The sweep goes database by database, in the order they are listed. */
  lemma {:induction false} SweepAppend(a: seq<Database>, b: seq<Database>)
    ensures JobsOf(a + b) == JobsOf(a) + JobsOf(b) && Unreadable(a + b) == Unreadable(a) + Unreadable(b)
    decreases |b|
  {
    if b == [] {
      assert a + b == a;
    } else {
      var n := |b| - 1;
      SweepAppend(a, b[..n]);
      assert (a + b)[..|a + b| - 1] == a + b[..n];
      Regroup(JobsOf(a), JobsOf(b[..n]), if IsSwept(b[n]) && b[n].jobs.Success? then b[n].jobs.value else []);
      Regroup(Unreadable(a), Unreadable(b[..n]), if IsSwept(b[n]) && b[n].jobs.Failure? then [b[n].name] else []);
    }
  }

  lemma Regroup(a: seq<string>, b: seq<string>, c: seq<string>)
    ensures a + (b + c) == a + b + c
  {
  }

  lemma SweepNothing(d: Database)
    requires d.name == "" || ToLower(d.name) in {"information_schema", "sys", "_statistics_"}
    ensures JobsOf([d]) == [] && Unreadable([d]) == []
  {
    assert [d][..0] == [];
  }

  /** A system database, or one without a name, is never asked: the sweep is the same without it. */
  lemma SystemDatabasesAreSkipped(a: seq<Database>, d: Database, b: seq<Database>)
    requires d.name == "" || ToLower(d.name) in {"information_schema", "sys", "_statistics_"}
    ensures JobsOf(a + [d] + b) == JobsOf(a + b) && Unreadable(a + [d] + b) == Unreadable(a + b)
  {
    SweepAppend(a + [d], b);
    SweepAppend(a, [d]);
    SweepAppend(a, b);
    SweepNothing(d);
  }

  /** Every user database is asked and accounted for: its jobs are among the rows, or its name among the warnings. */
  lemma {:induction false} NoDatabaseIsLost(databases: seq<Database>, i: nat)
    requires i < |databases| && databases[i].name != ""
    requires ToLower(databases[i].name) !in {"information_schema", "sys", "_statistics_"}
    ensures databases[i].jobs.Success? ==> forall job :: job in databases[i].jobs.value ==> job in JobsOf(databases)
    ensures databases[i].jobs.Failure? ==> databases[i].name in Unreadable(databases)
  {
    var n := |databases| - 1;
    if i < n {
      NoDatabaseIsLost(databases[..n], i);
    }
  }
}
