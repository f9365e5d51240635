/**
 One worksheet statement on a pooled connection (backend/internal/repository/query_repository.go:54-100).

 A connection carries a session database that outlives the request. Execute selects the requested
 database, runs the statement, and selects the default again or poisons the connection so that the
 pool drops it. A USE that fails is assumed to leave the session as it was.
 */
module QuerySession {
  import opened Wrappers
  import opened Identifier
  import opened ResultCursor

  /** A statement, with what the server does when it succeeds: deliver a feed, and perhaps switch the session database. */
  datatype Statement = Statement(text: string, feed: Result<Feed, string>, switchesTo: Option<string>)

  predicate IsScoped(database: string, defaultDatabase: string) {
    database != "" && database != defaultDatabase
  }

  /** The database a request is entitled to. */
  function Wanted(database: string, defaultDatabase: string): string {
    if database == "" then defaultDatabase else database
  }

  /** The session database once a statement has run. */
  function SessionAfter(session: string, s: Statement): string {
    if s.feed.Success? then s.switchesTo.GetOr(session) else session
  }

  class Connection {
    var session: string
    var bad: bool
    /** The session database each statement ran in. */
    ghost var ranIn: seq<string>
    /** Whether each selection of a database succeeded. */
    ghost var uses: seq<bool>

    constructor (session: string)
      ensures this.session == session && !bad && ranIn == [] && uses == []
    {
      this.session, bad, ranIn, uses := session, false, [], [];
    }

    method Use(quoted: string) returns (ok: bool)
      requires Read(quoted).Some?
      modifies this
      ensures session == if ok then Read(quoted).value.name else old(session)
      ensures bad == old(bad) && ranIn == old(ranIn) && uses == old(uses) + [ok]
    {
      ok := *;
      uses := uses + [ok];
      if ok {
        session := Read(quoted).value.name;
      }
    }

    method Query(s: Statement) returns (cursor: Result<Cursor, string>)
      modifies this
      ensures ranIn == old(ranIn) + [old(session)] && bad == old(bad) && uses == old(uses)
      ensures session == SessionAfter(old(session), s)
      ensures cursor.Success? <==> s.feed.Success?
      ensures cursor.Failure? ==> cursor.error == s.feed.error
      ensures cursor.Success? ==>
                && fresh(cursor.value) && cursor.value.feed == s.feed.value && cursor.value.Valid()
                && cursor.value.position == 0 && cursor.value.calls == 0 && !cursor.value.broken
    {
      ranIn := ranIn + [session];
      if s.feed.Failure? {
        return Failure(s.feed.error);
      }
      session := s.switchesTo.GetOr(session);
      var c := new Cursor(s.feed.value);
      return Success(c);
    }

    method Poison()
      modifies this
      ensures bad && session == old(session) && ranIn == old(ranIn) && uses == old(uses)
    {
      bad := true;
    }
  }

  datatype ExecError = UseFailed | QueryFailed(reason: string) | ReadFailed(detail: string)

  class QueryRepository {
    const defaultDatabase: string

    constructor (defaultDatabase: string)
      ensures this.defaultDatabase == defaultDatabase
    {
      this.defaultDatabase := defaultDatabase;
    }

    method RestoreDatabase(conn: Connection)
      modifies conn
      ensures conn.bad || conn.session == defaultDatabase
      ensures if defaultDatabase == "" then conn.bad && conn.uses == old(conn.uses)
              else old(conn.uses) <= conn.uses && |conn.uses| == |old(conn.uses)| + 1
                   && (conn.bad <==> old(conn.bad) || !conn.uses[|old(conn.uses)|])
      ensures conn.ranIn == old(conn.ranIn)
    {
      if defaultDatabase == "" {
        conn.Poison();
        return;
      }
      ReadQuoted(defaultDatabase, "");
      assert Quote(defaultDatabase) + "" == Quote(defaultDatabase);
      var ok := conn.Use(Quote(defaultDatabase));
      if !ok {
        conn.Poison();
      }
    }

    /**
     The statement runs once, in the wanted database, or not at all if that could not be selected.
     The connection goes back clean or is dropped, except exactly when an unscoped statement succeeds
     in switching the session elsewhere.
     */
    method Execute(conn: Connection, s: Statement, database: string, maxRows: nat)
      returns (result: Result<ResultSet, ExecError>)
      requires conn.session == defaultDatabase && !conn.bad
      modifies conn
      ensures conn.ranIn == old(conn.ranIn) + (if result.Failure? && result.error.UseFailed? then []
                                               else [Wanted(database, defaultDatabase)])
      ensures result.Failure? && result.error.UseFailed? ==> IsScoped(database, defaultDatabase)
      ensures conn.bad || conn.session == defaultDatabase <==>
              IsScoped(database, defaultDatabase) || SessionAfter(defaultDatabase, s) == defaultDatabase
      ensures !IsScoped(database, defaultDatabase) ==> !conn.bad && conn.uses == old(conn.uses)
      ensures IsScoped(database, defaultDatabase) ==>
                var n := |old(conn.uses)|;
                && |conn.uses| > n
                && (result.Failure? && result.error.UseFailed? <==> !conn.uses[n])
                && (if !conn.uses[n] then !conn.bad && |conn.uses| == n + 1
                    else if defaultDatabase == "" then conn.bad && |conn.uses| == n + 1
                    else |conn.uses| == n + 2 && (conn.bad <==> !conn.uses[n + 1]))
      ensures database == "" || database == defaultDatabase ==>
                conn.ranIn == old(conn.ranIn) + [defaultDatabase] && !conn.bad
      ensures database != "" ==> conn.ranIn == old(conn.ranIn) || conn.ranIn == old(conn.ranIn) + [database]
      ensures result.Success? ==> s.feed.Success? && !FailsWithin(s.feed.value, maxRows)
                                  && result.value == Capped(s.feed.value, maxRows)
                                  && AreFirstRows(result.value.rows, s.feed.value, maxRows)
                                  && IsWhole(result.value, s.feed.value)
      ensures result.Failure? && !result.error.UseFailed? ==>
                if s.feed.Failure? then result.error == QueryFailed(s.feed.error)
                else result.error.ReadFailed? && FailsWithin(s.feed.value, maxRows)
    {
      var scoped := database != "" && database != defaultDatabase;
      if scoped {
        ReadQuoted(database, "");
        assert Quote(database) + "" == Quote(database);
        var ok := conn.Use(Quote(database));
        if !ok {
          return Failure(UseFailed);
        }
      }
      var cursor := conn.Query(s);
      if cursor.Failure? {
        result := Failure(QueryFailed(cursor.error));
      } else {
        var collected := CollectResultSet(cursor.value, maxRows);
        result := if collected.Success? then Success(collected.value) else Failure(ReadFailed(collected.error));
      }
      if scoped {
        RestoreDatabase(conn);
      }
    }
  }

  // ----- Many requests over one pool -----

  /** Where a request stands: it holds a connection, has selected its database, has run, or is done with the connection. */
  datatype Stage = Acquired | Selected | Ran | Finished(poisoned: bool)

  datatype Task = Task(database: string, session: string, stage: Stage)

  datatype Execution = Execution(database: string, session: string)

  /** Idle connections by session database, requests by number, and the statements run so far. */
  datatype Pool = Pool(idle: multiset<string>, tasks: map<nat, Task>, log: seq<Execution>)

  datatype Event =
    | Acquire(task: nat, database: string, reuse: Option<string>)
    | Use(task: nat, ok: bool)
    | Query(task: nat, statement: Statement)
    | Restore(task: nat, ok: bool)
    | Close(task: nat)

  /** One step of one request, on a pool whose server default is given. A step out of turn changes nothing. */
  function Next(default: string, pool: Pool, e: Event): Pool {
    if e.Acquire? then
      if e.task in pool.tasks then pool
      else if e.reuse.None? then pool.(tasks := pool.tasks[e.task := Task(e.database, default, Acquired)])
      else if e.reuse.value in pool.idle then
        pool.(idle := pool.idle - multiset{e.reuse.value},
              tasks := pool.tasks[e.task := Task(e.database, e.reuse.value, Acquired)])
      else pool
    else if e.task !in pool.tasks then pool
    else
      var t := pool.tasks[e.task];
      var scoped := IsScoped(t.database, default);
      match e
      case Use(k, ok) =>
        if t.stage != Acquired || !scoped then pool
        else if ok then pool.(tasks := pool.tasks[k := t.(session := t.database, stage := Selected)])
        else pool.(tasks := pool.tasks[k := t.(stage := Finished(false))])
      case Query(k, s) =>
        if t.stage != (if scoped then Selected else Acquired) then pool
        else
          pool.(tasks := pool.tasks[k := t.(session := SessionAfter(t.session, s), stage := if scoped then Ran else Finished(false))],
                log := pool.log + [Execution(t.database, t.session)])
      case Restore(k, ok) =>
        if t.stage != Ran then pool
        else if default == "" || !ok then pool.(tasks := pool.tasks[k := t.(stage := Finished(true))])
        else pool.(tasks := pool.tasks[k := t.(session := default, stage := Finished(false))])
      case Close(k) =>
        if !t.stage.Finished? then pool
        else
          pool.(tasks := pool.tasks - {k},
                idle := if t.stage.poisoned then pool.idle else pool.idle + multiset{t.session})
  }

  function Run(default: string, pool: Pool, events: seq<Event>): Pool {
    if events == [] then pool
    else Next(default, Run(default, pool, events[..|events| - 1]), events[|events| - 1])
  }

  /** A query that is unscoped and moves the session off the default database. */
  predicate Strays(default: string, pool: Pool, e: Event) {
    && e.Query? && e.task in pool.tasks
    && !IsScoped(pool.tasks[e.task].database, default) && pool.tasks[e.task].stage == Acquired
    && SessionAfter(pool.tasks[e.task].session, e.statement) != default
  }

  predicate StraysAt(default: string, pool: Pool, events: seq<Event>, i: nat)
    requires i < |events|
  {
    Strays(default, Run(default, pool, events[..i]), events[i])
  }

  ghost predicate NothingStrays(default: string, pool: Pool, events: seq<Event>) {
    forall i :: 0 <= i < |events| ==> !StraysAt(default, pool, events, i)
  }

  predicate TaskClean(default: string, t: Task) {
    match t.stage
    case Acquired => t.session == default
    case Selected => IsScoped(t.database, default) && t.session == t.database
    case Ran => IsScoped(t.database, default)
    case Finished(poisoned) => poisoned || t.session == default
  }

  ghost predicate Clean(default: string, pool: Pool) {
    && (forall session :: session in pool.idle ==> session == default)
    && (forall k :: k in pool.tasks ==> TaskClean(default, pool.tasks[k]))
    && (forall i :: 0 <= i < |pool.log| ==> pool.log[i].session == Wanted(pool.log[i].database, default))
  }

  lemma NextTasksClean(default: string, pool: Pool, e: Event)
    requires Clean(default, pool) && !Strays(default, pool, e)
    ensures var after := Next(default, pool, e);
            forall k :: k in after.tasks ==> TaskClean(default, after.tasks[k])
  {
    var after := Next(default, pool, e);
    forall k | k in after.tasks
      ensures TaskClean(default, after.tasks[k])
    {
      if k != e.task {
        assert k in pool.tasks && after.tasks[k] == pool.tasks[k];
      }
    }
  }

  lemma NextIdleClean(default: string, pool: Pool, e: Event)
    requires Clean(default, pool)
    ensures forall session :: session in Next(default, pool, e).idle ==> session == default
  {
    if e.Close? && e.task in pool.tasks {
      assert TaskClean(default, pool.tasks[e.task]);
    }
  }

  lemma NextLogClean(default: string, pool: Pool, e: Event)
    requires Clean(default, pool)
    ensures var log := Next(default, pool, e).log;
            forall i :: 0 <= i < |log| ==> log[i].session == Wanted(log[i].database, default)
  {
    if e.Query? && e.task in pool.tasks {
      assert TaskClean(default, pool.tasks[e.task]);
    }
  }

  lemma NextClean(default: string, pool: Pool, e: Event)
    requires Clean(default, pool) && !Strays(default, pool, e)
    ensures Clean(default, Next(default, pool, e))
  {
    NextTasksClean(default, pool, e);
    NextIdleClean(default, pool, e);
    NextLogClean(default, pool, e);
  }

  lemma StraysInPrefix(default: string, pool: Pool, events: seq<Event>, n: nat, i: nat)
    requires i < n <= |events|
    ensures StraysAt(default, pool, events[..n], i) == StraysAt(default, pool, events, i)
  {
    assert events[..n][..i] == events[..i];
  }

  lemma NothingStraysSplits(default: string, pool: Pool, events: seq<Event>)
    requires events != []
    ensures var n := |events| - 1;
            NothingStrays(default, pool, events) <==>
            NothingStrays(default, pool, events[..n]) && !StraysAt(default, pool, events, n)
  {
    var n := |events| - 1;
    forall i | 0 <= i < n
      ensures StraysAt(default, pool, events[..n], i) == StraysAt(default, pool, events, i)
    {
      StraysInPrefix(default, pool, events, n, i);
    }
  }

  /**
   However requests interleave, with any of their calls failing, as long as no unscoped statement
   strays every statement runs in its wanted database and every idle connection has the default one.
   */
  lemma {:induction false} PoolStaysClean(default: string, pool: Pool, events: seq<Event>)
    requires Clean(default, pool) && NothingStrays(default, pool, events)
    ensures Clean(default, Run(default, pool, events))
  {
    if events != [] {
      var n := |events| - 1;
      NothingStraysSplits(default, pool, events);
      PoolStaysClean(default, pool, events[..n]);
      NextClean(default, Run(default, pool, events[..n]), events[n]);
    }
  }

  /** The steps of a request that meets no error. */
  function Served(k: nat, database: string, s: Statement, scoped: bool): seq<Event> {
    if scoped then [Acquire(k, database, None)] + [Use(k, true)] + [Query(k, s)] + [Restore(k, true)] + [Close(k)]
    else [Acquire(k, database, None)] + [Query(k, s)] + [Close(k)]
  }

  lemma RunOne(default: string, pool: Pool, events: seq<Event>, e: Event)
    ensures Run(default, pool, events + [e]) == Next(default, Run(default, pool, events), e)
  {
    assert (events + [e])[..|events|] == events;
  }

  lemma FirstStep(default: string, pool: Pool, e: Event)
    ensures Run(default, pool, [e]) == Next(default, pool, e)
  {
    assert [e][..0] == [];
  }

  /**
   A request that meets no error is served: its statement runs, once, in the database it asks for, or
   the default if it asks for none, and its connection is given back.
   */
  lemma ScopedRequestIsServed(default: string, pool: Pool, k: nat, database: string, s: Statement)
    requires k !in pool.tasks && default != "" && database != "" && database != default
    ensures var end := Run(default, pool, Served(k, database, s, true));
            && end.log == pool.log + [Execution(database, database)]
            && end.tasks == pool.tasks && end.idle == pool.idle + multiset{default}
  {
    var a := [Acquire(k, database, None)];
    FirstStep(default, pool, a[0]);
    RunOne(default, pool, a, Use(k, true));
    RunOne(default, pool, a + [Use(k, true)], Query(k, s));
    RunOne(default, pool, a + [Use(k, true)] + [Query(k, s)], Restore(k, true));
    RunOne(default, pool, a + [Use(k, true)] + [Query(k, s)] + [Restore(k, true)], Close(k));
  }

  lemma UnscopedRequestIsServed(default: string, pool: Pool, k: nat, database: string, s: Statement)
    requires k !in pool.tasks && (database == "" || database == default)
    ensures var end := Run(default, pool, Served(k, database, s, false));
            && end.log == pool.log + [Execution(database, default)]
            && end.tasks == pool.tasks
            && end.idle == pool.idle + multiset{if s.feed.Success? then s.switchesTo.GetOr(default) else default}
  {
    var a := [Acquire(k, database, None)];
    FirstStep(default, pool, a[0]);
    RunOne(default, pool, a, Query(k, s));
    RunOne(default, pool, a + [Query(k, s)], Close(k));
  }

  /** The proviso is needed each time: a statement that strays leaves its session database in the pool for the next request. */
  lemma StrayingLeaks(default: string, pool: Pool, e: Event)
    requires Clean(default, pool) && Strays(default, pool, e)
    ensures !Clean(default, Next(default, pool, e))
    ensures var returned := Next(default, Next(default, pool, e), Close(e.task));
            exists session :: session in returned.idle && session != default
  {
    var straying := Next(default, pool, e);
    assert !TaskClean(default, straying.tasks[e.task]);
    var returned := Next(default, straying, Close(e.task));
    assert straying.tasks[e.task].session in returned.idle;
  }

  ghost predicate CleanAt(default: string, pool: Pool, events: seq<Event>, i: nat)
    requires i <= |events|
  {
    Clean(default, Run(default, pool, events[..i]))
  }

  lemma CleanBeforeStraying(default: string, pool: Pool, events: seq<Event>, i: nat)
    requires Clean(default, pool) && NothingStrays(default, pool, events) && i <= |events|
    ensures CleanAt(default, pool, events, i)
  {
    forall j | 0 <= j < i
      ensures !StraysAt(default, pool, events[..i], j)
    {
      StraysInPrefix(default, pool, events, i, j);
    }
    PoolStaysClean(default, pool, events[..i]);
  }

  lemma StrayingShows(default: string, pool: Pool, events: seq<Event>, i: nat)
    requires i < |events| && StraysAt(default, pool, events, i)
    ensures !(CleanAt(default, pool, events, i) && CleanAt(default, pool, events, i + 1))
  {
    assert events[..i + 1][..i] == events[..i];
    if CleanAt(default, pool, events, i) {
      StrayingLeaks(default, Run(default, pool, events[..i]), events[i]);
    }
  }

  /** So a pool is clean throughout a run exactly when nothing in it strays. */
  lemma CleanThroughoutIffNothingStrays(default: string, pool: Pool, events: seq<Event>)
    requires Clean(default, pool)
    ensures NothingStrays(default, pool, events) <==>
            forall i :: 0 <= i <= |events| ==> CleanAt(default, pool, events, i)
  {
    if NothingStrays(default, pool, events) {
      forall i | 0 <= i <= |events|
        ensures CleanAt(default, pool, events, i)
      {
        CleanBeforeStraying(default, pool, events, i);
      }
    } else {
      var i :| 0 <= i < |events| && StraysAt(default, pool, events, i);
      StrayingShows(default, pool, events, i);
    }
  }
}
