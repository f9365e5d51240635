/**
 The evaluation loop that drives the manager (backend/internal/alert/poller.go) and the merge of
 its alert sources (backend/internal/alert/collect.go).

 A tick is what one pass of the loop finds: the settings it re-reads and the outcome of collecting.
 The loop runs until its context is cancelled, which is after the last tick given.
 */
module AlertPoller {
  import opened Wrappers
  import opened Totals
  import opened AlertManager
  import opened AlertDelivery
  import opened AlertCooldown

  const FALLBACK_INTERVAL: int := 30_000_000_000

  type Found = Result<seq<Alert>, string>

  datatype Tick = Tick(enabled: bool, interval: int, found: Found)

  function Wait(interval: int): (wait: int)
    ensures wait > 0
  {
    if interval <= 0 then FALLBACK_INTERVAL else interval
  }

  /** When the loop wakes after these ticks, timers being exact and evaluation instantaneous. */
  function Clock(start: int, ticks: seq<Tick>): int {
    if ticks == [] then start
    else Clock(start, ticks[..|ticks| - 1]) + Wait(ticks[|ticks| - 1].interval)
  }

  function TickOps(now: int, tick: Tick): seq<Op> {
    if tick.enabled then FoundOps(now, tick.found) else []
  }

  function FoundOps(now: int, found: Found): seq<Op> {
    if found.Success? then Dispatches(now, found.value) else []
  }

  function Dispatches(now: int, alerts: seq<Alert>): seq<Op> {
    if alerts == [] then []
    else Dispatches(now, alerts[..|alerts| - 1]) + [Op.Dispatch(alerts[|alerts| - 1], now, now)]
  }

  /** The operations the loop performs on the manager. */
  function PollOps(start: int, ticks: seq<Tick>): seq<Op> {
    if ticks == [] then []
    else
      var init := ticks[..|ticks| - 1];
      PollOps(start, init) + TickOps(Clock(start, init), ticks[|ticks| - 1])
  }

  /** The manager together with everything it has sent, callers never being interrupted. */
  datatype Office = Office(manager: State, sent: seq<Delivery>)

  function Act(o: Office, op: Op): Office {
    Office(Locked(o.manager, op), o.sent + Owed(o.manager, op))
  }

  function Fold<S, T>(f: (S, T) -> S, s: S, items: seq<T>): S {
    if items == [] then s else f(Fold(f, s, items[..|items| - 1]), items[|items| - 1])
  }

  lemma FoldOne<S, T>(f: (S, T) -> S, s: S, items: seq<T>, item: T)
    ensures Fold(f, s, items + [item]) == f(Fold(f, s, items), item)
  {
    assert (items + [item])[..|items|] == items;
  }

  lemma {:induction false} FoldAppend<S, T>(f: (S, T) -> S, s: S, a: seq<T>, b: seq<T>)
    ensures Fold(f, Fold(f, s, a), b) == Fold(f, s, a + b)
    decreases |b|
  {
    if b == [] {
      assert a + b == a;
    } else {
      var n := |b| - 1;
      FoldAppend(f, s, a, b[..n]);
      assert a + b == (a + b[..n]) + [b[n]];
      FoldOne(f, s, a + b[..n], b[n]);
    }
  }

  /** Uninterrupted operations leave the manager as they do in a run of AlertDelivery. */
  lemma {:induction false} FoldIsRun(o: Office, ops: seq<Op>)
    ensures Fold(Act, o, ops).manager == Run(o.manager, ops).manager
  {
    if ops != [] {
      FoldIsRun(o, ops[..|ops| - 1]);
    }
  }

  /** The same, one tick at a time. */
  function Polled(o: Office, start: int, ticks: seq<Tick>): Office {
    if ticks == [] then o
    else
      var init := ticks[..|ticks| - 1];
      Fold(Act, Polled(o, start, init), TickOps(Clock(start, init), ticks[|ticks| - 1]))
  }

  function Waits(ticks: seq<Tick>): seq<int> {
    if ticks == [] then [] else Waits(ticks[..|ticks| - 1]) + [Wait(ticks[|ticks| - 1].interval)]
  }

  lemma TickAt(o: Office, start: int, ticks: seq<Tick>, i: nat)
    requires i < |ticks|
    ensures var done := ticks[..i];
            && Clock(start, ticks[..i + 1]) == Clock(start, done) + Wait(ticks[i].interval)
            && Waits(ticks[..i + 1]) == Waits(done) + [Wait(ticks[i].interval)]
            && Polled(o, start, ticks[..i + 1]) == Fold(Act, Polled(o, start, done), TickOps(Clock(start, done), ticks[i]))
  {
    PrefixInit(ticks, i);
  }

  lemma PrefixInit(ticks: seq<Tick>, i: nat)
    requires i < |ticks|
    ensures ticks[..i + 1][..i] == ticks[..i] && |ticks[..i + 1]| == i + 1 && ticks[..i + 1][i] == ticks[i]
  {
  }

  /** Polling tick by tick is the run of all its operations, and ends in the state that run ends in. */
  lemma {:induction false} PolledIsRun(o: Office, start: int, ticks: seq<Tick>)
    ensures Polled(o, start, ticks) == Fold(Act, o, PollOps(start, ticks))
    ensures Polled(o, start, ticks).manager == Run(o.manager, PollOps(start, ticks)).manager
  {
    FoldIsRun(o, PollOps(start, ticks));
    if ticks != [] {
      var init := ticks[..|ticks| - 1];
      PolledIsRun(o, start, init);
      FoldAppend(Act, o, PollOps(start, init), TickOps(Clock(start, init), ticks[|ticks| - 1]));
    }
  }

  class Poller {
    const manager: Manager

    constructor (manager: Manager)
      ensures this.manager == manager
    {
      this.manager := manager;
    }

    ghost function Abs(): Office
      reads manager, manager.wire
    {
      Office(manager.Abs(), manager.wire.sent)
    }

    method Dispatch(alert: Alert, now: int)
      modifies manager, manager.wire
      ensures Abs() == Act(old(Abs()), Op.Dispatch(alert, now, now))
    {
      var _ := manager.Dispatch(alert, now, now);
    }

    /** A failed collection dispatches nothing; it is retried on the next tick. */
    method Evaluate(found: Found, now: int)
      modifies manager, manager.wire
      ensures Abs() == Fold(Act, old(Abs()), FoundOps(now, found))
    {
      if found.Failure? {
        return;
      }
      var alerts := found.value;
      ghost var o := Abs();
      for i := 0 to |alerts|
        invariant Abs() == Fold(Act, o, Dispatches(now, alerts[..i]))
      {
        Dispatch(alerts[i], now);
        assert alerts[..i + 1][..i] == alerts[..i];
        FoldOne(Act, o, Dispatches(now, alerts[..i]), Op.Dispatch(alerts[i], now, now));
      }
      assert alerts[..|alerts|] == alerts;
    }

    /** One pass of the loop; the timer is then set to the interval returned. */
    method Pass(now: int, tick: Tick) returns (interval: int)
      modifies manager, manager.wire
      ensures Abs() == Fold(Act, old(Abs()), TickOps(now, tick))
      ensures !tick.enabled || tick.found.Failure? ==> Abs() == old(Abs())
      ensures tick.enabled && tick.found.Success? ==> Abs() == Fold(Act, old(Abs()), Dispatches(now, tick.found.value))
      ensures interval == Wait(tick.interval)
      ensures interval == if tick.interval > 0 then tick.interval else 30_000_000_000
    {
      if tick.enabled {
        Evaluate(tick.found, now);
      }
      interval := tick.interval;
      if interval <= 0 {
        interval := FALLBACK_INTERVAL;
      }
    }

    /** The loop has taken these ticks: it is this time, it has slept so long, and the manager is where polling brings it. */
    ghost predicate Reached(o: Office, start: int, done: seq<Tick>, now: int, slept: seq<int>)
      reads this, manager, manager.wire
    {
      now == Clock(start, done) && slept == Waits(done) && Abs() == Polled(o, start, done)
    }

    method Turn(ghost o: Office, ghost start: int, ticks: seq<Tick>, i: nat, now: int, slept: seq<int>)
      returns (next: int, all: seq<int>)
      requires i < |ticks| && Reached(o, start, ticks[..i], now, slept)
      modifies manager, manager.wire
      ensures Reached(o, start, ticks[..i + 1], next, all)
    {
      TickAt(o, start, ticks, i);
      var interval := Pass(now, ticks[i]);
      next, all := now + interval, slept + [interval];
    }

    /** Returns how long the loop slept after each tick. */
    method Run(start: int, ticks: seq<Tick>) returns (slept: seq<int>)
      modifies manager, manager.wire
      ensures slept == Waits(ticks)
      ensures Abs() == Polled(old(Abs()), start, ticks)
    {
      slept := [];
      var now := start;
      ghost var o := Abs();
      for i := 0 to |ticks|
        invariant Reached(o, start, ticks[..i], now, slept)
      {
        now, slept := Turn(o, start, ticks, i, now, slept);
      }
      assert ticks[..|ticks|] == ticks;
    }
  }

  // ----- Cadence -----

  /** How many of a tick's alerts carry the key. */
  function Times(alerts: seq<Alert>, key: string): nat {
    if alerts == [] then 0
    else Times(alerts[..|alerts| - 1], key) + if alerts[|alerts| - 1].key == key then 1 else 0
  }

  lemma {:induction false} TimesNone(alerts: seq<Alert>, key: string)
    requires forall i :: 0 <= i < |alerts| ==> alerts[i].key != key
    ensures Times(alerts, key) == 0
  {
    if alerts != [] {
      TimesNone(alerts[..|alerts| - 1], key);
    }
  }

  lemma {:induction false} TimesOnce(alerts: seq<Alert>, key: string, i: nat)
    requires i < |alerts| && alerts[i].key == key
    requires forall j :: 0 <= j < |alerts| && j != i ==> alerts[j].key != key
    ensures Times(alerts, key) == 1
  {
    var n := |alerts| - 1;
    if i == n {
      TimesNone(alerts[..n], key);
    } else {
      TimesOnce(alerts[..n], key, i);
    }
  }

  /** Every tick is an evaluation, `period` after the previous one, that reports the key once. */
  predicate ReportsEveryTick(ticks: seq<Tick>, key: string, period: int) {
    forall i :: 0 <= i < |ticks| ==>
                  && ticks[i].enabled && ticks[i].interval == period
                  && ticks[i].found.Success? && Times(ticks[i].found.value, key) == 1
  }

  /** The smallest number of periods, at least one, that spans the cooldown. */
  function Stride(cooldown: int, period: int): (q: int)
    requires period > 0
    ensures q >= 1
  {
    if cooldown <= period then 1 else (cooldown + period - 1) / period
  }

  /** It spans the cooldown, and one period fewer, if that leaves any, does not. */
  lemma StrideSpans(cooldown: int, period: int)
    requires period > 0
    ensures var q := Stride(cooldown, period);
            q * period >= cooldown && (q > 1 ==> (q - 1) * period < cooldown)
  {
  }

  lemma {:induction false} DispatchOffers(ops: seq<Op>, now: int, alerts: seq<Alert>, key: string)
    ensures Offers(ops + Dispatches(now, alerts), key) ==
            Offers(ops, key) + seq(Times(alerts, key), _ => Offer(now, now))
    ensures CooldownUnchanged(ops) ==> CooldownUnchanged(ops + Dispatches(now, alerts))
  {
    if alerts == [] {
      assert ops + Dispatches(now, alerts) == ops;
    } else {
      var n := |alerts| - 1;
      var init := ops + Dispatches(now, alerts[..n]);
      DispatchOffers(ops, now, alerts[..n], key);
      assert ops + Dispatches(now, alerts) == init + [Op.Dispatch(alerts[n], now, now)];
      assert (init + [Op.Dispatch(alerts[n], now, now)])[..|init|] == init;
    }
  }

  /** The n-th time on an even grid. */
  function At(start: int, period: int, n: nat): int {
    if n == 0 then start else At(start, period, n - 1) + period
  }

  lemma {:induction false} AtIs(start: int, period: int, n: nat)
    ensures At(start, period, n) == start + n * period
  {
    if n > 0 {
      AtIs(start, period, n - 1);
    }
  }

  lemma {:induction false} EvenClock(start: int, ticks: seq<Tick>, key: string, period: int)
    requires period > 0 && ReportsEveryTick(ticks, key, period)
    ensures Clock(start, ticks) == At(start, period, |ticks|)
  {
    if ticks != [] {
      EvenClock(start, ticks[..|ticks| - 1], key, period);
    }
  }

  lemma TickOffers(ops: seq<Op>, start: int, n: nat, alerts: seq<Alert>, key: string, period: int)
    requires Offers(ops, key) == Grid(start, period, n) && Times(alerts, key) == 1
    ensures Offers(ops + Dispatches(At(start, period, n), alerts), key) == Grid(start, period, n + 1)
  {
    var now := At(start, period, n);
    DispatchOffers(ops, now, alerts, key);
    assert seq(1, _ => Offer(now, now)) == [Offer(now, now)];
  }

  lemma {:induction false} PollOffers(start: int, ticks: seq<Tick>, key: string, period: int)
    requires period > 0 && ReportsEveryTick(ticks, key, period)
    ensures Offers(PollOps(start, ticks), key) == Grid(start, period, |ticks|)
    ensures CooldownUnchanged(PollOps(start, ticks))
  {
    if ticks != [] {
      var n := |ticks| - 1;
      var init := PollOps(start, ticks[..n]);
      var alerts := ticks[n].found.value;
      PollOffers(start, ticks[..n], key, period);
      EvenClock(start, ticks[..n], key, period);
      TickOffers(init, start, n, alerts, key, period);
      DispatchOffers(init, At(start, period, n), alerts, key);
      assert PollOps(start, ticks) == init + Dispatches(At(start, period, n), alerts);
    }
  }

  function Grid(start: int, period: int, n: nat): seq<Offer> {
    if n == 0 then [] else Grid(start, period, n - 1) + [Offer(At(start, period, n - 1), At(start, period, n - 1))]
  }

  lemma {:induction false} GridAt(start: int, period: int, n: nat, i: nat)
    requires i < n
    ensures |Grid(start, period, n)| == n
    ensures Grid(start, period, n)[i] == Offer(At(start, period, i), At(start, period, i))
  {
    if i < n - 1 {
      GridAt(start, period, n - 1, i);
    } else if n > 1 {
      GridAt(start, period, n - 1, 0);
    }
  }

  /** 0, q, 2q, ... below n. */
  function Multiples(q: int, n: nat): seq<nat>
    requires q >= 1
  {
    if n == 0 then []
    else if (n - 1) % q == 0 then Multiples(q, n - 1) + [n - 1] else Multiples(q, n - 1)
  }

  lemma {:induction false} LastMultiple(q: int, n: nat)
    requires q >= 1
    ensures n > 0 ==>
              var kept := Multiples(q, n);
              kept != [] && kept[|kept| - 1] == (n - 1) / q * q
  {
    if n > 1 {
      LastMultiple(q, n - 1);
      Neighbours(n - 1, q);
    }
  }

  /** Either `n` is the next multiple of `q`, or it falls under the same one as `n - 1`. */
  lemma Neighbours(n: nat, q: int)
    requires q >= 1 && n >= 1
    ensures n % q == 0 ==> n / q * q == n && (n - 1) / q * q == n - q
    ensures n % q != 0 ==> n / q * q == (n - 1) / q * q
    ensures n - q <= (n - 1) / q * q <= n - 1
  {
    var d, r := n / q, n % q;
    assert n == d * q + r;
    if r == 0 {
      assert n - 1 == (d - 1) * q + (q - 1);
      QuotientIs(n - 1, q, d - 1, q - 1);
    } else {
      QuotientIs(n - 1, q, d, r - 1);
    }
  }

  lemma QuotientIs(n: nat, q: int, d: int, r: int)
    requires q >= 1 && 0 <= r < q && n == d * q + r
    ensures n / q == d
  {
    var e := n / q;
    assert n == e * q + n % q;
    if e < d {
      Product(e + 1, d, q);
      assert false;
    } else if e > d {
      Product(d + 1, e, q);
      assert false;
    }
  }

  lemma Product(a: int, b: int, q: int)
    requires a <= b && q >= 0
    ensures a * q <= b * q
  {
  }

  /** The n-th tick is clear of the last multiple of the stride before it exactly when it is one itself. */
  lemma ClearOnMultiples(n: nat, period: int, cooldown: int)
    requires period > 0 && n >= 1
    ensures var q := Stride(cooldown, period);
            n * period - (n - 1) / q * q * period >= cooldown <==> n % q == 0
  {
    var q := Stride(cooldown, period);
    var last := (n - 1) / q * q;
    StrideSpans(cooldown, period);
    Neighbours(n, q);
    assert n * period - last * period == (n - last) * period;
    if n % q == 0 {
      assert n - last == q;
    } else {
      NotWhole(n, q);
      Product(n - last, q - 1, period);
    }
  }

  lemma NotWhole(n: nat, q: int)
    requires q >= 1 && n >= 1 && n % q != 0
    ensures n - (n - 1) / q * q <= q - 1
  {
    Neighbours(n, q);
    assert n == n / q * q + n % q;
  }

  predicate KeepsMultiples(start: int, period: int, cooldown: int, n: nat)
    requires period > 0
  {
    Greedy(Grid(start, period, n), cooldown) == Multiples(Stride(cooldown, period), n)
  }

  lemma KeptNone(start: int, period: int, cooldown: int)
    requires period > 0
    ensures KeepsMultiples(start, period, cooldown, 0)
  {
  }

  ghost predicate Within(kept: seq<nat>, n: nat) {
    forall i :: 0 <= i < |kept| ==> kept[i] < n
  }

  function Keep(kept: seq<nat>, n: nat, more: bool): seq<nat> {
    if more then kept + [n] else kept
  }

  /** The next offer on the grid is clear of the last one kept. */
  predicate NextIsClear(start: int, period: int, cooldown: int, kept: seq<nat>, n: nat)
    requires Within(kept, |Grid(start, period, n)|)
  {
    View(cooldown, LastStamp(Grid(start, period, n), kept)).Clear(At(start, period, n))
  }

  /** After the multiples of the stride, it is so exactly when it is a multiple itself. */
  lemma ClearNext(start: int, period: int, cooldown: int, n: nat)
    requires period > 0 && Within(Multiples(Stride(cooldown, period), n), |Grid(start, period, n)|)
    ensures NextIsClear(start, period, cooldown, Multiples(Stride(cooldown, period), n), n) <==> n % Stride(cooldown, period) == 0
  {
    if n > 0 {
      ClearOnGrid(start, period, cooldown, n);
    }
  }

  lemma GreedyNext(start: int, period: int, cooldown: int, kept: seq<nat>, n: nat)
    requires Greedy(Grid(start, period, n), cooldown) == kept
    ensures Within(kept, |Grid(start, period, n)|)
    ensures Greedy(Grid(start, period, n + 1), cooldown) == Keep(kept, n, NextIsClear(start, period, cooldown, kept, n))
  {
    var now := At(start, period, n);
    GridSize(start, period, n);
    GreedyAppendOne([], true, Grid(start, period, n), Offer(now, now), cooldown);
  }

  lemma MultiplesNext(q: int, n: nat)
    requires q >= 1
    ensures Multiples(q, n + 1) == Keep(Multiples(q, n), n, n % q == 0)
  {
  }

  lemma KeptNext(start: int, period: int, cooldown: int, n: nat)
    requires period > 0 && KeepsMultiples(start, period, cooldown, n)
    ensures KeepsMultiples(start, period, cooldown, n + 1)
  {
    var q := Stride(cooldown, period);
    GreedyNext(start, period, cooldown, Multiples(q, n), n);
    ClearNext(start, period, cooldown, n);
    MultiplesNext(q, n);
  }

  /** On an even grid the greedy rule keeps exactly the multiples of the stride. */
  lemma {:induction false} GreedyOnGrid(start: int, period: int, cooldown: int, n: nat)
    requires period > 0
    ensures KeepsMultiples(start, period, cooldown, n)
  {
    if n == 0 {
      KeptNone(start, period, cooldown);
    } else {
      GreedyOnGrid(start, period, cooldown, n - 1);
      KeptNext(start, period, cooldown, n - 1);
    }
  }

  lemma ClearOnGrid(start: int, period: int, cooldown: int, n: nat)
    requires period > 0 && n > 0
    requires forall i :: 0 <= i < |Multiples(Stride(cooldown, period), n)| ==>
                           Multiples(Stride(cooldown, period), n)[i] < |Grid(start, period, n)|
    ensures var q := Stride(cooldown, period);
            View(cooldown, LastStamp(Grid(start, period, n), Multiples(q, n))).Clear(At(start, period, n)) <==> n % q == 0
  {
    LastKeptOnGrid(start, period, n, Stride(cooldown, period));
    ClearOnMultiples(n, period, cooldown);
    AtIs(start, period, n);
  }

  lemma {:induction false} GridSize(start: int, period: int, n: nat)
    ensures |Grid(start, period, n)| == n
  {
    if n > 0 {
      GridSize(start, period, n - 1);
    }
  }

  lemma LastKeptOnGrid(start: int, period: int, n: nat, q: int)
    requires n > 0 && q >= 1
    requires forall i :: 0 <= i < |Multiples(q, n)| ==> Multiples(q, n)[i] < |Grid(start, period, n)|
    ensures LastStamp(Grid(start, period, n), Multiples(q, n)) == Some(start + (n - 1) / q * q * period)
  {
    LastMultiple(q, n);
    Neighbours(n, q);
    GridAt(start, period, n, (n - 1) / q * q);
    AtIs(start, period, (n - 1) / q * q);
  }

  /**
   A condition reported on every tick of a fixed period notifies on exactly ticks 0, q, 2q, ... where
   q is the smallest number of periods that spans the cooldown, whatever else the ticks report.
   */
  lemma Cadence(m0: State, start: int, ticks: seq<Tick>, key: string, period: int)
    requires key !in m0.lastFired
    requires period > 0 && ReportsEveryTick(ticks, key, period)
    ensures |Decisions(m0, PollOps(start, ticks), key)| == |ticks|
    ensures forall i :: 0 <= i < |ticks| ==>
                          (Decisions(m0, PollOps(start, ticks), key)[i] <==> i % Stride(m0.cooldown, period) == 0)
  {
    var ops := PollOps(start, ticks);
    PollOffers(start, ticks, key, period);
    DecisionsAreAnswers(m0, ops, key);
    AnswersAreGreedy(ViewOf(m0, key), ops, key);
    GreedyOnGrid(start, period, m0.cooldown, |ticks|);
    GridSize(start, period, |ticks|);
    SameMarks(Decisions(m0, ops, key), Stride(m0.cooldown, period));
  }

  lemma SameEnd(a: seq<nat>, b: seq<nat>, n: nat, x: bool, y: bool)
    requires forall i :: 0 <= i < |a| ==> a[i] < n
    requires forall i :: 0 <= i < |b| ==> b[i] < n
    requires (if x then a + [n] else a) == (if y then b + [n] else b)
    ensures x == y && a == b
  {
    var s, t := if x then a + [n] else a, if y then b + [n] else b;
    assert x ==> s[|s| - 1] == n;
    assert y ==> t[|t| - 1] == n;
    if x && y {
      assert a == s[..|s| - 1] && b == t[..|t| - 1];
    }
  }

  lemma SameLastMark(answers: seq<bool>, q: int)
    requires q >= 1 && answers != [] && TrueAt(answers) == Multiples(q, |answers|)
    ensures var n := |answers| - 1;
            && (answers[n] <==> n % q == 0)
            && TrueAt(answers[..n]) == Multiples(q, n)
  {
    var n := |answers| - 1;
    MultiplesInRange(q, n);
    TrueInRange(answers[..n]);
    SameEnd(TrueAt(answers[..n]), Multiples(q, n), n, answers[n], n % q == 0);
  }

  /** The answers that let something through are those at the multiples of the stride. */
  predicate OnStride(answers: seq<bool>, stride: int)
    requires stride >= 1
  {
    forall i :: 0 <= i < |answers| ==> (answers[i] <==> i % stride == 0)
  }

  lemma OnStrideOneMore(answers: seq<bool>, stride: int)
    requires stride >= 1 && answers != [] && OnStride(answers[..|answers| - 1], stride)
    requires answers[|answers| - 1] <==> (|answers| - 1) % stride == 0
    ensures OnStride(answers, stride)
  {
    assert forall i :: 0 <= i < |answers| - 1 ==> answers[i] == answers[..|answers| - 1][i];
  }

  lemma {:induction false} SameMarks(answers: seq<bool>, q: int)
    requires q >= 1 && TrueAt(answers) == Multiples(q, |answers|)
    ensures OnStride(answers, q)
  {
    if answers != [] {
      SameLastMark(answers, q);
      SameMarks(answers[..|answers| - 1], q);
      OnStrideOneMore(answers, q);
    }
  }

  lemma {:induction false} TrueInRange(answers: seq<bool>)
    ensures forall i :: 0 <= i < |TrueAt(answers)| ==> TrueAt(answers)[i] < |answers|
  {
    if answers != [] {
      TrueInRange(answers[..|answers| - 1]);
    }
  }

  lemma {:induction false} MultiplesInRange(q: int, n: nat)
    requires q >= 1
    ensures forall i :: 0 <= i < |Multiples(q, n)| ==> Multiples(q, n)[i] < n
  {
    if n > 0 {
      MultiplesInRange(q, n - 1);
    }
  }

  // ----- What reaches the channels -----

  /** The deliveries of alerts under one key. */
  function UnderKey(sent: seq<Delivery>, key: string): seq<Delivery> {
    if sent == [] then []
    else
      var n := |sent| - 1;
      if sent[n].alert.key == key then UnderKey(sent[..n], key) + [sent[n]] else UnderKey(sent[..n], key)
  }

  lemma {:induction false} UnderKeyAppend(a: seq<Delivery>, b: seq<Delivery>, key: string)
    ensures UnderKey(a + b, key) == UnderKey(a, key) + UnderKey(b, key)
    decreases |b|
  {
    if b == [] {
      assert a + b == a;
    } else {
      var n := |b| - 1;
      UnderKeyAppend(a, b[..n], key);
      AppendLast(a, b);
      UnderKeyOneMore(a + b[..n], b[n], key);
    }
  }

  lemma UnderKeyOneMore(sent: seq<Delivery>, d: Delivery, key: string)
    ensures UnderKey(sent + [d], key) == if d.alert.key == key then UnderKey(sent, key) + [d] else UnderKey(sent, key)
  {
    assert (sent + [d])[..|sent|] == sent;
  }

  lemma {:induction false} AllUnderKey(sent: seq<Delivery>, key: string)
    ensures (forall d :: d in sent ==> d.alert.key == key) ==> UnderKey(sent, key) == sent
    ensures (forall d :: d in sent ==> d.alert.key != key) ==> UnderKey(sent, key) == []
  {
    if sent != [] {
      AllUnderKey(sent[..|sent| - 1], key);
      assert sent == sent[..|sent| - 1] + [sent[|sent| - 1]];
    }
  }

  predicate IsDispatch(op: Op) {
    op.Dispatch?
  }

  ghost predicate OnlyDispatches(ops: seq<Op>) {
    forall i :: 0 <= i < |ops| ==> IsDispatch(ops[i])
  }

  /** What a dispatch of the key owes the channels, if it is let through. */
  function Due(m: State, op: Op, key: string): seq<Delivery> {
    if op.Dispatch? && op.alert.key == key && m.Accepts(key, op.check)
    then Deliveries(m.Channels(), op.alert.(firedAt := op.stamp)) else []
  }

  lemma DispatchOwes(m: State, op: Op, key: string)
    requires IsDispatch(op)
    ensures UnderKey(Owed(m, op), key) == Due(m, op, key)
  {
    AllUnderKey(Owed(m, op), key);
  }

  lemma DispatchActs(o: Office, op: Op, key: string)
    requires IsDispatch(op)
    ensures UnderKey(Act(o, op).sent, key) == UnderKey(o.sent, key) + Due(o.manager, op, key)
  {
    DispatchOwes(o.manager, op, key);
    UnderKeyAppend(o.sent, Owed(o.manager, op), key);
  }

  /** What the dispatches of the key that are let through owe the channels. */
  function Accepted(m0: State, ops: seq<Op>, key: string): seq<Delivery> {
    if ops == [] then []
    else
      var n, init := |ops| - 1, ops[..|ops| - 1];
      Accepted(m0, init, key) + Due(Run(m0, init).manager, ops[n], key)
  }

  lemma AcceptedOneMore(m0: State, ops: seq<Op>, op: Op, key: string)
    ensures Accepted(m0, ops + [op], key) == Accepted(m0, ops, key) + Due(Run(m0, ops).manager, op, key)
  {
    assert (ops + [op])[..|ops|] == ops;
  }

  lemma Regroup(a: seq<Delivery>, b: seq<Delivery>, c: seq<Delivery>)
    ensures a + b + c == a + (b + c)
  {
  }

  predicate SendsAccepted(o: Office, ops: seq<Op>, key: string) {
    UnderKey(Fold(Act, o, ops).sent, key) == UnderKey(o.sent, key) + Accepted(o.manager, ops, key)
  }

  lemma SendsNone(o: Office, key: string)
    ensures SendsAccepted(o, [], key)
  {
  }

  lemma FoldLast<S, T>(f: (S, T) -> S, s: S, items: seq<T>)
    requires items != []
    ensures Fold(f, s, items) == f(Fold(f, s, items[..|items| - 1]), items[|items| - 1])
  {
  }

  lemma AcceptedLast(m0: State, ops: seq<Op>, key: string)
    requires ops != []
    ensures var init := ops[..|ops| - 1];
            Accepted(m0, ops, key) == Accepted(m0, init, key) + Due(Run(m0, init).manager, ops[|ops| - 1], key)
  {
  }

  lemma SendsOneMore(o: Office, ops: seq<Op>, key: string)
    requires ops != [] && IsDispatch(ops[|ops| - 1]) && SendsAccepted(o, ops[..|ops| - 1], key)
    ensures SendsAccepted(o, ops, key)
  {
    var init, op := ops[..|ops| - 1], ops[|ops| - 1];
    FoldIsRun(o, init);
    DispatchActs(Fold(Act, o, init), op, key);
    AcceptedLast(o.manager, ops, key);
    Regroup(UnderKey(o.sent, key), Accepted(o.manager, init, key), Due(Run(o.manager, init).manager, op, key));
    FoldLast(Act, o, ops);
  }

  /** Dispatches put on the wire, under a key, exactly what is let through under it. */
  lemma {:induction false} DispatchesSend(o: Office, ops: seq<Op>, key: string)
    requires OnlyDispatches(ops)
    ensures SendsAccepted(o, ops, key)
  {
    if ops == [] {
      SendsNone(o, key);
    } else {
      DispatchesSend(o, ops[..|ops| - 1], key);
      SendsOneMore(o, ops, key);
    }
  }

  lemma {:induction false} ChannelsStay(m0: State, ops: seq<Op>)
    requires OnlyDispatches(ops)
    ensures Run(m0, ops).manager.Channels() == m0.Channels()
  {
    if ops != [] {
      assert IsDispatch(ops[|ops| - 1]);
      ChannelsStay(m0, ops[..|ops| - 1]);
    }
  }

  lemma DispatchAppend(m0: State, ops: seq<Op>, alert: Alert, now: int, key: string)
    requires OnlyDispatches(ops)
    ensures var op := Op.Dispatch(alert, now, now);
            var fires := Run(m0, ops).manager.Accepts(key, now);
            && Decisions(m0, ops + [op], key) ==
               (if alert.key == key then Decisions(m0, ops, key) + [fires] else Decisions(m0, ops, key))
            && Accepted(m0, ops + [op], key) ==
               (if alert.key == key && fires then Accepted(m0, ops, key) + Deliveries(m0.Channels(), alert.(firedAt := now))
                else Accepted(m0, ops, key))
  {
    assert (ops + [Op.Dispatch(alert, now, now)])[..|ops|] == ops;
    AcceptedOneMore(m0, ops, Op.Dispatch(alert, now, now), key);
    ChannelsStay(m0, ops);
  }

  /** What a tick adds to the answers on a key and to the deliveries under it, if it carries the key once or not at all. */
  predicate Adds(channels: seq<Notifier>, answers: seq<bool>, sent: seq<Delivery>, more: seq<bool>, all: seq<Delivery>,
                 now: int, alerts: seq<Alert>, key: string)
  {
    if Times(alerts, key) == 0 then more == answers && all == sent
    else
      && |more| == |answers| + 1 && answers <= more
      && all == if more[|answers|] then sent + Deliveries(channels, Carrying(alerts, key).(firedAt := now)) else sent
  }

  predicate TickAdds(m0: State, before: seq<Op>, after: seq<Op>, now: int, alerts: seq<Alert>, key: string) {
    Adds(m0.Channels(), Decisions(m0, before, key), Accepted(m0, before, key),
         Decisions(m0, after, key), Accepted(m0, after, key), now, alerts, key)
  }

  lemma TickAddsOneMore(m0: State, before: seq<Op>, after: seq<Op>, now: int, alerts: seq<Alert>, last: Alert, key: string)
    requires TickAdds(m0, before, after, now, alerts, key) && Times(alerts + [last], key) <= 1
    requires OnlyDispatches(after)
    ensures TickAdds(m0, before, after + [Op.Dispatch(last, now, now)], now, alerts + [last], key)
  {
    assert (alerts + [last])[..|alerts|] == alerts;
    DispatchAppend(m0, after, last, now, key);
  }

  lemma OnlyAppend(a: seq<Op>, b: seq<Op>)
    requires OnlyDispatches(a) && OnlyDispatches(b)
    ensures OnlyDispatches(a + b)
  {
  }

  lemma {:induction false} TickSends(m0: State, ops: seq<Op>, now: int, alerts: seq<Alert>, key: string)
    requires OnlyDispatches(ops) && Times(alerts, key) <= 1
    ensures TickAdds(m0, ops, ops + Dispatches(now, alerts), now, alerts, key)
  {
    if alerts == [] {
      assert ops + Dispatches(now, alerts) == ops;
    } else {
      var init, last := alerts[..|alerts| - 1], alerts[|alerts| - 1];
      assert alerts == init + [last];
      TickSends(m0, ops, now, init, key);
      DispatchesOnly(now, init);
      OnlyAppend(ops, Dispatches(now, init));
      TickAddsOneMore(m0, ops, ops + Dispatches(now, init), now, init, last, key);
      DispatchesSnoc(ops, now, alerts);
    }
  }

  lemma DispatchesSnoc(ops: seq<Op>, now: int, alerts: seq<Alert>)
    requires alerts != []
    ensures ops + Dispatches(now, alerts) ==
            (ops + Dispatches(now, alerts[..|alerts| - 1])) + [Op.Dispatch(alerts[|alerts| - 1], now, now)]
  {
  }

  /** The alert of a tick that carries the key. */
  function Carrying(alerts: seq<Alert>, key: string): Alert
    requires Times(alerts, key) > 0
  {
    var n := |alerts| - 1;
    if alerts[n].key == key then alerts[n] else Carrying(alerts[..n], key)
  }

  /** On every multiple of the stride, the tick's alert under the key, stamped with the time of the tick, to every channel once. */
  function Schedule(channels: seq<Notifier>, start: int, ticks: seq<Tick>, key: string, period: int, stride: int): seq<Delivery>
    requires stride >= 1 && ReportsEveryTick(ticks, key, period)
  {
    if ticks == [] then []
    else
      var n := |ticks| - 1;
      var before := Schedule(channels, start, ticks[..n], key, period, stride);
      if n % stride == 0 then
        before + Deliveries(channels, Carrying(ticks[n].found.value, key).(firedAt := At(start, period, n)))
      else before
  }

  lemma {:induction false} DispatchesAt(now: int, alerts: seq<Alert>)
    ensures |Dispatches(now, alerts)| == |alerts|
    ensures forall i :: 0 <= i < |alerts| ==> Dispatches(now, alerts)[i] == Op.Dispatch(alerts[i], now, now)
  {
    if alerts != [] {
      DispatchesAt(now, alerts[..|alerts| - 1]);
    }
  }

  lemma {:induction false} DispatchesOnly(now: int, alerts: seq<Alert>)
    ensures OnlyDispatches(Dispatches(now, alerts))
  {
    if alerts != [] {
      DispatchesOnly(now, alerts[..|alerts| - 1]);
    }
  }

  lemma {:induction false} PollsDispatchOnly(start: int, ticks: seq<Tick>)
    ensures OnlyDispatches(PollOps(start, ticks))
  {
    if ticks != [] {
      var n := |ticks| - 1;
      PollsDispatchOnly(start, ticks[..n]);
      if ticks[n].enabled && ticks[n].found.Success? {
        DispatchesOnly(Clock(start, ticks[..n]), ticks[n].found.value);
      }
    }
  }

  lemma PollOpsSnoc(start: int, ticks: seq<Tick>, key: string, period: int)
    requires period > 0 && ReportsEveryTick(ticks, key, period) && ticks != []
    ensures var n := |ticks| - 1;
            PollOps(start, ticks) == PollOps(start, ticks[..n]) + Dispatches(At(start, period, n), ticks[n].found.value)
  {
    EvenClock(start, ticks[..|ticks| - 1], key, period);
  }

  lemma OnStridePrefix(a: seq<bool>, b: seq<bool>, stride: int)
    requires stride >= 1 && a <= b && OnStride(b, stride)
    ensures OnStride(a, stride)
  {
    assert forall i :: 0 <= i < |a| ==> a[i] == b[i];
  }

  lemma ScheduleNext(channels: seq<Notifier>, answers: seq<bool>, sent: seq<Delivery>, more: seq<bool>, all: seq<Delivery>,
                     start: int, ticks: seq<Tick>, key: string, period: int, stride: int)
    requires stride >= 1 && ticks != [] && ReportsEveryTick(ticks, key, period)
    requires |answers| == |ticks| - 1
    requires sent == Schedule(channels, start, ticks[..|ticks| - 1], key, period, stride)
    requires Adds(channels, answers, sent, more, all, At(start, period, |ticks| - 1), ticks[|ticks| - 1].found.value, key)
    requires OnStride(more, stride)
    ensures |more| == |ticks|
    ensures all == Schedule(channels, start, ticks, key, period, stride)
  {
    var n := |ticks| - 1;
    assert Times(ticks[n].found.value, key) == 1;
    assert more[n] <==> n % stride == 0;
  }

  lemma {:induction false} AcceptedIsSchedule(m0: State, start: int, ticks: seq<Tick>, key: string, period: int, stride: int)
    requires period > 0 && stride >= 1 && ReportsEveryTick(ticks, key, period)
    requires OnStride(Decisions(m0, PollOps(start, ticks), key), stride)
    ensures |Decisions(m0, PollOps(start, ticks), key)| == |ticks|
    ensures Accepted(m0, PollOps(start, ticks), key) == Schedule(m0.Channels(), start, ticks, key, period, stride)
  {
    if ticks != [] {
      var n := |ticks| - 1;
      var before, alerts := PollOps(start, ticks[..n]), ticks[n].found.value;
      var after := before + Dispatches(At(start, period, n), alerts);
      PollOpsSnoc(start, ticks, key, period);
      assert PollOps(start, ticks) == after;
      PollsDispatchOnly(start, ticks[..n]);
      TickSends(m0, before, At(start, period, n), alerts, key);
      DecisionsGrow(m0, before, after, At(start, period, n), alerts, key);
      OnStridePrefix(Decisions(m0, before, key), Decisions(m0, after, key), stride);
      AcceptedIsSchedule(m0, start, ticks[..n], key, period, stride);
      ScheduleNext(m0.Channels(), Decisions(m0, before, key), Accepted(m0, before, key),
                   Decisions(m0, after, key), Accepted(m0, after, key), start, ticks, key, period, stride);
    }
  }

  lemma DecisionsGrow(m0: State, before: seq<Op>, after: seq<Op>, now: int, alerts: seq<Alert>, key: string)
    requires TickAdds(m0, before, after, now, alerts, key)
    ensures Decisions(m0, before, key) <= Decisions(m0, after, key)
  {
  }

  /**
   The cadence on the wire: whatever else the ticks report, the deliveries under the key are its alert
   of every multiple of the stride, once to every channel, and nothing else.
   */
  lemma CadenceOnTheWire(o: Office, start: int, ticks: seq<Tick>, key: string, period: int)
    requires key !in o.manager.lastFired
    requires period > 0 && ReportsEveryTick(ticks, key, period)
    ensures UnderKey(Polled(o, start, ticks).sent, key) ==
            UnderKey(o.sent, key) +
            Schedule(o.manager.Channels(), start, ticks, key, period, Stride(o.manager.cooldown, period))
  {
    PolledIsRun(o, start, ticks);
    PollsDispatchOnly(start, ticks);
    DispatchesSend(o, PollOps(start, ticks), key);
    Cadence(o.manager, start, ticks, key, period);
    AcceptedIsSchedule(o.manager, start, ticks, key, period, Stride(o.manager.cooldown, period));
  }

  // ----- Combining sources -----

  function Successes(outcomes: seq<Found>): seq<Alert> {
    if outcomes == [] then []
    else
      var n := |outcomes| - 1;
      if outcomes[n].Success? then Successes(outcomes[..n]) + outcomes[n].value else Successes(outcomes[..n])
  }

  /**
   Sources are independent: the result fails only when there are sources and all of them failed, and
   otherwise holds the alerts of every source that succeeded, in source order.
   */
  method Combine(outcomes: seq<Found>) returns (combined: Found)
    ensures combined.Failure? <==> outcomes != [] && forall o :: o in outcomes ==> o.Failure?
    ensures combined.Success? ==> combined.value == Successes(outcomes)
  {
    var alerts, errors, ok := [], [], 0;
    for i := 0 to |outcomes|
      invariant alerts == Successes(outcomes[..i])
      invariant |errors| + ok == i
      invariant ok == 0 <==> forall o :: o in outcomes[..i] ==> o.Failure?
    {
      assert outcomes[..i + 1][..i] == outcomes[..i];
      if outcomes[i].Failure? {
        errors := errors + [outcomes[i].error];
      } else {
        ok := ok + 1;
        alerts := alerts + outcomes[i].value;
        assert outcomes[i] in outcomes[..i + 1];
      }
    }
    assert outcomes[..|outcomes|] == outcomes;
    if ok == 0 && |errors| > 0 {
      return Failure("every source failed");
    }
    return Success(alerts);
  }

  /** And nothing is made up: each combined alert is one a source found. */
  lemma {:induction false} NothingIsMadeUp(outcomes: seq<Found>, alert: Alert)
    requires alert in Successes(outcomes)
    ensures exists i :: 0 <= i < |outcomes| && outcomes[i].Success? && alert in outcomes[i].value
  {
    var n := |outcomes| - 1;
    if !(outcomes[n].Success? && alert in outcomes[n].value) {
      NothingIsMadeUp(outcomes[..n], alert);
      var i :| 0 <= i < n && outcomes[..n][i].Success? && alert in outcomes[..n][i].value;
      assert outcomes[i].Success? && alert in outcomes[i].value;
    }
  }

  /** A failing source hides nothing: each alert a source found is among the combined alerts. */
  lemma {:induction false} NoSourceIsHidden(outcomes: seq<Found>, i: nat, alert: Alert)
    requires i < |outcomes| && outcomes[i].Success? && alert in outcomes[i].value
    ensures alert in Successes(outcomes)
  {
    var n := |outcomes| - 1;
    if i < n {
      NoSourceIsHidden(outcomes[..n], i, alert);
    }
  }
}
