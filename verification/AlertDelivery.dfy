/**
 The manager under concurrency (backend/internal/alert/manager.go:45-150).

 Every caller does one critical section and, if that let an alert through, then leaves the lock
 holding a snapshot of the channels and sends to them one by one. A run is any interleaving of
 those critical sections and single sends. The n-th operation of a run owns the sends it causes.
 */
module AlertDelivery {
  import opened Wrappers
  import opened AlertManager

  datatype Op =
    | Dispatch(alert: Alert, check: int, stamp: int)
    | Test(testStamp: int)
    | Register(notifier: Notifier)
    | SetWebhook(replacement: Option<Notifier>)
    | SetCooldown(cooldown: int)
    | Send(owner: nat, ok: bool)

  /** A caller outside the lock: its stamped alert and the channels it has yet to try. */
  datatype Caller = Caller(alert: Alert, pending: seq<Notifier>)

  datatype Sent = Sent(owner: nat, delivery: Delivery, ok: bool)

  datatype System = System(manager: State, callers: map<nat, Caller>, wire: seq<Sent>)

  /** The critical section of an operation. */
  function Locked(m: State, op: Op): State {
    match op
    case Dispatch(alert, check, stamp) =>
      if m.Accepts(alert.key, check) then m.Accept(alert.(firedAt := stamp)) else m
    case Test(stamp) => m.Remember(TestAlert(stamp))
    case Register(notifier) => m.(notifiers := m.notifiers + [notifier])
    case SetWebhook(replacement) => m.(webhook := replacement)
    case SetCooldown(cooldown) => m.(cooldown := cooldown)
    case Send(_, _) => m
  }

  /** What the caller carries out of the critical section, if it has anything to send. */
  function Leaves(m: State, op: Op): Option<Caller> {
    match op
    case Dispatch(alert, check, stamp) =>
      if m.Accepts(alert.key, check) then Some(Caller(alert.(firedAt := stamp), m.Channels())) else None
    case Test(stamp) => Some(Caller(TestAlert(stamp), m.Channels()))
    case _ => None
  }

  /** The n-th operation of a run. A send by a caller with nothing left to try changes nothing. */
  function Step(s: System, n: nat, op: Op): System {
    if op.Send? then
      if op.owner in s.callers && s.callers[op.owner].pending != [] then
        var caller := s.callers[op.owner];
        s.(callers := s.callers[op.owner := caller.(pending := caller.pending[1..])],
           wire := s.wire + [Sent(op.owner, Delivery(caller.pending[0], caller.alert), op.ok)])
      else s
    else Unlock(s, n, Locked(s.manager, op), Leaves(s.manager, op))
  }

  function Unlock(s: System, n: nat, manager: State, leaves: Option<Caller>): System {
    s.(manager := manager, callers := if leaves.Some? then s.callers[n := leaves.value] else s.callers)
  }

  function Run(m0: State, ops: seq<Op>): System {
    if ops == [] then System(m0, map[], [])
    else Step(Run(m0, ops[..|ops| - 1]), |ops| - 1, ops[|ops| - 1])
  }

  /** The manager just before the k-th operation. */
  function Before(m0: State, ops: seq<Op>, k: nat): State
    requires k <= |ops|
  {
    Run(m0, ops[..k]).manager
  }

  /** The sends owned by one operation, in order, whatever their outcome. */
  function SentFor(wire: seq<Sent>, owner: nat): seq<Delivery> {
    if wire == [] then []
    else SentFor(wire[..|wire| - 1], owner) +
         if wire[|wire| - 1].owner == owner then [wire[|wire| - 1].delivery] else []
  }

  function Outstanding(s: System, owner: nat): seq<Delivery> {
    if owner in s.callers then Deliveries(s.callers[owner].pending, s.callers[owner].alert) else []
  }

  /** What an operation owes: one delivery per channel active at its critical section, webhook last. */
  function Owed(m: State, op: Op): seq<Delivery> {
    var leaves := Leaves(m, op);
    if leaves.Some? then Deliveries(leaves.value.pending, leaves.value.alert) else []
  }

  lemma SentForAppend(wire: seq<Sent>, last: Sent, owner: nat)
    ensures SentFor(wire + [last], owner) == SentFor(wire, owner) + if last.owner == owner then [last.delivery] else []
  {
    assert (wire + [last])[..|wire|] == wire;
  }

  /** Nothing is sent in the name of an operation that has not happened yet. */
  lemma {:induction false} NoSendBeforeItsOperation(m0: State, ops: seq<Op>, k: nat)
    requires k >= |ops|
    ensures k !in Run(m0, ops).callers && SentFor(Run(m0, ops).wire, k) == []
  {
    if ops != [] {
      var n := |ops| - 1;
      NoSendBeforeItsOperation(m0, ops[..n], k);
      var s := Run(m0, ops[..n]);
      if ops[n].Send? && ops[n].owner in s.callers && s.callers[ops[n].owner].pending != [] {
        SentForAppend(s.wire, Run(m0, ops).wire[|s.wire|], k);
      }
    }
  }

  /** A caller's next send, if the operation is one. */
  predicate HasNext(s: System, op: Op) {
    op.Send? && op.owner in s.callers && s.callers[op.owner].pending != []
  }

  lemma OwnerSends(s: System, n: nat, op: Op)
    requires HasNext(s, op)
    ensures var first := Delivery(s.callers[op.owner].pending[0], s.callers[op.owner].alert);
            && SentFor(Step(s, n, op).wire, op.owner) == SentFor(s.wire, op.owner) + [first]
            && Outstanding(s, op.owner) == [first] + Outstanding(Step(s, n, op), op.owner)
  {
    SentForAppend(s.wire, Step(s, n, op).wire[|s.wire|], op.owner);
  }

  lemma OthersKeepOnLock(s: System, n: nat, manager: State, leaves: Option<Caller>, k: nat)
    requires k != n
    ensures Unlock(s, n, manager, leaves).wire == s.wire
    ensures Outstanding(Unlock(s, n, manager, leaves), k) == Outstanding(s, k)
  {
  }

  lemma OthersKeepOnSend(s: System, n: nat, op: Op, k: nat)
    requires op.Send? && op.owner != k
    ensures SentFor(Step(s, n, op).wire, k) == SentFor(s.wire, k)
    ensures Outstanding(Step(s, n, op), k) == Outstanding(s, k)
  {
    if HasNext(s, op) {
      var caller := s.callers[op.owner];
      SentForAppend(s.wire, Sent(op.owner, Delivery(caller.pending[0], caller.alert), op.ok), k);
    }
  }

  /** One send moves the first outstanding delivery of its owner to the wire and touches no other owner. */
  lemma SendConserves(s: System, n: nat, op: Op, k: nat)
    requires op.Send? || k != n
    ensures SentFor(Step(s, n, op).wire, k) + Outstanding(Step(s, n, op), k) ==
            SentFor(s.wire, k) + Outstanding(s, k)
  {
    if !op.Send? {
      OthersKeepOnLock(s, n, Locked(s.manager, op), Leaves(s.manager, op), k);
    } else if op.owner != k {
      OthersKeepOnSend(s, n, op, k);
    } else if HasNext(s, op) {
      OwnerSends(s, n, op);
    }
  }

  lemma LockOwes(s: System, n: nat, op: Op)
    requires n !in s.callers && SentFor(s.wire, n) == []
    ensures SentFor(Step(s, n, op).wire, n) + Outstanding(Step(s, n, op), n) == Owed(s.manager, op)
  {
    if HasNext(s, op) {
      OthersKeepOnSend(s, n, op, n);
    }
  }

  /**
   In every interleaving, what an operation has sent followed by what it has yet to send is exactly
   one delivery per channel active when it held the lock, in order, webhook last; an operation that
   let nothing through sends nothing. Later webhook changes and failed sends make no difference.
   */
  lemma {:induction false} ExactlyOnceDelivery(m0: State, ops: seq<Op>, k: nat)
    requires k < |ops|
    ensures SentFor(Run(m0, ops).wire, k) + Outstanding(Run(m0, ops), k) == Owed(Before(m0, ops, k), ops[k])
    decreases |ops|
  {
    var n := |ops| - 1;
    var init := ops[..n];
    if k == n {
      NoSendBeforeItsOperation(m0, init, k);
      LockOwes(Run(m0, init), k, ops[n]);
    } else {
      ExactlyOnceDelivery(m0, init, k);
      assert init[..k] == ops[..k];
      SendConserves(Run(m0, init), n, ops[n], k);
    }
  }

  // ----- The channels, from the events -----

  /** The channels registered in a run, in order. */
  function Registered(ops: seq<Op>): seq<Notifier> {
    if ops == [] then []
    else
      var n := |ops| - 1;
      if ops[n].Register? then Registered(ops[..n]) + [ops[n].notifier] else Registered(ops[..n])
  }

  /** What the last webhook change of a run installed; before any, what was there at the start. */
  function WebhookAfter(start: Option<Notifier>, ops: seq<Op>): Option<Notifier> {
    if ops == [] then start
    else if ops[|ops| - 1].SetWebhook? then ops[|ops| - 1].replacement
    else WebhookAfter(start, ops[..|ops| - 1])
  }

  /** What the last cooldown change of a run set; before any, what was there at the start. */
  function CooldownAfter(start: int, ops: seq<Op>): int {
    if ops == [] then start
    else if ops[|ops| - 1].SetCooldown? then ops[|ops| - 1].cooldown
    else CooldownAfter(start, ops[..|ops| - 1])
  }

  /** Settings are what the events made them, whatever else went on. */
  lemma {:induction false} SettingsFollowEvents(m0: State, ops: seq<Op>)
    ensures Run(m0, ops).manager.notifiers == m0.notifiers + Registered(ops)
    ensures Run(m0, ops).manager.webhook == WebhookAfter(m0.webhook, ops)
    ensures Run(m0, ops).manager.cooldown == CooldownAfter(m0.cooldown, ops)
  {
    if ops != [] {
      var n := |ops| - 1;
      var before := Run(m0, ops[..n]);
      SettingsFollowEvents(m0, ops[..n]);
      ManagerNext(before, n, ops[n]);
      NotifiersNext(before.manager, ops[n]);
      WebhookNext(before.manager, ops[n]);
      CooldownNext(before.manager, ops[n]);
    }
  }

  lemma NotifiersNext(m: State, op: Op)
    ensures Locked(m, op).notifiers == if op.Register? then m.notifiers + [op.notifier] else m.notifiers
  {
  }

  lemma WebhookNext(m: State, op: Op)
    ensures Locked(m, op).webhook == if op.SetWebhook? then op.replacement else m.webhook
  {
  }

  lemma CooldownNext(m: State, op: Op)
    ensures Locked(m, op).cooldown == if op.SetCooldown? then op.cooldown else m.cooldown
  {
  }

  /** The alert an operation sends, stamped. */
  function Stamped(op: Op): Alert
    requires op.Dispatch? || op.Test?
  {
    if op.Dispatch? then op.alert.(firedAt := op.stamp) else TestAlert(op.testStamp)
  }

  /** One delivery of the alert to each of these channels in turn, then one to the webhook if there is one. */
  ghost predicate ReachesEach(sent: seq<Delivery>, channels: seq<Notifier>, webhook: Option<Notifier>, alert: Alert) {
    && |sent| == |channels| + (if webhook.Some? then 1 else 0)
    && (forall i :: 0 <= i < |channels| ==> sent[i] == Delivery(channels[i], alert))
    && (webhook.Some? ==> sent[|channels|] == Delivery(webhook.value, alert))
  }

  lemma DeliveriesReachEach(m: State, alert: Alert)
    ensures ReachesEach(Deliveries(m.Channels(), alert), m.notifiers, m.webhook, alert)
  {
    ChannelsAre(m);
  }

  lemma LeavesStamped(m: State, op: Op)
    requires Leaves(m, op).Some?
    ensures op.Dispatch? || op.Test?
    ensures Leaves(m, op).value == Caller(Stamped(op), m.Channels())
  {
  }

  lemma OwedReachesEach(m: State, op: Op)
    requires Leaves(m, op).Some?
    ensures op.Dispatch? || op.Test?
    ensures ReachesEach(Owed(m, op), m.notifiers, m.webhook, Stamped(op))
  {
    LeavesStamped(m, op);
    DeliveriesReachEach(m, Stamped(op));
  }

  /**
   In every interleaving, what an operation that was let through has sent and has yet to send is its
   stamped alert, once to every channel there was at the start or was registered before it, in order,
   and then to the webhook last installed before it. Any other operation sends nothing.
   */
  lemma EveryChannelOnce(m0: State, ops: seq<Op>, k: nat)
    requires k < |ops|
    ensures var all := SentFor(Run(m0, ops).wire, k) + Outstanding(Run(m0, ops), k);
            var fires := ops[k].Test? || (ops[k].Dispatch? && Before(m0, ops, k).Accepts(ops[k].alert.key, ops[k].check));
            if fires then
              ReachesEach(all, m0.notifiers + Registered(ops[..k]), WebhookAfter(m0.webhook, ops[..k]), Stamped(ops[k]))
            else all == []
  {
    ExactlyOnceDelivery(m0, ops, k);
    SettingsFollowEvents(m0, ops[..k]);
    if Leaves(Before(m0, ops, k), ops[k]).Some? {
      OwedReachesEach(Before(m0, ops, k), ops[k]);
    }
  }

  /** Every send on the wire was owed: it belongs to an operation of the run that was let through. */
  lemma {:induction false} EverySendIsOwed(m0: State, ops: seq<Op>, i: nat)
    requires i < |Run(m0, ops).wire|
    ensures var sent := Run(m0, ops).wire[i];
            && sent.owner < |ops|
            && Leaves(Before(m0, ops, sent.owner), ops[sent.owner]).Some?
            && sent.delivery in Owed(Before(m0, ops, sent.owner), ops[sent.owner])
  {
    var wire := Run(m0, ops).wire;
    var k := wire[i].owner;
    SentForContains(wire, i);
    if k >= |ops| {
      NoSendBeforeItsOperation(m0, ops, k);
    }
    ExactlyOnceDelivery(m0, ops, k);
    assert wire[i].delivery in SentFor(wire, k) + Outstanding(Run(m0, ops), k);
  }

  lemma {:induction false} SentForContains(wire: seq<Sent>, i: nat)
    requires i < |wire|
    ensures wire[i].delivery in SentFor(wire, wire[i].owner)
  {
    if i < |wire| - 1 {
      SentForContains(wire[..|wire| - 1], i);
    }
  }

  /** The sends one caller has left, with the outcomes the channels give. */
  function Sends(k: nat, outcomes: seq<bool>): seq<Op> {
    seq(|outcomes|, i requires 0 <= i < |outcomes| => Send(k, outcomes[i]))
  }

  /** The caller has made its first `done` sends and nothing else has happened to the manager. */
  predicate Drained(before: System, after: System, k: nat, done: nat) {
    && k in before.callers && k in after.callers
    && done <= |before.callers[k].pending|
    && after.manager == before.manager
    && after.callers[k] == before.callers[k].(pending := before.callers[k].pending[done..])
  }

  lemma DrainOne(before: System, sent: System, k: nat, done: nat, n: nat, ok: bool)
    requires Drained(before, sent, k, done) && done < |before.callers[k].pending|
    ensures Drained(before, Step(sent, n, Send(k, ok)), k, done + 1)
  {
  }

  lemma SendsSnoc(ops: seq<Op>, k: nat, outcomes: seq<bool>)
    requires outcomes != []
    ensures ops + Sends(k, outcomes) ==
            (ops + Sends(k, outcomes[..|outcomes| - 1])) + [Send(k, outcomes[|outcomes| - 1])]
  {
  }

  lemma {:induction false} SendsDrain(m0: State, ops: seq<Op>, k: nat, outcomes: seq<bool>)
    requires k in Run(m0, ops).callers && |outcomes| <= |Run(m0, ops).callers[k].pending|
    ensures Drained(Run(m0, ops), Run(m0, ops + Sends(k, outcomes)), k, |outcomes|)
    decreases |outcomes|
  {
    if outcomes == [] {
      assert ops + Sends(k, outcomes) == ops;
    } else {
      var n := |outcomes| - 1;
      SendsDrain(m0, ops, k, outcomes[..n]);
      var sent := ops + Sends(k, outcomes[..n]);
      DrainOne(Run(m0, ops), Run(m0, sent), k, n, |sent|, outcomes[n]);
      RunOne(m0, sent, Send(k, outcomes[n]));
      SendsSnoc(ops, k, outcomes);
    }
  }

  lemma RunOne(m0: State, ops: seq<Op>, op: Op)
    ensures Run(m0, ops + [op]) == Step(Run(m0, ops), |ops|, op)
  {
    assert (ops + [op])[..|ops|] == ops;
  }

  lemma UnlockLeaves(s: System, n: nat, op: Op)
    requires Leaves(s.manager, op).Some?
    ensures Step(s, n, op) == Unlock(s, n, Locked(s.manager, op), Leaves(s.manager, op))
  {
  }

  lemma LeavesLock(m0: State, ops: seq<Op>, op: Op)
    requires Leaves(Run(m0, ops).manager, op).Some?
    ensures var after := Run(m0, ops + [op]);
            && after.manager == Locked(Run(m0, ops).manager, op)
            && |ops| in after.callers && after.callers[|ops|] == Leaves(Run(m0, ops).manager, op).value
  {
    RunOne(m0, ops, op);
    UnlockLeaves(Run(m0, ops), |ops|, op);
  }

  lemma NothingLeft(before: System, after: System, k: nat)
    requires k in before.callers && Drained(before, after, k, |before.callers[k].pending|)
    ensures Outstanding(after, k) == [] && after.manager == before.manager
  {
  }

  lemma ItsPlace(ops: seq<Op>, op: Op, more: seq<Op>)
    ensures var all := ops + [op] + more;
            |ops| < |all| && all[|ops|] == op && all[..|ops|] == ops
  {
  }

  /**
   A dispatch that nobody interleaves with behaves as the sequential method does: from any point of a
   run, its critical section and its own sends, whatever their outcomes, put exactly its deliveries on
   the wire and leave nothing outstanding.
   */
  lemma UninterruptedDispatch(m0: State, ops: seq<Op>, op: Op, outcomes: seq<bool>)
    requires Leaves(Run(m0, ops).manager, op).Some?
    requires |outcomes| == |Run(m0, ops).manager.Channels()|
    ensures var before, after := Run(m0, ops), Run(m0, ops + [op] + Sends(|ops|, outcomes));
            && after.manager == Locked(before.manager, op)
            && Outstanding(after, |ops|) == []
            && SentFor(after.wire, |ops|) == Owed(before.manager, op)
  {
    var k := |ops|;
    var locked := ops + [op];
    LeavesLock(m0, ops, op);
    SendsDrain(m0, locked, k, outcomes);
    NothingLeft(Run(m0, locked), Run(m0, locked + Sends(k, outcomes)), k);
    ItsPlace(ops, op, Sends(k, outcomes));
    ExactlyOnceDelivery(m0, locked + Sends(k, outcomes), k);
  }

  /** The alerts let through so far, newest first. */
  function Log(m0: State, ops: seq<Op>): seq<Alert> {
    if ops == [] then []
    else
      var init := ops[..|ops| - 1];
      var leaves := Leaves(Run(m0, init).manager, ops[|ops| - 1]);
      if leaves.Some? then [leaves.value.alert] + Log(m0, init) else Log(m0, init)
  }

  lemma NewestOfMore(alert: Alert, log: seq<Alert>)
    ensures Newest([alert] + Newest(log)) == Newest([alert] + log)
  {
  }

  lemma AcceptRemembers(m: State, alert: Alert)
    ensures m.Accept(alert).recent == Newest([alert] + m.recent)
  {
  }

  lemma RecentNext(m: State, op: Op)
    ensures Locked(m, op).recent ==
            if Leaves(m, op).Some? then Newest([Leaves(m, op).value.alert] + m.recent) else m.recent
  {
    if op.Dispatch? {
      AcceptRemembers(m, op.alert.(firedAt := op.stamp));
    }
  }

  lemma ManagerNext(s: System, n: nat, op: Op)
    ensures Step(s, n, op).manager == Locked(s.manager, op)
  {
  }

  /** The history is the newest hundred alerts let through, in lock order. */
  lemma {:induction false} RecentIsNewestOfLog(m0: State, ops: seq<Op>)
    requires m0.recent == []
    ensures Run(m0, ops).manager.recent == Newest(Log(m0, ops))
  {
    if ops != [] {
      var n := |ops| - 1;
      var before := Run(m0, ops[..n]);
      RecentIsNewestOfLog(m0, ops[..n]);
      ManagerNext(before, n, ops[n]);
      RecentNext(before.manager, ops[n]);
      if Leaves(before.manager, ops[n]).Some? {
        NewestOfMore(Leaves(before.manager, ops[n]).value.alert, Log(m0, ops[..n]));
      }
    }
  }

  /**
   Operation by operation: an alert let through comes first, the older ones follow as they were, and
   the hundredth is the last to stay. Nothing else touches the history.
   */
  lemma RecentShifts(m0: State, ops: seq<Op>, op: Op)
    ensures var before, after := Run(m0, ops).manager.recent, Run(m0, ops + [op]).manager.recent;
            var leaves := Leaves(Run(m0, ops).manager, op);
            if leaves.Some? then
              && |after| == (if |before| + 1 <= 100 then |before| + 1 else 100)
              && after[0] == leaves.value.alert
              && forall i :: 0 < i < |after| ==> after[i] == before[i - 1]
            else after == before
  {
    RunOne(m0, ops, op);
    ManagerNext(Run(m0, ops), |ops|, op);
    RecentNext(Run(m0, ops).manager, op);
    if Leaves(Run(m0, ops).manager, op).Some? {
      NewestShifts(Leaves(Run(m0, ops).manager, op).value.alert, Run(m0, ops).manager.recent);
    }
  }

  lemma NewestShifts(alert: Alert, before: seq<Alert>)
    ensures var after := Newest([alert] + before);
            && |after| == (if |before| + 1 <= 100 then |before| + 1 else 100)
            && after[0] == alert
            && forall i :: 0 < i < |after| ==> after[i] == before[i - 1]
  {
  }
}
