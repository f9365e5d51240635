/**
 The alert manager of backend/internal/alert/manager.go: repeat suppression per key,
 a bounded newest-first history, permanent channels plus one replaceable webhook.

 State is the value the mutex protects, with one function for each critical section;
 Manager is the object itself. Clock readings are inputs, in nanoseconds.
 */
module AlertManager {
  import opened Wrappers

  const RECENT_CAPACITY: nat := 100

  datatype Severity = Info | Warning | Critical

  datatype Alert = Alert(
    key: string,
    ruleId: string,
    severity: Severity,
    title: string,
    message: string,
    labels: map<string, string>,
    firedAt: int)

  datatype Notifier =
    | LogNotifier
    | WebhookNotifier(url: string, format: string)
    | OtherNotifier(id: nat, name: string)
  {
    function Name(): string {
      match this
      case LogNotifier => "log"
      case WebhookNotifier(_, _) => "webhook"
      case OtherNotifier(_, name) => name
    }
  }

  /** One attempt to hand an alert to a channel; whether it succeeded is the channel's business. */
  datatype Delivery = Delivery(channel: Notifier, alert: Alert)

  datatype State = State(
    cooldown: int,
    notifiers: seq<Notifier>,
    webhook: Option<Notifier>,
    lastFired: map<string, int>,
    recent: seq<Alert>)
  {
    function Channels(): seq<Notifier> {
      notifiers + if webhook.Some? then [webhook.value] else []
    }

    predicate Accepts(key: string, check: int) {
      key in lastFired ==> check - lastFired[key] >= cooldown
    }

    function Remember(alert: Alert): State {
      this.(recent := Newest([alert] + recent))
    }

    function Accept(alert: Alert): State {
      this.(lastFired := lastFired[alert.key := alert.firedAt]).Remember(alert)
    }
  }

  /** The permanent channels in order, then the webhook if there is one, and nothing else. */
  lemma ChannelsAre(m: State)
    ensures |m.Channels()| == |m.notifiers| + if m.webhook.Some? then 1 else 0
    ensures forall i :: 0 <= i < |m.notifiers| ==> m.Channels()[i] == m.notifiers[i]
    ensures m.webhook.Some? ==> m.Channels()[|m.notifiers|] == m.webhook.value
  {
  }

  function Newest(history: seq<Alert>): seq<Alert> {
    if |history| > RECENT_CAPACITY then history[..RECENT_CAPACITY] else history
  }

  function Deliveries(channels: seq<Notifier>, alert: Alert): seq<Delivery> {
    seq(|channels|, i requires 0 <= i < |channels| => Delivery(channels[i], alert))
  }

  function TestAlert(stamp: int): Alert {
    Alert("test", "test", Info, "StarLens test alert",
          "This is a test alert fired manually from StarLens. If you can read this, the channel works.",
          map[], stamp)
  }

  /** What a test reports of a channel's answer: its error, or that there was none. */
  function Outcome(answer: Option<string>): string {
    answer.GetOr("ok")
  }

  /** The report of a test, given what each channel answered; a later channel of the same name replaces an earlier one. */
  function Results(channels: seq<Notifier>, answers: seq<Option<string>>): map<string, string>
    requires |channels| == |answers|
  {
    if channels == [] then map[]
    else
      var n := |channels| - 1;
      Results(channels[..n], answers[..n])[channels[n].Name() := Outcome(answers[n])]
  }

  /** Every channel name is reported and nothing else is. */
  lemma {:induction false} ResultsNameChannels(channels: seq<Notifier>, answers: seq<Option<string>>)
    requires |channels| == |answers|
    ensures forall c :: c in channels ==> c.Name() in Results(channels, answers)
    ensures forall name :: name in Results(channels, answers) ==> exists c :: c in channels && c.Name() == name
  {
    if channels != [] {
      var n := |channels| - 1;
      ResultsNameChannels(channels[..n], answers[..n]);
      assert channels == channels[..n] + [channels[n]];
      assert channels[n] in channels;
    }
  }

  /** Each name is reported with the answer of the last channel that carries it. */
  lemma {:induction false} ResultsTellLast(channels: seq<Notifier>, answers: seq<Option<string>>, i: nat)
    requires i < |channels| == |answers|
    requires forall j :: i < j < |channels| ==> channels[j].Name() != channels[i].Name()
    ensures channels[i].Name() in Results(channels, answers)
    ensures Results(channels, answers)[channels[i].Name()] == if answers[i].Some? then answers[i].value else "ok"
  {
    var n := |channels| - 1;
    if i < n {
      assert forall j :: i < j < n ==> channels[..n][j] == channels[j];
      ResultsTellLast(channels[..n], answers[..n], i);
    }
  }

  /** Everything that has left the process through a channel, oldest first. */
  class Wire {
    var sent: seq<Delivery>
    /** What the channels answered, attempt by attempt. */
    ghost var answered: seq<Option<string>>

    constructor ()
      ensures sent == [] && answered == []
    {
      sent, answered := [], [];
    }

    /** The attempt is recorded; the channel may answer with any error. */
    method Send(channel: Notifier, alert: Alert) returns (error: Option<string>)
      modifies this
      ensures sent == old(sent) + [Delivery(channel, alert)]
      ensures answered == old(answered) + [error]
    {
      sent := sent + [Delivery(channel, alert)];
      error := *;
      answered := answered + [error];
    }
  }

  class Manager {
    var cooldown: int
    var notifiers: seq<Notifier>
    var webhook: Option<Notifier>
    var lastFired: map<string, int>
    var recent: seq<Alert>
    const wire: Wire

    ghost function Abs(): State
      reads this
    {
      State(cooldown, notifiers, webhook, lastFired, recent)
    }

    constructor (cooldown: int, wire: Wire)
      ensures Abs() == State(cooldown, [], None, map[], [])
      ensures this.wire == wire
    {
      this.cooldown := cooldown;
      this.wire := wire;
      notifiers, webhook, lastFired, recent := [], None, map[], [];
    }

    method Register(notifier: Notifier)
      modifies this
      ensures Abs() == old(Abs()).(notifiers := old(notifiers) + [notifier])
    {
      notifiers := notifiers + [notifier];
    }

    method SetWebhook(notifier: Option<Notifier>)
      modifies this
      ensures Abs() == old(Abs()).(webhook := notifier)
    {
      webhook := notifier;
    }

    method SetCooldown(cooldown: int)
      modifies this
      ensures Abs() == old(Abs()).(cooldown := cooldown)
    {
      this.cooldown := cooldown;
    }

    method Channels() returns (out: seq<Notifier>)
      ensures out == Abs().Channels()
    {
      out := notifiers;
      if webhook.Some? {
        out := out + [webhook.value];
      }
    }

    method Remember(alert: Alert)
      modifies this
      ensures Abs() == old(Abs()).Remember(alert)
    {
      recent := [alert] + recent;
      if |recent| > RECENT_CAPACITY {
        recent := recent[..RECENT_CAPACITY];
      }
    }

    method Deliver(channels: seq<Notifier>, alert: Alert)
      modifies wire
      ensures wire.sent == old(wire.sent) + Deliveries(channels, alert)
    {
      for i := 0 to |channels|
        invariant wire.sent == old(wire.sent) + Deliveries(channels, alert)[..i]
      {
        var _ := wire.Send(channels[i], alert);
      }
    }

    /** `check` is the reading compared with the cooldown, `stamp` the one the alert carries. */
    method Dispatch(alert: Alert, check: int, stamp: int) returns (fired: bool)
      modifies this, wire
      ensures fired == old(Abs()).Accepts(alert.key, check)
      ensures Abs() == if fired then old(Abs()).Accept(alert.(firedAt := stamp)) else old(Abs())
      ensures wire.sent == old(wire.sent) +
                           if fired then Deliveries(old(Abs()).Channels(), alert.(firedAt := stamp)) else []
    {
      if alert.key in lastFired && check - lastFired[alert.key] < cooldown {
        return false;
      }
      var stamped := alert.(firedAt := stamp);
      lastFired := lastFired[stamped.key := stamp];
      Remember(stamped);
      var channels := Channels();
      Deliver(channels, stamped);
      return true;
    }

    method SendAndReport(channels: seq<Notifier>, alert: Alert) returns (results: map<string, string>)
      modifies wire
      ensures wire.sent == old(wire.sent) + Deliveries(channels, alert)
      ensures old(wire.answered) <= wire.answered && |wire.answered| == |old(wire.answered)| + |channels|
      ensures results == Results(channels, wire.answered[|old(wire.answered)|..])
    {
      results := map[];
      ghost var answers := [];
      for i := 0 to |channels|
        invariant wire.sent == old(wire.sent) + Deliveries(channels, alert)[..i]
        invariant wire.answered == old(wire.answered) + answers && |answers| == i
        invariant results == Results(channels[..i], answers)
      {
        var error := wire.Send(channels[i], alert);
        answers := answers + [error];
        results := results[channels[i].Name() := if error.Some? then error.value else "ok"];
        assert channels[..i + 1][..i] == channels[..i] && answers[..i] + [error] == answers;
      }
      assert channels[..|channels|] == channels;
    }

    /** Bypasses the cooldown and reports what every channel answered, by name. */
    method Test(stamp: int) returns (alert: Alert, results: map<string, string>)
      modifies this, wire
      ensures alert == TestAlert(stamp)
      ensures alert.key == "test" && alert.severity == Info && alert.labels == map[] && alert.firedAt == stamp
      ensures Abs() == old(Abs()).Remember(alert)
      ensures wire.sent == old(wire.sent) + Deliveries(old(Abs()).Channels(), alert)
      ensures old(wire.answered) <= wire.answered
      ensures |wire.answered| == |old(wire.answered)| + |old(Abs()).Channels()|
      ensures results == Results(old(Abs()).Channels(), wire.answered[|old(wire.answered)|..])
    {
      alert := TestAlert(stamp);
      Remember(alert);
      var channels := Channels();
      results := SendAndReport(channels, alert);
    }

    method Recent() returns (out: seq<Alert>)
      ensures out == recent
    {
      out := recent;
    }
  }
}
