/**
 Configuration requests: store an update, then push the effective configuration into the live
 components (backend/internal/api/alertconfig.go:102-133, backend/cmd/server/main.go:99-120).
 Requests are taken one after another; the update and the push are not one atomic step.
 */
module AlertConfig {
  import opened Wrappers
  import opened AlertManager
  import opened AlertSettings
  import opened ClusterAlerts
  import opened RoutineLoadAlerts

  /** What is live in the components a configuration drives. */
  datatype Live = Live(cooldown: int, webhook: Option<Notifier>, routine: RoutinePolicy, cluster: ClusterPolicy)

  function WebhookOf(c: Config): Option<Notifier> {
    if c.webhookUrl == "" then None else Some(WebhookNotifier(c.webhookUrl, c.webhookFormat))
  }

  function LiveOf(c: Config): Live {
    Live(c.cooldown, WebhookOf(c),
         RoutinePolicy(c.errorRowsRatio, c.errorRowsMinTotal, c.maxOffsetLag), ClusterPolicy(c.maxJournalLag))
  }

  method NewWebhookNotifier(url: string, format: string) returns (notifier: Result<Notifier, string>)
    ensures notifier.Success? <==> url != "" && KnownFormat(format)
    ensures notifier.Success? ==> notifier.value == WebhookNotifier(url, format)
  {
    if url == "" {
      return Failure("webhook URL is empty");
    }
    if format != GENERIC && format != SLACK {
      return Failure("unknown webhook format");
    }
    return Success(WebhookNotifier(url, format));
  }

  datatype Status = Ok | Forbidden | InvalidConfig | NotPersisted | NotApplied

  // ----- One site as a value -----

  datatype Site = Site(defaults: Config, override: Override, live: Live)

  datatype Request = Request(patch: Override, reset: bool, persists: bool)

  predicate Succeeds(p: Parsers, r: Request) {
    Valid(p, r.patch) && r.persists
  }

  function Effective(p: Parsers, s: Site): Config {
    Overlay(p, s.defaults, s.override)
  }

  /** A request that is valid and can be persisted takes effect; any other changes nothing. */
  function Serve(p: Parsers, s: Site, r: Request): Site {
    if Succeeds(p, r) then
      var stored := s.(override := Target(s.override, r.patch, r.reset));
      stored.(live := LiveOf(Effective(p, stored)))
    else s
  }

  function ServeAll(p: Parsers, s: Site, requests: seq<Request>): Site {
    if requests == [] then s
    else Serve(p, ServeAll(p, s, requests[..|requests| - 1]), requests[|requests| - 1])
  }

  /**
   The defaults overlaid, in order, by the successful patches since the last successful reset; before
   any reset, the configuration the run started from overlaid by them.
   */
  function Layered(p: Parsers, defaults: Config, start: Config, requests: seq<Request>): Config {
    if requests == [] then start
    else
      var last := requests[|requests| - 1];
      var below := Layered(p, defaults, start, requests[..|requests| - 1]);
      if !Succeeds(p, last) then below
      else Overlay(p, if last.reset then defaults else below, last.patch)
  }

  /** A stored override always validates, and the components run on the effective configuration. */
  ghost predicate Settled(p: Parsers, s: Site) {
    && Valid(p, s.override)
    && KnownFormat(Effective(p, s).webhookFormat)
    && s.live == LiveOf(Effective(p, s))
  }

  /**
   After any run of requests from a settled site, fresh or reloaded, the effective configuration is
   the layered one and the live cooldown, webhook and thresholds are exactly those of it.
   */
  lemma {:induction false} LiveIsLayered(p: Parsers, s: Site, requests: seq<Request>)
    requires Settled(p, s) && KnownFormat(s.defaults.webhookFormat)
    ensures var end := ServeAll(p, s, requests);
            && end.defaults == s.defaults
            && Settled(p, end)
            && Effective(p, end) == Layered(p, s.defaults, Effective(p, s), requests)
            && end.live == LiveOf(Layered(p, s.defaults, Effective(p, s), requests))
  {
    if requests != [] {
      var init, last := requests[..|requests| - 1], requests[|requests| - 1];
      LiveIsLayered(p, s, init);
      if Succeeds(p, last) {
        var before := ServeAll(p, s, init);
        var base := if last.reset then EMPTY else before.override;
        MergeValid(p, base, last.patch);
        OverlayMerge(p, s.defaults, base, last.patch);
      }
    }
  }

  // ----- Field by field -----

  /** A field after a request took effect: the patch's value if it names one, or else the default after a reset and what was there before without one. */
  function After<T>(named: Option<T>, reset: bool, default: T, before: T): T {
    if named.Some? then named.value else if reset then default else before
  }

  /** The duration a patch names. */
  function Named(p: Parsers, text: Option<string>): Option<int> {
    if text.None? then None else p.duration(text.value)
  }

  /** The webhook URL and format in effect, and whether evaluation is on and how often. */
  datatype Rest = Rest(enabled: bool, pollInterval: int, url: string, format: string)

  function RestOf(p: Parsers, s: Site): Rest {
    Rest(s.override.enabled.GetOr(s.defaults.enabled),
         Named(p, s.override.pollInterval).GetOr(s.defaults.pollInterval),
         s.override.webhookUrl.GetOr(s.defaults.webhookUrl),
         s.override.webhookFormat.GetOr(s.defaults.webhookFormat))
  }

  /** The evaluation loop's settings and the webhook are those in effect. */
  predicate RestAgrees(p: Parsers, s: Site) {
    var rest := RestOf(p, s);
    && Effective(p, s).enabled == rest.enabled && Effective(p, s).pollInterval == rest.pollInterval
    && s.live.webhook == if rest.url == "" then None else Some(WebhookNotifier(rest.url, rest.format))
  }

  /** A request has taken effect on every field. */
  predicate TookEffect(p: Parsers, before: Site, after: Site, patch: Override, reset: bool) {
    var d, was, now := before.defaults, before.live, after.live;
    && after.defaults == d
    && now.cooldown == After(Named(p, patch.cooldown), reset, d.cooldown, was.cooldown)
    && now.routine.errorRowsRatio == After(patch.errorRowsRatio, reset, d.errorRowsRatio, was.routine.errorRowsRatio)
    && now.routine.errorRowsMinTotal == After(patch.errorRowsMinTotal, reset, d.errorRowsMinTotal, was.routine.errorRowsMinTotal)
    && now.routine.maxOffsetLag == After(patch.maxOffsetLag, reset, d.maxOffsetLag, was.routine.maxOffsetLag)
    && now.cluster.maxJournalLag == After(patch.maxJournalLag, reset, d.maxJournalLag, was.cluster.maxJournalLag)
    && RestOf(p, after) == Rest(After(patch.enabled, reset, d.enabled, RestOf(p, before).enabled),
                                After(Named(p, patch.pollInterval), reset, d.pollInterval, RestOf(p, before).pollInterval),
                                After(patch.webhookUrl, reset, d.webhookUrl, RestOf(p, before).url),
                                After(patch.webhookFormat, reset, d.webhookFormat, RestOf(p, before).format))
    && RestAgrees(p, after)
  }

  lemma ServeTakesEffect(p: Parsers, s: Site, r: Request)
    requires Settled(p, s)
    ensures Succeeds(p, r) ==> TookEffect(p, s, Serve(p, s, r), r.patch, r.reset)
    ensures !Succeeds(p, r) ==> Serve(p, s, r) == s
  {
  }

  /** A field after a run of requests: that of the last successful one since the last successful reset that names it; else the default if there was a reset, and what the run started from if not. */
  function LastNamed<T>(p: Parsers, requests: seq<Request>, named: Override -> Option<T>, default: T, start: T): T {
    if requests == [] then start
    else
      var last := requests[|requests| - 1];
      var before := LastNamed(p, requests[..|requests| - 1], named, default, start);
      if Succeeds(p, last) then After(named(last.patch), last.reset, default, before) else before
  }

  /** The k-th request decides a field: it succeeds, it names the field or resets, and no later successful one does either. */
  ghost predicate Decides<T>(p: Parsers, requests: seq<Request>, named: Override -> Option<T>, k: int) {
    && 0 <= k < |requests| && Succeeds(p, requests[k]) && (named(requests[k].patch).Some? || requests[k].reset)
    && forall j :: k < j < |requests| && Succeeds(p, requests[j]) ==> named(requests[j].patch).None? && !requests[j].reset
  }

  lemma {:induction false} LastNamedIs<T>(p: Parsers, requests: seq<Request>, named: Override -> Option<T>, default: T, start: T)
    ensures forall k :: Decides(p, requests, named, k) ==>
                          LastNamed(p, requests, named, default, start) == named(requests[k].patch).GetOr(default)
    ensures (forall j :: 0 <= j < |requests| && Succeeds(p, requests[j]) ==> named(requests[j].patch).None? && !requests[j].reset)
            ==> LastNamed(p, requests, named, default, start) == start
  {
    if requests != [] {
      var n := |requests| - 1;
      LastNamedIs(p, requests[..n], named, default, start);
      forall k | Decides(p, requests, named, k)
        ensures LastNamed(p, requests, named, default, start) == named(requests[k].patch).GetOr(default)
      {
        if k < n {
          assert Decides(p, requests[..n], named, k);
        }
      }
    }
  }

  function CooldownNamed(p: Parsers): Override -> Option<int> { (o: Override) => Named(p, o.cooldown) }
  function IntervalNamed(p: Parsers): Override -> Option<int> { (o: Override) => Named(p, o.pollInterval) }
  function EnabledNamed(o: Override): Option<bool> { o.enabled }
  function UrlNamed(o: Override): Option<string> { o.webhookUrl }
  function FormatNamed(o: Override): Option<string> { o.webhookFormat }
  function RatioNamed(o: Override): Option<real> { o.errorRowsRatio }
  function MinTotalNamed(o: Override): Option<int> { o.errorRowsMinTotal }
  function OffsetLagNamed(o: Override): Option<int> { o.maxOffsetLag }
  function JournalLagNamed(o: Override): Option<int> { o.maxJournalLag }

  /** Each live field, and each the evaluation loop reads, is the one last named. */
  predicate IsLastNamed(p: Parsers, s: Site, requests: seq<Request>, end: Site) {
    var d, start := s.defaults, s.live;
    && end.live.cooldown == LastNamed(p, requests, CooldownNamed(p), d.cooldown, start.cooldown)
    && end.live.routine.errorRowsRatio == LastNamed(p, requests, RatioNamed, d.errorRowsRatio, start.routine.errorRowsRatio)
    && end.live.routine.errorRowsMinTotal == LastNamed(p, requests, MinTotalNamed, d.errorRowsMinTotal, start.routine.errorRowsMinTotal)
    && end.live.routine.maxOffsetLag == LastNamed(p, requests, OffsetLagNamed, d.maxOffsetLag, start.routine.maxOffsetLag)
    && end.live.cluster.maxJournalLag == LastNamed(p, requests, JournalLagNamed, d.maxJournalLag, start.cluster.maxJournalLag)
    && RestOf(p, end) == Rest(LastNamed(p, requests, EnabledNamed, d.enabled, RestOf(p, s).enabled),
                              LastNamed(p, requests, IntervalNamed(p), d.pollInterval, RestOf(p, s).pollInterval),
                              LastNamed(p, requests, UrlNamed, d.webhookUrl, RestOf(p, s).url),
                              LastNamed(p, requests, FormatNamed, d.webhookFormat, RestOf(p, s).format))
    && RestAgrees(p, end)
  }

  lemma SettledAgrees(p: Parsers, s: Site)
    requires Settled(p, s)
    ensures RestAgrees(p, s)
  {
  }

  lemma NextLastNamed(p: Parsers, s: Site, requests: seq<Request>, before: Site, after: Site)
    requires requests != [] && before.defaults == s.defaults
    requires IsLastNamed(p, s, requests[..|requests| - 1], before)
    requires var last := requests[|requests| - 1];
             if Succeeds(p, last) then TookEffect(p, before, after, last.patch, last.reset) else after == before
    ensures IsLastNamed(p, s, requests, after)
  {
  }

  /**
   After any run of requests from a settled site, each live field is that of the last successful
   request since the last successful reset that names it, and otherwise the default, or without a
   reset what the run started from.
   */
  lemma {:induction false} LiveIsLastNamed(p: Parsers, s: Site, requests: seq<Request>)
    requires Settled(p, s) && KnownFormat(s.defaults.webhookFormat)
    ensures IsLastNamed(p, s, requests, ServeAll(p, s, requests))
  {
    if requests == [] {
      SettledAgrees(p, s);
    } else {
      var n := |requests| - 1;
      LiveIsLastNamed(p, s, requests[..n]);
      LiveIsLayered(p, s, requests[..n]);
      ServeTakesEffect(p, ServeAll(p, s, requests[..n]), requests[n]);
      NextLastNamed(p, s, requests, ServeAll(p, s, requests[..n]), ServeAll(p, s, requests));
    }
  }

  /** What is live is in range, or is the default: no request can bring in a negative cooldown or threshold, a ratio above one, or a poll interval under five seconds. */
  predicate InRange(p: Parsers, s: Site) {
    var d, live := s.defaults, s.live;
    && (live.cooldown >= 0 || live.cooldown == d.cooldown)
    && (0.0 <= live.routine.errorRowsRatio <= 1.0 || live.routine.errorRowsRatio == d.errorRowsRatio)
    && (live.routine.errorRowsMinTotal >= 0 || live.routine.errorRowsMinTotal == d.errorRowsMinTotal)
    && (live.routine.maxOffsetLag >= 0 || live.routine.maxOffsetLag == d.maxOffsetLag)
    && (live.cluster.maxJournalLag >= 0 || live.cluster.maxJournalLag == d.maxJournalLag)
    && (Effective(p, s).pollInterval >= 5_000_000_000 || Effective(p, s).pollInterval == d.pollInterval)
    && (live.webhook.Some? ==>
          && live.webhook.value.WebhookNotifier? && live.webhook.value.url != ""
          && live.webhook.value.format in {"generic", "slack"}
          && (p.webUrl(live.webhook.value.url) || live.webhook.value.url == d.webhookUrl))
  }

  lemma SettledIsInRange(p: Parsers, s: Site)
    requires Settled(p, s)
    ensures InRange(p, s)
  {
  }

  lemma LiveStaysInRange(p: Parsers, s: Site, requests: seq<Request>)
    requires Settled(p, s) && KnownFormat(s.defaults.webhookFormat)
    ensures InRange(p, ServeAll(p, s, requests))
  {
    LiveIsLayered(p, s, requests);
    SettledIsInRange(p, ServeAll(p, s, requests));
  }

  // ----- The components themselves -----

  class AlertConfigHandler {
    const settings: Settings
    const manager: Manager
    const routineLoads: RoutineLoadService
    const cluster: ClusterService
    const editable: bool

    constructor (settings: Settings, manager: Manager, routineLoads: RoutineLoadService, cluster: ClusterService, editable: bool)
      ensures this.settings == settings && this.manager == manager
      ensures this.routineLoads == routineLoads && this.cluster == cluster && this.editable == editable
    {
      this.settings, this.manager := settings, manager;
      this.routineLoads, this.cluster, this.editable := routineLoads, cluster, editable;
    }

    ghost function LiveNow(): Live
      reads manager, routineLoads, cluster
    {
      Live(manager.cooldown, manager.webhook, routineLoads.policy, cluster.policy)
    }

    ghost function Abs(): Site
      reads settings, manager, routineLoads, cluster
    {
      Site(settings.defaults, settings.override, LiveNow())
    }

    /**
     Loads the settings, if need be without what is stored, and pushes the effective configuration into
     the components. It fails only over a webhook it cannot build, which known default formats rule out,
     and leaves a settled site. That site agrees with the file unless it could not read a stored override.
     */
    static method Boot(parsers: Parsers, defaults: Config, fs: FileSystem, readable: bool, manager: Manager,
                       routineLoads: RoutineLoadService, cluster: ClusterService, editable: bool)
      returns (handler: AlertConfigHandler, started: bool)
      modifies manager, routineLoads, cluster
      ensures fresh(handler) && fresh(handler.settings)
      ensures handler.settings.parsers == parsers && handler.settings.defaults == defaults && handler.settings.fs == fs
      ensures handler.manager == manager && handler.routineLoads == routineLoads && handler.cluster == cluster
      ensures handler.editable == editable
      ensures handler.settings.override == if readable then Load(parsers, fs.disk).override else EMPTY
      ensures KnownFormat(defaults.webhookFormat) ==> started && Settled(parsers, handler.Abs())
      ensures handler.settings.InSync() <==> readable || Load(parsers, fs.disk).override == EMPTY
      ensures manager.Abs() == old(manager.Abs()).(cooldown := manager.cooldown, webhook := manager.webhook)
    {
      var settings, failed := Settings.LoadSettings(parsers, defaults, fs, readable);
      handler := new AlertConfigHandler(settings, manager, routineLoads, cluster, editable);
      var effective := settings.Effective();
      started := handler.Apply(effective);
    }

    /** Pushes a configuration into the components; a webhook it cannot build stops it half way. */
    method Apply(c: Config) returns (ok: bool)
      modifies manager, routineLoads, cluster
      ensures ok <==> c.webhookUrl == "" || KnownFormat(c.webhookFormat)
      ensures LiveNow() == if ok then LiveOf(c) else old(LiveNow()).(cooldown := c.cooldown)
      ensures manager.Abs() == old(manager.Abs()).(cooldown := manager.cooldown, webhook := manager.webhook)
    {
      manager.SetCooldown(c.cooldown);
      if c.webhookUrl == "" {
        manager.SetWebhook(None);
      } else {
        var webhook := NewWebhookNotifier(c.webhookUrl, c.webhookFormat);
        if webhook.Failure? {
          return false;
        }
        manager.SetWebhook(Some(webhook.value));
      }
      routineLoads.SetPolicy(RoutinePolicy(c.errorRowsRatio, c.errorRowsMinTotal, c.maxOffsetLag));
      cluster.SetAlertPolicy(ClusterPolicy(c.maxJournalLag));
      return true;
    }

    /** A settled site stays settled, and applying what was stored never fails. */
    method Put(patch: Override, reset: bool) returns (status: Status)
      requires Settled(settings.parsers, Abs()) && KnownFormat(settings.defaults.webhookFormat)
      modifies settings, settings.fs, manager, routineLoads, cluster
      ensures Settled(settings.parsers, Abs())
      ensures settings.InSync() <==> status == Ok || old(settings.InSync())
      ensures status == Forbidden <==> !editable
      ensures status == InvalidConfig <==> editable && !Valid(settings.parsers, patch)
      ensures status != NotApplied
      ensures status == Ok ==> TookEffect(settings.parsers, old(Abs()), Abs(), patch, reset)
      ensures status != Ok ==> Abs() == old(Abs())
      ensures Abs() == if editable then Serve(settings.parsers, old(Abs()), Request(patch, reset, status != NotPersisted))
                       else old(Abs())
    {
      if !editable {
        return Forbidden;
      }
      ServeTakesEffect(settings.parsers, Abs(), Request(patch, reset, true));
      var error := settings.Update(patch, reset);
      if error.Some? {
        return if error.value.InvalidOverride? then InvalidConfig else NotPersisted;
      }
      var effective := settings.Effective();
      var ok := Apply(effective);
      if !ok {
        return NotApplied;
      }
      return Ok;
    }
  }
}
