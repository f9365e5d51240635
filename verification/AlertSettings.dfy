/**
 Environment defaults overlaid by a partial override that is kept in a file
 (backend/internal/alert/settings.go).

 Duration and URL parsing are parameters. A file holds either the encoding of an override, which
 decodes to exactly that override, or something that does not decode.
 */
module AlertSettings {
  import opened Wrappers

  const GENERIC := "generic"
  const SLACK := "slack"
  const MIN_POLL_INTERVAL: int := 5_000_000_000

  datatype Config = Config(
    enabled: bool,
    pollInterval: int,
    cooldown: int,
    webhookUrl: string,
    webhookFormat: string,
    errorRowsRatio: real,
    errorRowsMinTotal: int,
    maxOffsetLag: int,
    maxJournalLag: int)

  datatype Override = Override(
    enabled: Option<bool>,
    pollInterval: Option<string>,
    cooldown: Option<string>,
    webhookUrl: Option<string>,
    webhookFormat: Option<string>,
    errorRowsRatio: Option<real>,
    errorRowsMinTotal: Option<int>,
    maxOffsetLag: Option<int>,
    maxJournalLag: Option<int>)

  const EMPTY := Override(None, None, None, None, None, None, None, None, None)

  /** Foreign parsers: a duration in nanoseconds, and whether a text is an http(s) URL with a host. */
  datatype Parsers = Parsers(duration: string -> Option<int>, webUrl: string -> bool)

  // ----- Validation -----

  predicate DurationAtLeast(p: Parsers, text: Option<string>, least: int) {
    text.Some? ==> p.duration(text.value).Some? && p.duration(text.value).value >= least
  }

  predicate NotNegative(n: Option<int>) {
    n.Some? ==> n.value >= 0
  }

  predicate KnownFormat(format: string) {
    format == GENERIC || format == SLACK
  }

  predicate Valid(p: Parsers, o: Override) {
    && DurationAtLeast(p, o.pollInterval, MIN_POLL_INTERVAL)
    && DurationAtLeast(p, o.cooldown, 0)
    && (o.webhookUrl.Some? ==> o.webhookUrl.value == "" || p.webUrl(o.webhookUrl.value))
    && (o.webhookFormat.Some? ==> KnownFormat(o.webhookFormat.value))
    && (o.errorRowsRatio.Some? ==> 0.0 <= o.errorRowsRatio.value <= 1.0)
    && NotNegative(o.errorRowsMinTotal) && NotNegative(o.maxOffsetLag) && NotNegative(o.maxJournalLag)
  }

  /** The ranges, one field at a time and to the last value: what is in range is accepted and what is not is refused. */
  lemma RangesAreTight(p: Parsers, text: string, ratio: real, n: int)
    ensures Valid(p, EMPTY)
    ensures Valid(p, EMPTY.(pollInterval := Some(text))) <==> p.duration(text).Some? && p.duration(text).value >= 5_000_000_000
    ensures Valid(p, EMPTY.(cooldown := Some(text))) <==> p.duration(text).Some? && p.duration(text).value >= 0
    ensures Valid(p, EMPTY.(webhookUrl := Some(text))) <==> text == "" || p.webUrl(text)
    ensures Valid(p, EMPTY.(webhookFormat := Some(text))) <==> text == "generic" || text == "slack"
    ensures Valid(p, EMPTY.(errorRowsRatio := Some(ratio))) <==> 0.0 <= ratio <= 1.0
    ensures Valid(p, EMPTY.(errorRowsMinTotal := Some(n))) <==> n >= 0
    ensures Valid(p, EMPTY.(maxOffsetLag := Some(n))) <==> n >= 0
    ensures Valid(p, EMPTY.(maxJournalLag := Some(n))) <==> n >= 0
    ensures Valid(p, EMPTY.(enabled := Some(n == 0)))
  {
  }

  /** The checks in source order; the answer names the first field at fault. */
  method Validate(p: Parsers, o: Override) returns (fault: Option<string>)
    ensures fault.None? <==> Valid(p, o)
  {
    if o.pollInterval.Some? {
      var d := p.duration(o.pollInterval.value);
      if d.None? || d.value < MIN_POLL_INTERVAL {
        return Some("pollInterval");
      }
    }
    if o.cooldown.Some? {
      var d := p.duration(o.cooldown.value);
      if d.None? || d.value < 0 {
        return Some("cooldown");
      }
    }
    if o.webhookUrl.Some? && o.webhookUrl.value != "" {
      if !p.webUrl(o.webhookUrl.value) {
        return Some("webhookUrl");
      }
    }
    if o.webhookFormat.Some? && o.webhookFormat.value != GENERIC && o.webhookFormat.value != SLACK {
      return Some("webhookFormat");
    }
    if o.errorRowsRatio.Some? && (o.errorRowsRatio.value < 0.0 || o.errorRowsRatio.value > 1.0) {
      return Some("errorRowsRatio");
    }
    if o.errorRowsMinTotal.Some? && o.errorRowsMinTotal.value < 0 {
      return Some("errorRowsMinTotal");
    }
    if o.maxOffsetLag.Some? && o.maxOffsetLag.value < 0 {
      return Some("maxOffsetLag");
    }
    if o.maxJournalLag.Some? && o.maxJournalLag.value < 0 {
      return Some("maxJournalLag");
    }
    return None;
  }

  // ----- Layering -----

  function Or<T>(first: Option<T>, second: Option<T>): Option<T> {
    if first.Some? then first else second
  }

  /** The override after a patch: what the patch names, and otherwise what was there. */
  function Merge(base: Override, patch: Override): Override {
    Override(
      Or(patch.enabled, base.enabled),
      Or(patch.pollInterval, base.pollInterval),
      Or(patch.cooldown, base.cooldown),
      Or(patch.webhookUrl, base.webhookUrl),
      Or(patch.webhookFormat, base.webhookFormat),
      Or(patch.errorRowsRatio, base.errorRowsRatio),
      Or(patch.errorRowsMinTotal, base.errorRowsMinTotal),
      Or(patch.maxOffsetLag, base.maxOffsetLag),
      Or(patch.maxJournalLag, base.maxJournalLag))
  }

  /** A duration that does not parse leaves the layer below in force. */
  function DurationOr(p: Parsers, text: Option<string>, fallback: int): int {
    if text.None? then fallback else p.duration(text.value).GetOr(fallback)
  }

  /** A configuration with an override applied on top. */
  function Overlay(p: Parsers, c: Config, o: Override): Config {
    Config(
      o.enabled.GetOr(c.enabled),
      DurationOr(p, o.pollInterval, c.pollInterval),
      DurationOr(p, o.cooldown, c.cooldown),
      o.webhookUrl.GetOr(c.webhookUrl),
      o.webhookFormat.GetOr(c.webhookFormat),
      o.errorRowsRatio.GetOr(c.errorRowsRatio),
      o.errorRowsMinTotal.GetOr(c.errorRowsMinTotal),
      o.maxOffsetLag.GetOr(c.maxOffsetLag),
      o.maxJournalLag.GetOr(c.maxJournalLag))
  }

  /** What one update aims to store. */
  function Target(current: Override, patch: Override, reset: bool): Override {
    Merge(if reset then EMPTY else current, patch)
  }

  lemma MergeValid(p: Parsers, base: Override, patch: Override)
    requires Valid(p, base) && Valid(p, patch)
    ensures Valid(p, Merge(base, patch))
  {
  }

  /** Storing a patch in the override and overlaying it afterwards come to the same configuration. */
  lemma OverlayMerge(p: Parsers, c: Config, base: Override, patch: Override)
    requires Valid(p, patch)
    ensures Overlay(p, c, Merge(base, patch)) == Overlay(p, Overlay(p, c, base), patch)
  {
  }

  /** Without validation it would not: a patch whose duration does not parse would hide the layer it is merged into. */
  lemma OverlayMergeNeedsValidPatch(p: Parsers, c: Config, base: Override, patch: Override)
    ensures Overlay(p, c, Merge(base, patch)) == Overlay(p, Overlay(p, c, base), patch) <==>
            && (patch.pollInterval.Some? && p.duration(patch.pollInterval.value).None? ==>
                  DurationOr(p, base.pollInterval, c.pollInterval) == c.pollInterval)
            && (patch.cooldown.Some? && p.duration(patch.cooldown.value).None? ==>
                  DurationOr(p, base.cooldown, c.cooldown) == c.cooldown)
  {
  }

  // ----- The file -----

  datatype Contents = Json(override: Override) | Garbled

  datatype Disk = Disk(file: Option<Contents>, tmp: Option<Contents>)

  datatype Loaded = Loaded(override: Override, failed: bool)

  /** What a boot makes of the disk: a missing file is a fresh start, a bad one is reported and ignored. */
  function Load(p: Parsers, disk: Disk): Loaded {
    match disk.file
    case None => Loaded(EMPTY, false)
    case Some(Garbled) => Loaded(EMPTY, true)
    case Some(Json(o)) => if Valid(p, o) then Loaded(o, false) else Loaded(EMPTY, true)
  }

  /** The file an override is stored as: none at all when nothing is overridden. */
  function FileOf(o: Override): Option<Contents> {
    if o == EMPTY then None else Some(Json(o))
  }

  /** The file goes from one content to another at most once, and is never anything else. */
  ghost predicate SwitchesOnce(disks: seq<Disk>, before: Option<Contents>, after: Option<Contents>) {
    && (forall i :: 0 <= i < |disks| ==> disks[i].file == before || disks[i].file == after)
    && (forall i, j :: 0 <= i <= j < |disks| && disks[i].file == after && after != before ==> disks[j].file == after)
  }

  class FileSystem {
    var disk: Disk
    /** Every state the disk has been in: a crash leaves one of these behind. */
    ghost var seen: seq<Disk>

    constructor (disk: Disk)
      ensures this.disk == disk && seen == [disk]
    {
      this.disk := disk;
      seen := [disk];
    }

    /** Removing a file that is not there counts as success. */
    method Remove() returns (ok: bool)
      modifies this
      ensures disk == if ok then old(disk).(file := None) else old(disk)
      ensures seen == old(seen) + [disk]
    {
      ok := *;
      if ok {
        disk := disk.(file := None);
      }
      seen := seen + [disk];
    }

    method MakeDirectory() returns (ok: bool) {
      ok := *;
    }

    /** Truncates and then writes; a failure may leave any contents in the temporary file. */
    method WriteTmp(contents: Contents) returns (ok: bool)
      modifies this
      ensures disk.file == old(disk).file
      ensures ok ==> disk.tmp == Some(contents)
      ensures |seen| >= |old(seen)| && seen[..|old(seen)|] == old(seen)
      ensures forall i :: |old(seen)| <= i < |seen| ==> seen[i].file == old(disk).file
    {
      var created: bool := *;
      if !created {
        return false;
      }
      var torn: Contents := *;
      disk := disk.(tmp := Some(torn));
      seen := seen + [disk];
      ok := *;
      if ok {
        disk := disk.(tmp := Some(contents));
        seen := seen + [disk];
      }
    }

    /** The rename is atomic; when it fails nothing has changed. */
    method Rename() returns (ok: bool)
      modifies this
      ensures disk == if ok then Disk(old(disk).tmp, None) else old(disk)
      ensures seen == old(seen) + [disk]
    {
      ok := *;
      if ok {
        disk := Disk(disk.tmp, None);
      }
      seen := seen + [disk];
    }
  }

  datatype UpdateError = InvalidOverride(field: string) | PersistFailed

  class Settings {
    const parsers: Parsers
    const defaults: Config
    const fs: FileSystem
    var override: Override

    constructor (parsers: Parsers, defaults: Config, fs: FileSystem, override: Override)
      ensures this.parsers == parsers && this.defaults == defaults && this.fs == fs && this.override == override
    {
      this.parsers, this.defaults, this.fs, this.override := parsers, defaults, fs, override;
    }

    /** The override in memory is the one the file decodes to. */
    ghost predicate InSync()
      reads this, fs
    {
      Valid(parsers, override) && Load(parsers, fs.disk).override == override
    }

    /** Usable settings come back in every case; `failed` reports an unreadable, corrupt or invalid file. */
    static method LoadSettings(parsers: Parsers, defaults: Config, fs: FileSystem, readable: bool)
      returns (s: Settings, failed: bool)
      ensures fresh(s) && s.parsers == parsers && s.defaults == defaults && s.fs == fs
      ensures Valid(parsers, s.override)
      ensures if readable then Loaded(s.override, failed) == Load(parsers, fs.disk)
              else Loaded(s.override, failed) == Loaded(EMPTY, true)
      ensures readable && fs.disk.file.None? ==> s.override == EMPTY && !failed
      ensures readable && fs.disk.file.Some? ==>
                (failed <==> !(fs.disk.file.value.Json? && Valid(parsers, fs.disk.file.value.override)))
      ensures readable && fs.disk.file.Some? && !failed ==> fs.disk.file == Some(Json(s.override))
      ensures failed ==> s.override == EMPTY
      ensures s.InSync() <==> readable || Load(parsers, fs.disk).override == EMPTY
    {
      s := new Settings(parsers, defaults, fs, EMPTY);
      if !readable {
        return s, true;
      }
      if fs.disk.file.None? {
        return s, false;
      }
      var raw := fs.disk.file.value;
      if raw.Garbled? {
        return s, true;
      }
      var fault := Validate(parsers, raw.override);
      if fault.Some? {
        return s, true;
      }
      s.override := raw.override;
      return s, false;
    }

    method Effective() returns (c: Config)
      ensures c == Overlay(parsers, defaults, override)
      ensures override.enabled.Some? ==> c.enabled == override.enabled.value
      ensures override.pollInterval.Some? && parsers.duration(override.pollInterval.value).Some? ==>
                c.pollInterval == parsers.duration(override.pollInterval.value).value
      ensures override.cooldown.Some? && parsers.duration(override.cooldown.value).Some? ==>
                c.cooldown == parsers.duration(override.cooldown.value).value
      ensures override.webhookUrl.Some? ==> c.webhookUrl == override.webhookUrl.value
      ensures override.webhookFormat.Some? ==> c.webhookFormat == override.webhookFormat.value
      ensures override.errorRowsRatio.Some? ==> c.errorRowsRatio == override.errorRowsRatio.value
      ensures override.errorRowsMinTotal.Some? ==> c.errorRowsMinTotal == override.errorRowsMinTotal.value
      ensures override.maxOffsetLag.Some? ==> c.maxOffsetLag == override.maxOffsetLag.value
      ensures override.maxJournalLag.Some? ==> c.maxJournalLag == override.maxJournalLag.value
      ensures override == EMPTY ==> c == defaults
    {
      var o := override;
      c := TimesOf(defaults, o);
      if o.webhookUrl.Some? { c := c.(webhookUrl := o.webhookUrl.value); }
      if o.webhookFormat.Some? { c := c.(webhookFormat := o.webhookFormat.value); }
      c := LimitsOf(c, o);
    }

    method TimesOf(base: Config, o: Override) returns (c: Config)
      ensures c == Overlay(parsers, base, EMPTY.(enabled := o.enabled, pollInterval := o.pollInterval, cooldown := o.cooldown))
    {
      c := base;
      if o.enabled.Some? { c := c.(enabled := o.enabled.value); }
      if o.pollInterval.Some? { c := c.(pollInterval := MustDuration(o.pollInterval.value, c.pollInterval)); }
      if o.cooldown.Some? { c := c.(cooldown := MustDuration(o.cooldown.value, c.cooldown)); }
    }

    static method LimitsOf(base: Config, o: Override) returns (c: Config)
      ensures c == base.(errorRowsRatio := o.errorRowsRatio.GetOr(base.errorRowsRatio),
                         errorRowsMinTotal := o.errorRowsMinTotal.GetOr(base.errorRowsMinTotal),
                         maxOffsetLag := o.maxOffsetLag.GetOr(base.maxOffsetLag),
                         maxJournalLag := o.maxJournalLag.GetOr(base.maxJournalLag))
    {
      c := base;
      if o.errorRowsRatio.Some? { c := c.(errorRowsRatio := o.errorRowsRatio.value); }
      if o.errorRowsMinTotal.Some? { c := c.(errorRowsMinTotal := o.errorRowsMinTotal.value); }
      if o.maxOffsetLag.Some? { c := c.(maxOffsetLag := o.maxOffsetLag.value); }
      if o.maxJournalLag.Some? { c := c.(maxJournalLag := o.maxJournalLag.value); }
    }

    /** Writes the temporary file and renames it, or removes the file when nothing is overridden. */
    method Persist(o: Override) returns (ok: bool)
      modifies fs
      ensures fs.disk.file == if ok then FileOf(o) else old(fs.disk.file)
      ensures |fs.seen| >= |old(fs.seen)| && fs.seen[..|old(fs.seen)|] == old(fs.seen)
      ensures SwitchesOnce(fs.seen[|old(fs.seen)|..], old(fs.disk.file), FileOf(o))
    {
      if o == EMPTY {
        ok := fs.Remove();
        return;
      }
      ok := fs.MakeDirectory();
      if !ok {
        return;
      }
      ok := fs.WriteTmp(Json(o));
      if !ok {
        return;
      }
      ok := fs.Rename();
    }

    function MustDuration(raw: string, fallback: int): int {
      parsers.duration(raw).GetOr(fallback)
    }

    static method MergePatch(base: Override, patch: Override) returns (merged: Override)
      ensures merged == Merge(base, patch)
    {
      merged := base;
      merged := merged.(enabled := if patch.enabled.Some? then patch.enabled else merged.enabled);
      merged := merged.(pollInterval := if patch.pollInterval.Some? then patch.pollInterval else merged.pollInterval);
      merged := merged.(cooldown := if patch.cooldown.Some? then patch.cooldown else merged.cooldown);
      merged := merged.(webhookUrl := if patch.webhookUrl.Some? then patch.webhookUrl else merged.webhookUrl);
      merged := merged.(webhookFormat := if patch.webhookFormat.Some? then patch.webhookFormat else merged.webhookFormat);
      merged := merged.(errorRowsRatio := if patch.errorRowsRatio.Some? then patch.errorRowsRatio else merged.errorRowsRatio);
      merged := merged.(errorRowsMinTotal := if patch.errorRowsMinTotal.Some? then patch.errorRowsMinTotal else merged.errorRowsMinTotal);
      merged := merged.(maxOffsetLag := if patch.maxOffsetLag.Some? then patch.maxOffsetLag else merged.maxOffsetLag);
      merged := merged.(maxJournalLag := if patch.maxJournalLag.Some? then patch.maxJournalLag else merged.maxJournalLag);
    }

    /**
     Memory changes only once the file has. Success stores the target in both and an error changes
     neither, so that success brings memory and file together and an error does not part them. A crash
     on the way leaves a file that loads as what was stored before or as the target.
     */
    method Update(patch: Override, reset: bool) returns (error: Option<UpdateError>)
      requires Valid(parsers, override)
      modifies this, fs
      ensures Valid(parsers, override)
      ensures error.Some? && error.value.InvalidOverride? <==> !Valid(parsers, patch)
      ensures error.None? ==> override == Target(old(override), patch, reset) && fs.disk.file == FileOf(override)
      ensures error.None? ==> fs.disk.file == if override == EMPTY then None else Some(Json(override))
      ensures error.Some? ==> override == old(override) && fs.disk.file == old(fs.disk.file)
      ensures InSync() <==> error.None? || old(InSync())
      ensures |fs.seen| >= |old(fs.seen)| && fs.seen[..|old(fs.seen)|] == old(fs.seen)
      ensures SwitchesOnce(fs.seen[|old(fs.seen)|..], old(fs.disk.file), FileOf(Target(old(override), patch, reset)))
      ensures Valid(parsers, patch) ==>
                forall d :: d in fs.seen[|old(fs.seen)|..] ==>
                              Load(parsers, d) == Load(parsers, old(fs.disk))
                              || Load(parsers, d) == Loaded(Target(old(override), patch, reset), false)
    {
      var fault := Validate(parsers, patch);
      if fault.Some? {
        return Some(InvalidOverride(fault.value));
      }
      var merged := MergePatch(if reset then EMPTY else override, patch);
      MergeValid(parsers, if reset then EMPTY else override, patch);
      var ok := Persist(merged);
      if !ok {
        return Some(PersistFailed);
      }
      override := merged;
      return None;
    }
  }
}
