/**
 Updates, crashes and boots in any order (backend/internal/alert/settings.go:120-141, 208-281,
 backend/cmd/server/main.go:80-97).

 Each event is one system call of an update, the commit to memory that follows, a crash of the
 process at any point, or a boot. A write in progress may leave any contents in the temporary
 file; a rename or removal that fails changes nothing. A boot that cannot read the file goes on
 without overrides.
 */
module SettingsCrash {
  import opened Wrappers
  import opened AlertSettings

  /** How far an update has got. */
  datatype Stage = Merged | DirectoryMade | TmpOpen | TmpWritten | FileReplaced

  datatype Process =
    | Down
    | Idle(memory: Override)
    | Updating(memory: Override, goal: Override, stage: Stage)

  datatype Machine = Machine(disk: Disk, process: Process)

  datatype Event =
    | Begin(patch: Override, reset: bool)
    | Remove(ok: bool)
    | MakeDirectory(ok: bool)
    | Open(ok: bool)
    | Tear(torn: Contents)
    | Write(ok: bool)
    | Rename(ok: bool)
    | Adopt
    | Crash
    | Boot(readable: bool)

  /** An event the process is not ready for changes nothing. An update that fails leaves memory as it was. */
  function Next(p: Parsers, m: Machine, e: Event): Machine {
    match m.process
    case Down =>
      if e.Boot? then m.(process := Idle(if e.readable then Load(p, m.disk).override else EMPTY)) else m
    case Idle(memory) =>
      if e.Crash? then m.(process := Down)
      else if e.Begin? && Valid(p, e.patch) then
        m.(process := Updating(memory, Target(memory, e.patch, e.reset), Merged))
      else m
    case Updating(memory, goal, stage) =>
      var failed := m.(process := Idle(memory));
      var reached := (stage: Stage) => Updating(memory, goal, stage);
      match e
      case Crash => m.(process := Down)
      case Remove(ok) =>
        if stage != Merged || goal != EMPTY then m
        else if ok then Machine(m.disk.(file := None), reached(FileReplaced)) else failed
      case MakeDirectory(ok) =>
        if stage != Merged || goal == EMPTY then m
        else if ok then m.(process := reached(DirectoryMade)) else failed
      case Open(ok) =>
        if stage != DirectoryMade then m
        else if ok then Machine(m.disk.(tmp := Some(Garbled)), reached(TmpOpen)) else failed
      case Tear(torn) =>
        if stage != TmpOpen then m else m.(disk := m.disk.(tmp := Some(torn)))
      case Write(ok) =>
        if stage != TmpOpen then m
        else if ok then Machine(m.disk.(tmp := Some(Json(goal))), reached(TmpWritten)) else failed
      case Rename(ok) =>
        if stage != TmpWritten then m
        else if ok then Machine(Disk(m.disk.tmp, None), reached(FileReplaced)) else failed
      case Adopt =>
        if stage != FileReplaced then m else m.(process := Idle(goal))
      case _ => m
  }

  function Run(p: Parsers, m: Machine, events: seq<Event>): Machine {
    if events == [] then m else Next(p, Run(p, m, events[..|events| - 1]), events[|events| - 1])
  }

  /** What holds of a machine whatever its boots could read: overrides are valid, and an update is as far as its stage says. */
  ghost predicate Sound(p: Parsers, m: Machine) {
    match m.process
    case Down => true
    case Idle(memory) => Valid(p, memory)
    case Updating(memory, goal, stage) =>
      && Valid(p, memory) && Valid(p, goal)
      && (stage.FileReplaced? ==> m.disk.file == FileOf(goal))
      && (stage.DirectoryMade? || stage.TmpOpen? || stage.TmpWritten? ==> goal != EMPTY)
      && (stage.TmpWritten? ==> m.disk.tmp == Some(Json(goal)))
  }

  /** Memory and file agree, up to the point where an update has replaced the one but not yet the other. */
  ghost predicate InSync(p: Parsers, m: Machine) {
    && Sound(p, m)
    && match m.process
       case Down => true
       case Idle(memory) => Load(p, m.disk).override == memory
       case Updating(memory, _, stage) => stage.FileReplaced? || Load(p, m.disk).override == memory
  }

  /** Nothing was read although something is stored. */
  predicate Misses(p: Parsers, m: Machine, e: Event) {
    m.process.Down? && e.Boot? && !e.readable && Load(p, m.disk).override != EMPTY
  }

  predicate HasReplaced(process: Process) {
    process.Updating? && process.stage.FileReplaced?
  }

  /** The process goes on, and the event does not put a new file in place. */
  predicate Continues(p: Parsers, m: Machine, e: Event) {
    !e.Crash? && (HasReplaced(Next(p, m, e).process) ==> HasReplaced(m.process))
  }

  lemma NextSound(p: Parsers, m: Machine, e: Event)
    requires Sound(p, m)
    ensures Sound(p, Next(p, m, e))
  {
    if m.process.Idle? && e.Begin? && Valid(p, e.patch) {
      MergeValid(p, if e.reset then EMPTY else m.process.memory, e.patch);
    }
  }

  /** From agreement, the one event that ends it is a boot that misses what is stored. */
  lemma NextInSyncIff(p: Parsers, m: Machine, e: Event)
    requires InSync(p, m)
    ensures InSync(p, Next(p, m, e)) <==> !Misses(p, m, e)
  {
    NextSound(p, m, e);
  }

  /** What is out of agreement stays so until the process crashes or an update replaces the file; its memory was never filled. */
  lemma NextOutOfSync(p: Parsers, m: Machine, e: Event)
    requires Sound(p, m) && !InSync(p, m)
    ensures InSync(p, Next(p, m, e)) <==> !Continues(p, m, e)
  {
    NextSound(p, m, e);
  }

  predicate MissesAt(p: Parsers, m: Machine, events: seq<Event>, k: nat)
    requires k < |events|
  {
    Misses(p, Run(p, m, events[..k]), events[k])
  }

  predicate ContinuesAt(p: Parsers, m: Machine, events: seq<Event>, k: nat)
    requires k < |events|
  {
    Continues(p, Run(p, m, events[..k]), events[k])
  }

  /** The k-th event is a boot that missed what is stored, and since then the process has gone on without replacing the file. */
  ghost predicate DetachedSince(p: Parsers, m: Machine, events: seq<Event>, k: int) {
    0 <= k < |events| && MissesAt(p, m, events, k) && forall j :: k < j < |events| ==> ContinuesAt(p, m, events, j)
  }

  /** The last boot of the run could not read a stored override, and no update has replaced the file since. */
  ghost predicate Detached(p: Parsers, m: Machine, events: seq<Event>) {
    exists k :: DetachedSince(p, m, events, k)
  }

  lemma AtInPrefix(p: Parsers, m: Machine, events: seq<Event>, n: nat, k: nat)
    requires k < n <= |events|
    ensures MissesAt(p, m, events[..n], k) == MissesAt(p, m, events, k)
    ensures ContinuesAt(p, m, events[..n], k) == ContinuesAt(p, m, events, k)
  {
    assert events[..n][..k] == events[..k] && events[..n][k] == events[k];
  }

  lemma SinceOneMore(p: Parsers, m: Machine, events: seq<Event>, k: nat)
    requires k < |events| - 1
    ensures var n := |events| - 1;
            DetachedSince(p, m, events, k) <==> DetachedSince(p, m, events[..n], k) && ContinuesAt(p, m, events, n)
  {
    var n := |events| - 1;
    forall j | 0 <= j < n
      ensures MissesAt(p, m, events[..n], j) == MissesAt(p, m, events, j)
      ensures ContinuesAt(p, m, events[..n], j) == ContinuesAt(p, m, events, j)
    {
      AtInPrefix(p, m, events, n, j);
    }
  }

  lemma DetachedSplits(p: Parsers, m: Machine, events: seq<Event>)
    requires events != []
    ensures var n := |events| - 1;
            Detached(p, m, events) <==>
            MissesAt(p, m, events, n) || (Detached(p, m, events[..n]) && ContinuesAt(p, m, events, n))
  {
    var n := |events| - 1;
    forall k | 0 <= k < n
      ensures DetachedSince(p, m, events, k) <==> DetachedSince(p, m, events[..n], k) && ContinuesAt(p, m, events, n)
    {
      SinceOneMore(p, m, events, k);
    }
    assert DetachedSince(p, m, events, n) <==> MissesAt(p, m, events, n);
  }

  lemma {:induction false} StaysSound(p: Parsers, m: Machine, events: seq<Event>)
    requires Sound(p, m)
    ensures Sound(p, Run(p, m, events))
  {
    if events != [] {
      StaysSound(p, m, events[..|events| - 1]);
      NextSound(p, Run(p, m, events[..|events| - 1]), events[|events| - 1]);
    }
  }

  /**
   However updates, failures, crashes and boots follow one another, memory and file agree exactly
   unless the last boot could not read a stored override and no update has replaced the file since.
   */
  lemma {:induction false} InSyncIffNotDetached(p: Parsers, m: Machine, events: seq<Event>)
    requires InSync(p, m)
    ensures InSync(p, Run(p, m, events)) <==> !Detached(p, m, events)
  {
    if events != [] {
      var n := |events| - 1;
      var before := Run(p, m, events[..n]);
      InSyncIffNotDetached(p, m, events[..n]);
      StaysSound(p, m, events[..n]);
      DetachedSplits(p, m, events);
      if InSync(p, before) {
        NextInSyncIff(p, before, events[n]);
      } else {
        NextOutOfSync(p, before, events[n]);
      }
    }
  }

  /** So when every boot can read the file, an idle process always holds a valid override, the one the file decodes to. */
  lemma AlwaysInSync(p: Parsers, m: Machine, events: seq<Event>)
    requires InSync(p, m)
    requires forall i :: 0 <= i < |events| && events[i].Boot? ==> events[i].readable
    ensures InSync(p, Run(p, m, events))
  {
    InSyncIffNotDetached(p, m, events);
  }

  /** A process out of agreement holds no override at all. */
  predicate Blank(process: Process) {
    match process
    case Down => false
    case Idle(memory) => memory == EMPTY
    case Updating(memory, _, _) => memory == EMPTY
  }

  lemma MissingIsBlank(p: Parsers, m: Machine, e: Event)
    requires Misses(p, m, e)
    ensures Blank(Next(p, m, e).process)
  {
  }

  lemma BlankStays(p: Parsers, m: Machine, e: Event)
    requires Blank(m.process) && !HasReplaced(m.process) && Continues(p, m, e)
    ensures Blank(Next(p, m, e).process)
  {
  }

  lemma NextOutOfSyncIsBlank(p: Parsers, m: Machine, e: Event)
    requires Sound(p, m) && (InSync(p, m) || Blank(m.process))
    ensures InSync(p, Next(p, m, e)) || Blank(Next(p, m, e).process)
  {
    if InSync(p, m) {
      NextInSyncIff(p, m, e);
      if Misses(p, m, e) {
        MissingIsBlank(p, m, e);
      }
    } else {
      NextOutOfSync(p, m, e);
      if Continues(p, m, e) {
        BlankStays(p, m, e);
      }
    }
  }

  lemma {:induction false} OutOfSyncIsBlank(p: Parsers, m: Machine, events: seq<Event>)
    requires InSync(p, m)
    ensures InSync(p, Run(p, m, events)) || Blank(Run(p, m, events).process)
  {
    if events != [] {
      var n := |events| - 1;
      OutOfSyncIsBlank(p, m, events[..n]);
      StaysSound(p, m, events[..n]);
      NextOutOfSyncIsBlank(p, Run(p, m, events[..n]), events[n]);
    }
  }

  /** Before or after one particular update, with nothing in between. */
  ghost predicate OldOrNew(p: Parsers, before: Override, after: Override, m: Machine) {
    && Sound(p, m)
    && Load(p, m.disk).override in {before, after}
    && (m.process.Updating? ==> m.process.memory == before && m.process.goal == after)
  }

  lemma NextOldOrNew(p: Parsers, before: Override, after: Override, m: Machine, e: Event)
    requires OldOrNew(p, before, after, m) && !e.Begin?
    ensures OldOrNew(p, before, after, Next(p, m, e))
  {
    NextSound(p, m, e);
  }

  lemma {:induction false} StaysOldOrNew(p: Parsers, before: Override, after: Override, m: Machine, events: seq<Event>)
    requires OldOrNew(p, before, after, m)
    requires forall i :: 0 <= i < |events| ==> !events[i].Begin?
    ensures OldOrNew(p, before, after, Run(p, m, events))
  {
    if events != [] {
      var init := events[..|events| - 1];
      StaysOldOrNew(p, before, after, m, init);
      NextOldOrNew(p, before, after, Run(p, m, init), events[|events| - 1]);
    }
  }

  /**
   From a process in sync, an update that is cut short anywhere (by an error, or by any number of
   crashes and boots) leaves a readable file with the override from before the update or the one it
   aimed for, never a mixture. The process, once it is idle again, holds exactly what the file holds,
   unless the last boot could not read it: then it holds nothing.
   */
  lemma UpdateIsAtomic(p: Parsers, m: Machine, patch: Override, reset: bool, events: seq<Event>)
    requires m.process.Idle? && InSync(p, m) && !Load(p, m.disk).failed
    requires forall i :: 0 <= i < |events| ==> !events[i].Begin?
    ensures var begun := Next(p, m, Begin(patch, reset));
            var end := Run(p, begun, events);
            && !Load(p, end.disk).failed
            && Load(p, end.disk).override in {m.process.memory, Target(m.process.memory, patch, reset)}
            && (end.process.Idle? ==>
                  end.process.memory == if Detached(p, begun, events) then EMPTY else Load(p, end.disk).override)
  {
    var begun := Next(p, m, Begin(patch, reset));
    NextInSyncIff(p, m, Begin(patch, reset));
    StaysOldOrNew(p, m.process.memory, Target(m.process.memory, patch, reset), begun, events);
    StaysReadable(p, begun, events);
    InSyncIffNotDetached(p, begun, events);
    OutOfSyncIsBlank(p, begun, events);
  }

  lemma NextReadable(p: Parsers, m: Machine, e: Event)
    requires Sound(p, m) && !Load(p, m.disk).failed
    ensures !Load(p, Next(p, m, e).disk).failed
  {
  }

  lemma {:induction false} StaysReadable(p: Parsers, m: Machine, events: seq<Event>)
    requires Sound(p, m) && !Load(p, m.disk).failed
    ensures !Load(p, Run(p, m, events).disk).failed
  {
    if events != [] {
      var init := events[..|events| - 1];
      StaysSound(p, m, init);
      StaysReadable(p, m, init);
      NextReadable(p, Run(p, m, init), events[|events| - 1]);
    }
  }

  /** A crash and a boot that reads the file bring back what an idle process holds exactly when it was not detached from the file. */
  lemma ReturnedUpdateIsDurable(p: Parsers, m: Machine, events: seq<Event>)
    requires InSync(p, m) && Run(p, m, events).process.Idle?
    ensures Run(p, m, events + [Crash] + [Boot(true)]).process == Run(p, m, events).process <==> !Detached(p, m, events)
  {
    InSyncIffNotDetached(p, m, events);
    StaysSound(p, m, events);
    RunOne(p, m, events, Crash);
    RunOne(p, m, events + [Crash], Boot(true));
  }

  lemma RunOne(p: Parsers, m: Machine, events: seq<Event>, e: Event)
    ensures Run(p, m, events + [e]) == Next(p, Run(p, m, events), e)
  {
    assert (events + [e])[..|events|] == events;
  }

  /** The system calls of an update that meets no error, and its commit to memory. */
  function Undisturbed(removes: bool): seq<Event> {
    if removes then [Remove(true)] + [Adopt]
    else [MakeDirectory(true)] + [Open(true)] + [Write(true)] + [Rename(true)] + [Adopt]
  }

  lemma UndisturbedCallsReachGoal(p: Parsers, m: Machine)
    requires m.process.Updating? && m.process.stage == Merged
    ensures var goal := m.process.goal;
            Run(p, m, Undisturbed(goal == EMPTY)) ==
            Machine(Disk(FileOf(goal), if goal == EMPTY then m.disk.tmp else None), Idle(goal))
  {
    if m.process.goal == EMPTY {
      RunOne(p, m, [Remove(true)], Adopt);
      assert [Remove(true)][..0] == [];
    } else {
      var made := [MakeDirectory(true)];
      assert made[..0] == [];
      RunOne(p, m, made, Open(true));
      RunOne(p, m, made + [Open(true)], Write(true));
      RunOne(p, m, made + [Open(true)] + [Write(true)], Rename(true));
      RunOne(p, m, made + [Open(true)] + [Write(true)] + [Rename(true)], Adopt);
    }
  }

  /** An update that meets no error and no crash reaches its target, in memory and on disk. */
  lemma UndisturbedUpdateReachesTarget(p: Parsers, m: Machine, patch: Override, reset: bool)
    requires m.process.Idle? && Valid(p, m.process.memory) && Valid(p, patch)
    ensures var goal := Target(m.process.memory, patch, reset);
            var end := Run(p, Next(p, m, Begin(patch, reset)), Undisturbed(goal == EMPTY));
            && end.process == Idle(goal)
            && end.disk.file == FileOf(goal)
            && Load(p, end.disk) == Loaded(goal, false)
  {
    MergeValid(p, if reset then EMPTY else m.process.memory, patch);
    UndisturbedCallsReachGoal(p, Next(p, m, Begin(patch, reset)));
  }

  // ----- After a boot that could not read the file -----

  /** The patch names every field that the override sets. */
  predicate Names(patch: Override, o: Override) {
    && (o.enabled.Some? ==> patch.enabled.Some?)
    && (o.pollInterval.Some? ==> patch.pollInterval.Some?)
    && (o.cooldown.Some? ==> patch.cooldown.Some?)
    && (o.webhookUrl.Some? ==> patch.webhookUrl.Some?)
    && (o.webhookFormat.Some? ==> patch.webhookFormat.Some?)
    && (o.errorRowsRatio.Some? ==> patch.errorRowsRatio.Some?)
    && (o.errorRowsMinTotal.Some? ==> patch.errorRowsMinTotal.Some?)
    && (o.maxOffsetLag.Some? ==> patch.maxOffsetLag.Some?)
    && (o.maxJournalLag.Some? ==> patch.maxJournalLag.Some?)
  }

  lemma TargetFromNothing(o: Override, patch: Override, reset: bool)
    ensures Target(EMPTY, patch, reset) == patch
    ensures Target(o, patch, reset) == patch <==> reset || Names(patch, o)
  {
  }

  /**
   A boot that cannot read a stored override leaves a process that disagrees with the file, and the
   next update puts the patch alone in its place. What was stored is lost exactly when that update is
   no reset and leaves out a field that was set.
   */
  lemma MissedOverrideIsLost(p: Parsers, m: Machine, patch: Override, reset: bool)
    requires m.process.Down? && Load(p, m.disk).override != EMPTY && Valid(p, patch)
    ensures var missed, read := Next(p, m, Boot(false)), Next(p, m, Boot(true));
            var calls := Undisturbed(patch == EMPTY);
            var updated := Run(p, Next(p, missed, Begin(patch, reset)), calls);
            var intended := Target(read.process.memory, patch, reset);
            && missed.process == Idle(EMPTY) && !InSync(p, missed)
            && updated.process == Idle(patch) && updated.disk.file == FileOf(patch)
            && (updated.disk.file == FileOf(intended) <==> reset || Names(patch, read.process.memory))
  {
    var missed := Next(p, m, Boot(false));
    var stored := Load(p, m.disk).override;
    TargetFromNothing(stored, patch, reset);
    UndisturbedUpdateReachesTarget(p, missed, patch, reset);
    SameFileSameOverride(patch, Target(stored, patch, reset));
  }

  lemma SameFileSameOverride(a: Override, b: Override)
    ensures FileOf(a) == FileOf(b) <==> a == b
  {
  }
}
