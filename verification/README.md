# StarLens backend, modelled and proved in Dafny

StarLens watches a StarRocks cluster. Its Go backend polls the cluster, evaluates alert rules, suppresses
repeats, delivers notifications, lets an operator retune all of that at run time, shows a dashboard, and runs
ad-hoc statements from a worksheet. This project models the parts of that backend that have state, loops or
arithmetic, and proves what an operator relies on.

| module | models | main results |
|---|---|---|
| AlertManager | the manager object: cooldown map, bounded history, permanent channels and one webhook | each critical section as a function of the whole state |
| AlertDelivery | any interleaving of critical sections and single sends | exactly-once, in-order delivery to the channels of the snapshot |
| AlertCooldown | what the cooldown decides over whole runs | locality per key, spacing, optimality of the greedy rule |
| AlertPoller | the evaluation loop and the merge of alert sources | the cadence of a lasting condition; no source hides another |
| AlertSettings, SettingsCrash | defaults, override, file; system calls and crashes | exactly when memory and file agree; updates are atomic on disk; what a boot that cannot read the file loses |
| AlertConfig | storing an update and pushing it into live components | live components always run the layered configuration |
| QuerySession, ResultCursor | pooled connections, capped reads | every statement runs where it should; when the pool stays clean, exactly |
| QueryService, Identifier | statement cleaning, first keyword, read-only guard, quoting | when the guard judges the right word, exactly; quoting has an exact inverse |
| TabletLoads, Skew | folding tablet rows, skew against the median | conservation, independence of row and map order, robustness |
| Topology, ClusterAlerts | dashboard verdict and cluster rules | the two agree; quorum intersection; distinct alert keys |
| RoutineLoads, RoutineLoadAlerts | offset lag, the sweep over databases, job rules | order independence; exactly when two jobs share an alert key |
| Outage | cluster rules, routine load rules, loop and cooldown together | a dead node is notified on an exact schedule |
| Labels | the text of a chat notification | the text does not depend on map order |
| Sorting, Totals, AlertFindings, Text, Wrappers | shared vocabulary | sorted arrangements are unique; aggregates forget order |

Objects whose methods update fields are classes with `modifies` clauses, each method proved against a function
of the old state; the protocols that several callers or crashes interleave are step relations over events; and
the laws are lemmas about those functions and runs. Times are integers in nanoseconds.

Where the code is surprising, the model follows the code:

- Cleaning a statement is not idempotent. `CleanTwice` says exactly when it is: no vertical tab or form feed is
  among the white space and semicolons that end the trimmed text. `CleanTwiceDiffers` gives a statement for which it is not.
- A statement that switches the session database and was not scoped to a database leaves its connection in the
  pool with the new database. `CleanThroughoutIffNothingStrays` says that this is the only way the pool gets dirty.
- Routine load alert keys join database and job name with a dot. `LoadKeysDistinctIffNoClash` says exactly when
  the keys of one evaluation are distinct; `DottedNamesClash` and `RepeatedNamesClash` show two jobs with one
  key, of which the cooldown silences the second.
- With several live leaders the journal lag is measured against the first that reports a position while the summary
  names the last. `NamedLeaderIsMeasuredIff` says exactly when that shows, and `TwoLeadersDisagree` gives rows for which it
  does. The order of the rows plays no part in it: `BuildsAlikeIffRowsAreDistinct` says exactly when a topology
  depends on that order.
- The tablet total of the summary adds up every backend and compute node row, although the comment at
  `backend/internal/model/cluster.go:126` speaks of live nodes. `TabletTotalIsLiveIff` says exactly when the two agree.
- After a slash, a star and a slash the code takes a block comment to be closed, while the language looks for the
  closing mark behind the opening one. `SkipsAlikeIff` says exactly when the two skip alike, `GuardJudgesTheStatement`
  that the read-only guard judges the right word where no leading comment begins that way, and
  `OverlapHidesTheStatement` that it judges a word of the comment where one does.
- Two frontends without a name on one host get one id (`backend/internal/service/cluster_service.go:136-141`), and then one
  alert key. `KeysDistinctIffNoSharedId` says exactly
  when cluster alerts have distinct keys.
- A boot that cannot read the override file goes on with the defaults and keeps serving
  (`backend/internal/alert/settings.go:127-129`, `backend/cmd/server/main.go:95-97`). Memory and file then disagree until a
  restart or an update, and that update can overwrite settings nobody has seen. `InSyncIffNotDetached` says exactly when
  they disagree, and `MissedOverrideIsLost` exactly when something is lost.
- A patch with a duration that does not parse would hide the layer below; `OverlayMergeNeedsValidPatch` says
  exactly when, and validation keeps such patches out.

## Model

| member | source | states |
|---|---|---|
| AlertManager.Manager.Dispatch | backend/internal/alert/manager.go:81-95 | an alert is let through exactly when its key is new or the cooldown has passed; then its time is remembered, it heads the bounded history, and every channel gets it once, webhook last; otherwise nothing changes and nothing is sent |
| AlertManager.Manager.Test | backend/internal/alert/manager.go:100-124 | a test alert goes to every channel regardless of the cooldown, is remembered, touches no cooldown, and the report is that of what each channel answered |
| AlertManager.ResultsNameChannels | backend/internal/alert/manager.go:114-122 | the report of a test has an entry for every channel name and no other |
| AlertManager.ResultsTellLast | backend/internal/alert/manager.go:114-122 | each entry is the error, or "ok", of the last channel that carries the name |
| AlertManager.Manager.Recent | backend/internal/alert/manager.go:127-133 | hands out the history that RecentIsNewestOfLog describes, without changing anything |
| AlertManager.Manager.Deliver | backend/internal/alert/manager.go:143-150 | the sends are one per channel, in order, whatever each channel answers |
| AlertManager.ChannelsAre | backend/internal/alert/manager.go:68-75 | a snapshot holds every permanent channel in order of registration, then the webhook if there is one, and nothing else |
| AlertManager.Manager.Remember | backend/internal/alert/manager.go:136-141 | the newest alert comes first and the history never exceeds its capacity |
| AlertManager.Manager.SetWebhook | backend/internal/alert/manager.go:54-58 | replaces or removes the webhook and leaves cooldowns, history and permanent channels alone |
| AlertDelivery.ExactlyOnceDelivery | backend/internal/alert/manager.go:68-95 | in every interleaving, what an operation has sent followed by what it has still to send is exactly one delivery per channel of its snapshot, in order; a suppressed alert owes nothing, and failing sends or later webhook changes make no difference |
| AlertDelivery.EveryChannelOnce | backend/internal/alert/manager.go:45-95 | from the events alone: in every interleaving an operation that is let through sends its stamped alert once to every channel there from the start or registered before it, in order, then to the webhook last installed before it; any other operation sends nothing |
| AlertDelivery.SettingsFollowEvents | backend/internal/alert/manager.go:45-65 | permanent channels, webhook and cooldown are what the registrations and the last changes before made them, whatever else is going on |
| AlertDelivery.EverySendIsOwed | backend/internal/alert/manager.go:81-95 | nothing reaches a channel unless an operation of the run was let through and owed it |
| AlertDelivery.NoSendBeforeItsOperation | backend/internal/alert/manager.go:81-95 | no send happens in the name of an operation before its critical section |
| AlertDelivery.SendConserves | backend/internal/alert/manager.go:143-150 | a step moves at most one delivery from outstanding to sent, for its owner, and changes no other caller's balance |
| AlertDelivery.SendsDrain | backend/internal/alert/manager.go:143-150 | a caller left to itself gets through its channels one by one without affecting the manager |
| AlertDelivery.UninterruptedDispatch | backend/internal/alert/manager.go:81-95 | a dispatch nobody interleaves with, at any point of any run, ends with exactly its deliveries sent and none outstanding: the step relation refines the sequential method |
| AlertDelivery.RecentIsNewestOfLog | backend/internal/alert/manager.go:126-141 | over any run the history is the newest hundred of the accepted and test alerts, in lock order |
| AlertDelivery.RecentShifts | backend/internal/alert/manager.go:136-141 | an alert let through comes first, the older ones follow as they were, the hundredth is the last to stay, and nothing else touches the history |
| AlertCooldown.AcceptedIffCooledDown | backend/internal/alert/manager.go:81-95 | with any cooldown changes and tests in between, a dispatch is let through if and only if every earlier accepted dispatch of its key is at least the cooldown in force away |
| AlertCooldown.WatchIsManager | backend/internal/alert/manager.go:81-95 | what the manager will answer for a key is determined by the cooldown and that key's last firing alone |
| AlertCooldown.DecisionsAreLocal | backend/internal/alert/manager.go:77-95 | dropping all other keys, tests, channel changes and sends from a run leaves a key's decisions as they were |
| AlertCooldown.AnswersAreGreedy | backend/internal/alert/manager.go:83-88 | under a constant cooldown the decisions are the greedy selection of that key's offers |
| AlertCooldown.GreedyStaysAhead | backend/internal/alert/manager.go:83-88 | no spaced selection is larger than the greedy one, nor equally large and ending earlier |
| AlertCooldown.AcceptedIsLargestSpaced | backend/internal/alert/manager.go:81-95 | accepted dispatches of a key are pairwise at least the cooldown apart and no larger such subset of its dispatches exists |
| AlertCooldown.AcceptedPerWindow | backend/internal/alert/manager.go:81-95 | a window of a given length holds at most length / cooldown + 1 accepted dispatches of a key |
| AlertPoller.Poller.Pass | backend/internal/alert/poller.go:47-67 | a tick that is disabled or finds nothing leaves manager and channels as they were, any other dispatches what it found, and the next wait is the interval if positive and thirty seconds if not |
| AlertPoller.Poller.Evaluate | backend/internal/alert/poller.go:69-81 | a failed collection leaves the manager and the channels as they were; a successful one dispatches its alerts in order |
| AlertPoller.DispatchesAt | backend/internal/alert/poller.go:69-81 | what is dispatched is every alert found, each once, in order, at the time of the tick |
| AlertPoller.Poller.Run | backend/internal/alert/poller.go:47-67 | the loop, tick by tick, acts on manager and channels as the run of its operations does |
| AlertPoller.PolledIsRun | backend/internal/alert/poller.go:47-81 | polling ends in the very state in which the interleaving model ends for the same operations |
| AlertPoller.StrideSpans | backend/internal/alert/manager.go:83-88 | the stride is the least positive number of periods that spans the cooldown |
| AlertPoller.GreedyOnGrid | backend/internal/alert/poller.go:47-67 | on an evenly spaced grid the greedy selection is exactly the multiples of the stride |
| AlertPoller.Cadence | backend/internal/alert/poller.go:47-81 | a condition reported on every tick of period P under cooldown C is let through on exactly ticks 0, q, 2q, ... with q = max(1, ceil(C/P)), whatever else the ticks report |
| AlertPoller.CadenceOnTheWire | backend/internal/alert/poller.go:47-81 | what reaches the channels under its key is exactly its alert of each of those ticks, once to every channel, and nothing else |
| AlertPoller.Combine | backend/internal/alert/collect.go:15-38 | fails if and only if there are sources and all of them fail; otherwise yields the alerts of all that succeeded, in source order |
| AlertPoller.NoSourceIsHidden | backend/internal/alert/collect.go:15-38 | every alert of a source that succeeded survives the merge, whatever the other sources do |
| AlertPoller.NothingIsMadeUp | backend/internal/alert/collect.go:15-38 | every combined alert is one some source that succeeded has found |
| AlertSettings.Validate | backend/internal/alert/settings.go:60-103 | no fault is reported if and only if every field present is well formed and in range |
| AlertSettings.RangesAreTight | backend/internal/alert/settings.go:60-103 | field by field, every value in the documented range is accepted and every other is refused |
| AlertSettings.MergeValid | backend/internal/alert/settings.go:208-253 | a valid patch on a valid override stays valid |
| AlertSettings.OverlayMerge | backend/internal/alert/settings.go:144-178 | overlaying a merged override equals overlaying its layers one after the other |
| AlertSettings.OverlayMergeNeedsValidPatch | backend/internal/alert/settings.go:144-178 | without validation that law holds exactly when no unparsable duration of the patch hides an effective one below |
| AlertSettings.Settings.LoadSettings | backend/internal/alert/settings.go:120-141 | always yields usable, valid settings; reports failure exactly for an unreadable, corrupt or invalid file |
| AlertSettings.Settings.Effective | backend/internal/alert/settings.go:144-178 | the effective configuration is the override laid over the defaults, field by field |
| AlertSettings.Settings.Persist | backend/internal/alert/settings.go:257-281 | the file ends as asked or as it was, and at every moment in between is one or the other, switching at most once |
| AlertSettings.Settings.Update | backend/internal/alert/settings.go:208-253 | success stores the target in memory and file, any error changes neither; afterwards the two agree if and only if the update succeeded or they agreed before; every disk state on the way loads as what was stored before or as the target |
| SettingsCrash.InSyncIffNotDetached | backend/internal/alert/settings.go:120-141 | over any sequence of system calls, failures, crashes and boots, memory and file agree if and only if it is not the case that the last boot could not read a stored override and no update has replaced the file since |
| SettingsCrash.AlwaysInSync | backend/internal/alert/settings.go:120-141 | so when every boot can read the file an idle process always holds a valid override equal to what the file decodes to |
| SettingsCrash.NextInSyncIff | backend/internal/alert/settings.go:120-141 | from agreement, the one step that ends it is a boot that cannot read a stored override |
| SettingsCrash.UpdateIsAtomic | backend/internal/alert/settings.go:208-281 | an update cut short anywhere, by errors or by any crashes and boots, leaves a readable file with exactly the override from before or the one aimed for; an idle process holds what the file holds, or nothing exactly when its last boot could not read a stored override |
| SettingsCrash.ReturnedUpdateIsDurable | backend/internal/alert/settings.go:208-281 | a crash and a boot that reads the file bring back what an idle process holds if and only if it was not detached from the file by a boot that could not read it |
| SettingsCrash.MissedOverrideIsLost | backend/cmd/server/main.go:80-97 | after a boot that could not read a stored override the next update leaves the patch alone in the file, which is what it would leave there had the boot read it if and only if that update is a reset or its patch names every field that was set |
| SettingsCrash.UndisturbedUpdateReachesTarget | backend/internal/alert/settings.go:208-281 | without errors or crashes an update does reach its target, in memory and on disk |
| AlertConfig.NewWebhookNotifier | backend/internal/alert/notifier_webhook.go:33-46 | succeeds exactly for a non-empty URL and a known format |
| AlertConfig.AlertConfigHandler.Apply | backend/cmd/server/main.go:99-117 | fails exactly for a webhook of unknown format, having then changed only the cooldown; otherwise all components run on the configuration, and alert history and cooldown times are kept |
| AlertConfig.AlertConfigHandler.Put | backend/internal/api/alertconfig.go:102-133 | refuses when not editable, rejects exactly invalid patches and never fails to apply what it stored; success makes every field the patch names live with the value of the patch, leaves the others as they were or after a reset at their defaults, and anything else changes nothing; memory and file agree if and only if it succeeded or they agreed before |
| AlertConfig.AlertConfigHandler.Boot | backend/cmd/server/main.go:80-120 | with a known default format the server starts whatever the file holds and whether or not it can be read, its components run on the effective configuration, and memory agrees with the file unless a stored override could not be read |
| AlertConfig.LiveIsLayered | backend/cmd/server/main.go:99-120 | after any run of requests the effective configuration is the defaults overlaid by the successful patches since the last successful reset, the stored override validates, and live cooldown, webhook and thresholds are exactly those |
| AlertConfig.LiveIsLastNamed | backend/internal/api/alertconfig.go:102-133 | after any run of requests every live field, webhook URL and format, poll interval and enablement is that of the last successful request since the last successful reset that names it, and otherwise the default, or without a reset what the run started from |
| AlertConfig.LastNamedIs | backend/internal/alert/settings.go:208-253 | which request decides a field: the last successful one that names it or resets |
| AlertConfig.ServeTakesEffect | backend/internal/alert/settings.go:144-178 | a request that succeeds changes exactly the fields it names, and on a reset puts the others back to their defaults; one that does not changes nothing |
| AlertConfig.LiveStaysInRange | backend/internal/alert/settings.go:60-103 | no run of requests brings a live cooldown, ratio, threshold, poll interval or webhook out of range unless the default is |
| Identifier.ReadQuoted | backend/internal/repository/routineload_repository.go:117-119 | reading back a quoted name gives the name and consumes exactly the quoted text, for every name and any suffix not starting with a backtick |
| Identifier.ReadIffQuoted | backend/internal/repository/routineload_repository.go:117-119 | the reader accepts exactly quoted names followed by such a suffix: the two are inverse in both directions |
| Identifier.QuoteInjective | backend/internal/repository/routineload_repository.go:117-119 | two names never quote alike, even with different text behind them |
| Identifier.EscapeIs | backend/internal/repository/routineload_repository.go:117-119 | every character stands for itself and a backtick is written twice, wherever it stands |
| ResultCursor.CollectResultSet | backend/internal/repository/query_repository.go:102-150 | yields the first rows up to the cap, each as sent and in order, reads at most one beyond it, and fails exactly when something goes wrong within those reads; a result that is not truncated is the whole feed and the feed ended without an error; a break that is seen is an error |
| ResultCursor.FailsWithinIff | backend/internal/repository/query_repository.go:102-150 | what can go wrong within those reads: no columns, an unreadable row among those kept, or a break where the feed is read to its end |
| ResultCursor.CappedIs | backend/internal/repository/query_repository.go:124-145 | truncated says exactly whether there is more than the cap, and the rows are those of the feed |
| QuerySession.QueryRepository.Execute | backend/internal/repository/query_repository.go:60-82 | the statement runs once in the requested or default database, or not at all if that cannot be selected; it then yields the capped result, columns and truncation included, or fails exactly when the statement does or something goes wrong within the reads; the connection goes back clean or poisoned except exactly when an unscoped statement switched it, and it is poisoned exactly when a scoped request could not select the default again |
| QuerySession.QueryRepository.RestoreDatabase | backend/internal/repository/query_repository.go:86-100 | afterwards the connection is on the default database or is poisoned; it is poisoned exactly when there is no default or selecting it failed |
| QuerySession.PoolStaysClean | backend/internal/repository/query_repository.go:60-100 | over every interleaving of requests and failures in which nothing strays, every statement ran in its wanted database and every idle connection has the default one |
| QuerySession.ScopedRequestIsServed | backend/internal/repository/query_repository.go:60-100 | a request for another database that meets no error runs once, there, and gives back a connection on the default |
| QuerySession.UnscopedRequestIsServed | backend/internal/repository/query_repository.go:60-82 | one for the default or no database runs once on the default and gives its connection back as the statement left it |
| QuerySession.StrayingLeaks | backend/internal/repository/query_repository.go:60-82 | each statement that strays does leave a connection with another database in the pool |
| QuerySession.CleanThroughoutIffNothingStrays | backend/internal/repository/query_repository.go:60-100 | a run keeps the pool clean at every step if and only if no unscoped statement in it moves its session |
| QueryService.FirstKeyword | backend/internal/service/query_service.go:155-183 | terminates, and returns in lower case the word behind all leading white space and comments |
| QueryService.TriviaIsInvisible | backend/internal/service/query_service.go:155-183 | prepending any mix of white space, ended line comments and block comments up to their first end mark leaves the first keyword unchanged |
| QueryService.EachTriviaIsInvisible | backend/internal/service/query_service.go:155-174 | a white space character, a whole line comment and a block comment up to its end mark each leave the keyword of what follows unchanged |
| QueryService.SkippedIsTrivia | backend/internal/service/query_service.go:155-183 | conversely only such trivia is skipped, and all of it |
| QueryService.GuardSeesTheWord | backend/internal/service/query_service.go:84-89 | under the read-only policy a statement is let through exactly when the word behind its trivia, as the code reads trivia, is on the list, whatever its case |
| QueryService.SkipsAlikeIff | backend/internal/service/query_service.go:155-174 | the code skips as the language does, where a block comment closes behind its opening mark, if and only if no leading comment overlaps its own opening or what the code skips behind the first that does ends where the comment lets it end |
| QueryService.GuardJudgesTheStatement | backend/internal/service/query_service.go:84-89 | for every statement none of whose leading block comments overlaps its own opening, the guard decides by the first word the language reads |
| QueryService.StoppingInsideMisreads | backend/internal/service/query_service.go:155-174 | whenever the code comes to a stop inside a comment that overlaps its own opening, the two readings differ |
| QueryService.SkipsMeet | backend/internal/service/query_service.go:155-174 | where the inside of that comment is trivia to the code, the two meet behind it and agree exactly when they do from there on |
| QueryService.OverlapHidesTheStatement | backend/internal/service/query_service.go:155-174 | such a comment around a word makes the code read that word and the language the statement that follows, for every word and every statement |
| QueryService.ReadOnlyPoolStaysClean | backend/internal/service/query_service.go:84-89 | under the read-only policy, where only statements whose first word is off the list switch the session database and no comment overlaps its opening, nothing strays: every statement runs in its wanted database and the pool stays clean |
| QueryService.Execute | backend/internal/service/query_service.go:78-129 | the repository is reached only by a non-empty statement the policy permits; a refused one leaves the connection untouched; a permitted one runs once in its wanted database, yields the first rows up to the clamp, is truncated exactly when there are more, and fails exactly when something goes wrong on the way |
| QueryService.NewPolicy | backend/internal/service/query_service.go:61-66 | the row cap in force is always positive |
| QueryService.CleanIsCore | backend/internal/service/query_service.go:149-151 | cleaning takes only white space and semicolons from around the statement, and none is left to take |
| QueryService.CleanTwice | backend/internal/service/query_service.go:149-151 | cleaning is idempotent on a statement if and only if no vertical tab or form feed is among what ends it |
| QueryService.CleanTwiceDiffers | backend/internal/service/query_service.go:149-151 | there is a statement that cleaning changes twice |
| TabletLoads.ApplyTabletLoads | backend/internal/service/storage_service.go:221-277 | totals count every tablet, each backend's entry is the sum over its own tablets, backends are strictly sorted by id and are exactly those that hold a tablet |
| TabletLoads.Accumulate | backend/internal/service/storage_service.go:229-262 | a row updates the accumulator of its own backend in place and no other |
| TabletLoads.ComputeSkew | backend/internal/service/storage_service.go:282-301 | skew between backends is defined from two backends on, and either level makes a table skewed |
| TabletLoads.SkewedIffEitherLevelIs | backend/internal/service/storage_service.go:282-301 | a table is skewed exactly when, of two or more backends or two or more tablets, one exceeds one and a half times a positive median in rows or in bytes |
| TabletLoads.NothingLost | backend/internal/service/storage_service.go:221-277 | tablet, rowset, segment, row and byte totals equal the sums over backends and over tablets |
| TabletLoads.OneTablet | backend/internal/service/storage_service.go:229-266 | what one tablet amounts to, column by column, missing ones counting as zero |
| TabletLoads.Conserved | backend/internal/service/storage_service.go:221-277 | any quantity reported per backend adds up to its total over the tablets |
| TabletLoads.BackendsAreUnique | backend/internal/service/storage_service.go:268-274 | the rows admit one list of backends, whatever order the map is iterated in |
| TabletLoads.SummaryForgetsOrder | backend/internal/service/storage_service.go:221-301 | the whole result, skew included, is the same for every order of the rows and of the map |
| Skew.MedianHalves | backend/internal/service/storage_service.go:320-334 | at least half of the values lie on each side of the truncated median, for any sign |
| Skew.MedianIsMiddle | backend/internal/service/storage_service.go:320-329 | the median is the middle one of any sorted arrangement, or for an even number the mean of the two middle ones cut off towards zero |
| Skew.MedianOfNegated | backend/internal/service/storage_service.go:320-329 | negating the values negates the median |
| Skew.RatioIsLargestOverMedian | backend/internal/service/storage_service.go:320-334 | there is a ratio exactly when the median is positive, and it is the largest value over the median |
| Skew.SkewedIffOneStandsOut | backend/internal/service/storage_service.go:304-316 | skew is reported exactly when, of two or more members, one exceeds one and a half times a positive median in rows or in bytes |
| Skew.RatioForgetsOrder | backend/internal/service/storage_service.go:320-334 | median and ratio do not depend on the order of the values |
| Skew.RatioAtLeastOne | backend/internal/model/storage.go:89-98 | a defined ratio is at least one, and exactly one for equal values |
| Skew.OutlierRaisesRatio | backend/internal/service/storage_service.go:320-334 | among three or more values, raising a largest one leaves the median unchanged and strictly raises a defined ratio |
| Skew.SkewedStaysSkewed | backend/internal/service/storage_service.go:304-316 | a skewed measure stays skewed when its largest member grows, in rows or in bytes |
| Topology.Summarize | backend/internal/service/cluster_service.go:262-333 | the loops compute the verdict that the rows below pin down count by count |
| Topology.QuorumIsStrictMajority | backend/internal/service/cluster_service.go:316-320 | a healthy quorum is exactly a strict majority of the electable frontends, an empty set included |
| Topology.OneMoreFrontend | backend/internal/service/cluster_service.go:272-297 | one more frontend, wherever it stands, counts among the electable only as leader or follower and among the living only if it is alive; any other leaves the quorum as it was |
| Topology.OneMoreBackend | backend/internal/service/cluster_service.go:298-305 | one more backend adds to the backends, to the living ones if it is alive, and its tablets, and to no other count |
| Topology.OneMoreComputeNode | backend/internal/service/cluster_service.go:307-314 | the same for a compute node |
| Topology.NothingToSumUp | backend/internal/service/cluster_service.go:262-270 | with no nodes every count is zero and the cluster is not healthy |
| Topology.OnlyLiveLeadersAreNamed | backend/internal/service/cluster_service.go:293-295 | a frontend that is dead or no leader never affects the leader named, and a live leader that comes last is named |
| Topology.ObserversDoNotVote | backend/internal/service/cluster_service.go:272-297 | so frontends with the same electable ones have the same quorum |
| Topology.QuorumsIntersect | backend/internal/service/cluster_service.go:316-320 | two quorum-healthy snapshots of the same electable frontends, whose ids differ, share one that is alive in both |
| Topology.ApplyJournalLag | backend/internal/service/cluster_service.go:396-418 | fills in the lags in place and changes nothing else |
| Topology.LagTrailsTheLeader | backend/internal/service/cluster_service.go:396-418 | every reported lag is how far the frontend trails the first live leader that reports a position, never negative, and that leader's is zero |
| Topology.NoLeaderNoLag | backend/internal/service/cluster_service.go:396-418 | no lag is set when no live leader reports a journal position |
| Topology.ShownLagIsOfLiveReplicas | backend/internal/service/cluster_service.go:285-292 | the lag shown is the largest among frontends that are alive and no leader, and is present exactly when one of them has a lag |
| Topology.ComparisonsAreOrders | backend/internal/service/cluster_service.go:337-368 | both row comparisons are strict weak orders |
| Topology.ShownInOrder | backend/internal/service/cluster_service.go:337-368 | frontends are shown leader first, then followers, observers and others, each by name, and backends by host and id |
| Topology.BuildsAlikeIffRowsAreDistinct | backend/internal/service/cluster_service.go:74-100 | the whole topology, lags and summary included and with any number of live leaders, is independent of the order of the rows if and only if no two different frontends share rank and name and no two different backends or compute nodes share host and id |
| Topology.SummarizesAlikeIffOneLeaderHost | backend/internal/service/cluster_service.go:262-333 | summing up alone is independent of the order of the nodes if and only if all live leaders run on one host |
| Topology.NamedLeaderIsMeasuredIff | backend/internal/service/cluster_service.go:396-418 | the lags shown are the distances behind the leader the summary names if and only if the first live leader that reports a position reports the same one as the last live leader |
| Topology.TwoLeadersDisagree | backend/internal/service/cluster_service.go:293-297 | two live leaders at different positions: the built topology names the one later by name while lags are measured against the other, in whatever order the rows arrive |
| Topology.TabletTotalIsLiveIff | backend/internal/service/cluster_service.go:298-314 | the tablet total is that of the live nodes if and only if the tablets of the dead ones add up to zero |
| Topology.BuildTopology | backend/internal/service/cluster_service.go:74-100 | the summary shown is the one of exactly the lists shown, after sorting and filling in lags |
| ClusterAlerts.ClusterService.EvaluateAlerts | backend/internal/service/cluster_alerts.go:63-120 | the alerts are the findings about leadership, identity and capacity, then one per dead node, then the lagging frontends |
| ClusterAlerts.RulesMeanWhatTheySay | backend/internal/service/cluster_alerts.go:63-120 | each cluster-wide rule fires exactly when the nodes are in the state it names: no live leader, or the last one without a known host; a leader but no strict majority of electable frontends alive; two frontends naming different clusters; everything registered to compute on dead |
| ClusterAlerts.NodeDownAlerts | backend/internal/service/cluster_alerts.go:124-158 | the nested loops report the dead nodes of the three lists in list order |
| ClusterAlerts.JournalLagAlerts | backend/internal/service/cluster_alerts.go:163-194 | nothing when the rule is off, otherwise one alert per live frontend over the threshold that is not a leader |
| ClusterAlerts.HealthyIffNothingFires | backend/internal/service/cluster_service.go:322-331 | with the lag rule off, the dashboard says healthy if and only if no rule fires and at least one backend or compute node is registered |
| ClusterAlerts.DownAlertsAreTheDead | backend/internal/service/cluster_alerts.go:124-158 | the number of node-down alerts is total minus alive over all three lists of the summary |
| ClusterAlerts.LagFiresIffMaxIsOver | backend/internal/service/cluster_alerts.go:163-194 | some lag alert fires exactly when the threshold is positive and the largest lag of the summary is present and exceeds it |
| ClusterAlerts.KeysDistinctIffNoSharedId | backend/internal/service/cluster_alerts.go:63-194 | no two alerts of one evaluation share a key, across all rules, if and only if no two dead nodes share an id and no two frontends over the lag threshold do |
| ClusterAlerts.KeysAreDistinct | backend/internal/service/cluster_service.go:141 | ids that are unique in each list and prefixed with the kind of node are enough for that |
| ClusterAlerts.FindingsAreProper | backend/internal/service/cluster_alerts.go:63-194 | every finding is under one of six rules, keyed by it alone or with a node, and critical unless it is about a lagging journal |
| ClusterAlerts.FindingsNameTheirNodes | backend/internal/service/cluster_alerts.go:124-194 | each dead node and each frontend over the lag threshold is reported with its own name, host and role |
| Outage.FoundIffDead | backend/internal/service/cluster_alerts.go:124-158 | an evaluation reports a finding under the key of an id if and only if a registered node with that id is dead |
| Outage.ReportedPerDeadNode | backend/cmd/server/main.go:124-127 | the combined sources report the key of an id exactly as often as nodes with that id are dead, whether or not routine loads can be read |
| Outage.ReportedOnceIffDead | backend/cmd/server/main.go:124-127 | where no two dead nodes share an id that is once if the node is dead and never otherwise |
| Outage.OutageIsNotifiedOnSchedule | backend/internal/alert/poller.go:47-81 | a node that stays dead, the only dead one with its id, is notified to every channel once on exactly every q-th tick, whatever else fails meanwhile |
| Outage.SurveyKeysDistinctIff | backend/cmd/server/main.go:124-127 | across cluster and routine loads the alert keys of one evaluation are distinct if and only if no two dead nodes share an id, no two frontends over the lag threshold do, and no two jobs clash |
| RoutineLoads.ComputeOffsetLag | backend/internal/service/routineload_service.go:142-165 | nothing if and only if no numeric partition is shared, and otherwise the sum of positive gaps over the shared ones, whatever order the map is iterated in |
| RoutineLoads.LagOfColumns | backend/internal/service/routineload_service.go:142-191 | on the columns: a lag exists exactly when a partition has a number in both, is never less than what one trails by, and is zero exactly when none trails |
| RoutineLoads.GapSumTake | backend/internal/service/routineload_service.go:149-160 | the sum does not depend on which partition is taken first |
| RoutineLoads.ProgressLowersLag | backend/internal/service/routineload_service.go:142-165 | consuming d more of a shared partition lowers the lag by exactly d or what that partition lacks, whichever is less |
| RoutineLoads.NoLagIffCaughtUp | backend/internal/service/routineload_service.go:142-165 | the lag is zero exactly when no shared partition trails |
| RoutineLoads.JobsViaShow | backend/internal/repository/routineload_repository.go:79-112 | fails exactly when the databases cannot be listed, or some were asked and all of those failed; otherwise yields the jobs of the readable ones and names the others |
| RoutineLoads.NoDatabaseIsLost | backend/internal/repository/routineload_repository.go:85-112 | every database asked shows up, by its jobs or by a warning |
| RoutineLoads.NothingElseIsSwept | backend/internal/repository/routineload_repository.go:85-112 | every row and every warning is of a database that was asked |
| RoutineLoads.SystemDatabasesAreSkipped | backend/internal/repository/routineload_repository.go:85-93 | a system database, in any letter case, or one without a name makes no difference |
| RoutineLoads.SweepAppend | backend/internal/repository/routineload_repository.go:85-112 | rows and warnings come database by database in the order listed |
| RoutineLoadAlerts.ErrorRatioAlert | backend/internal/service/routineload_alerts.go:89-109 | fires exactly when the rule is on, enough rows were seen and the failed ones exceed the threshold's share of them; never without rows |
| RoutineLoadAlerts.RoutineLoadService.EvaluateAlerts | backend/internal/service/routineload_alerts.go:47-87 | the alerts are the findings of each job in job order |
| RoutineLoadAlerts.JobFindingsTell | backend/internal/service/routineload_alerts.go:47-149 | a job is reported under each rule exactly when it breaks it, as critical only if cancelled, with its own database, name, table and state |
| RoutineLoadAlerts.LoadKeysDistinctIffNoClash | backend/internal/service/routineload_alerts.go:47-126 | alert keys of one evaluation are distinct if and only if no two jobs with the same subject break the same rule |
| RoutineLoadAlerts.SubjectNamesOneJob | backend/internal/service/routineload_alerts.go:52 | without a dot in database names a subject names one job |
| RoutineLoadAlerts.DottedNamesClash | backend/internal/service/routineload_alerts.go:52-63 | with one, two paused jobs can share a key, and the cooldown then silences the second |
| RoutineLoadAlerts.RepeatedNamesClash | backend/internal/service/routineload_alerts.go:52-75 | so do two jobs of one name that are both cancelled or both paused |
| RoutineLoadAlerts.Summarize | backend/internal/service/routineload_service.go:193-216 | the loop computes the counts whose meaning the next two rows state |
| RoutineLoadAlerts.SummaryOneMore | backend/internal/service/routineload_service.go:193-216 | what one more job adds, state by state |
| RoutineLoadAlerts.UnhealthyAreAlerted | backend/internal/service/routineload_service.go:193-216 | the unhealthy jobs of the dashboard are the paused plus the cancelled ones, and exactly as many state alerts fire |
| RoutineLoadAlerts.LoadSummaryForgetsOrder | backend/internal/service/routineload_service.go:193-216 | the summary does not depend on the order of the jobs |
| RoutineLoadAlerts.UnhealthyFirst | backend/internal/service/routineload_service.go:220-247 | sorting puts every job that needs attention before every one that does not |
| RoutineLoadAlerts.JobsInOrder | backend/internal/service/routineload_service.go:220-247 | jobs are shown cancelled first, then paused, waiting and running, stopped ones last, each by database and name |
| Labels.SortedKeys | backend/internal/alert/notifier_webhook.go:114-126 | the keys of the label set, each once, in strictly ascending order |
| Labels.SortedKeysAreUnique | backend/internal/alert/notifier_webhook.go:114-126 | that list is determined by the label set, not by map order |
| Labels.SlackText | backend/internal/alert/notifier_webhook.go:92-112 | the text lists the labels in that order, in the line format of the heading, message and label pairs |
| Labels.TextBegins | backend/internal/alert/notifier_webhook.go:92-95 | the text begins with the severity in capitals and the title |
| Labels.PairStands | backend/internal/alert/notifier_webhook.go:99-110 | every label stands in the list as its key, an equals sign and its value |
| Labels.SlackTextIsDetermined | backend/internal/alert/notifier_webhook.go:92-112 | the same alert always reads the same |
| Sorting.InsertionSort | backend/internal/alert/notifier_webhook.go:119-124 | sorts in place: the array becomes the sorted arrangement of what it held |
| Sorting.StableSortSorts | backend/internal/alert/notifier_webhook.go:119-124 | sorting rearranges and puts in order under any strict weak order |
| Sorting.StringLessIs | backend/internal/service/storage_service.go:272-274 | texts are ordered by their first difference, a text before its continuations |
| Sorting.SortsAlikeIffNoTies | backend/internal/service/storage_service.go:320-334 | the sorted result does not depend on the original arrangement if and only if no two different elements are tied |
| Sorting.StableSortIsStable | backend/internal/service/cluster_service.go:337-355 | sorting keeps tied elements in the order they came in |

## Left out

- The frontend, HTTP routing, JSON encoding and error envelopes: an override decodes to exactly what was encoded, by construction of the file contents.
- The MySQL driver, DSN building, deadlines, column types and the classification of driver errors: a statement is its text, the feed it delivers and the database it switches to.
- Webhook requests and log output: a channel is a name, and every attempt to send is recorded whatever its outcome.
- Duration and URL parsing are parameters of the settings; text is ASCII and strings compare character by character.
- Mapping of rows to nodes, tablets and jobs: it starts from mapped values.
- Reading the environment: only that a default webhook format is one of the two known ones.
- Overlapping configuration requests: storing and applying are two steps, so the law about live components is for requests one after another.
- Loss of power and a file system that reorders writes: crashes are of the process, and a rename is atomic.
- Floating-point rounding and 64-bit overflow: ratios are exact and counters unbounded.
- Titles and messages of alerts, masking of webhook URLs, the list of overridden fields, listing of databases, and the database statistics: single lookups and sums that add nothing harder.
- AlertPoller.Poller.Run: takes the ticks up to the cancellation of its context as a list, each tick holding what that pass reads; timers are exact and evaluation takes no time.
- AlertCooldown.AcceptedIffCooledDown: assumes that later dispatches of a key carry later times, as the wall clock does when it is not set back.
- QueryService.StatementKeyword: the language's reading differs from the code's in where a block comment ends; other comment forms of a server dialect are not part of this model.
- QuerySession.PoolStaysClean: assumes that selecting a database that fails leaves the session as it was.
- The code of the library sorts: they are modelled by what a stable sort computes, which is also what the one unstable sort computes, since it sorts integers.
