# A verified model of attestel's alerting, research and feed services

This project models the parts of attestel that keep state over time or transform untrusted data, and
proves what holds of them over every input, every run and every interleaving.

* **Re-synthesis queue and stale markers** (`alerts/thesis_monitor.go`). `ResynthQueue` says what one
  enqueue, lease or completion does; `ResynthRuns` proves rate, exclusion, fencing and conservation over
  whole runs by any number of workers. `ThesisMarkers` says what one evaluation and one sweep do.
  `MarkerRuns` takes an evaluation apart into the two reads and the write between which the lock is
  released, so that sweeps overlap, and `MarkerCounts` follows under how many baselines a due date is
  counted; `MarkerScenarios` holds concrete runs. `ThesisMonitor.Monitor` is the object with the
  source's loops, `MonitorFacts` says field by field what leases, reports and enqueues do in its runs, and
  `MonitorRuns` projects runs of the whole monitor, lock by lock, onto the two machines
  and shows that a tick is such a run.
* **Alert evaluator, store and consumer** (`alerts/eval.go`, `alerts/store.go`, `alerts/rules.go`,
  `gateway/changes.go`). `AlertStore.Store` is the write-through object with its rollbacks, `AlertTrace`
  holds the edge theorem for one rule, `AlertEvaluator` the pass over all rules, `AlertDedupe` the runs in
  which passes and rule edits interleave and the dedupe key that collapses their events,
  `AlertCollisions` when an edited rule's next firing can be lost to that, and `AlertProjection` carries the edge theorem to those runs. `AlertScenarios` holds concrete runs.
* **Feed, splice, ranking and run registry** (`gateway/feeds.go`, `gateway/explore.go`,
  `gateway/analystjobs.go`): `FeedPages`, `EnvelopeSplice`, `ExploreRanking` with its rules mention by
  mention in `ExploreFacts`, `AnalystRuns` for runners that
  report in time and `AnalystHistory` for every run.
* **Artifact assembly** (`bridge/`): `StageScanner` over the JSON grammar of `JsonText`,
  `Citations.SourceTable`, the stage loop in `ResearchRun`, which runs are taken in `ResearchFacts`, and `ClaimKeys` and `Claims` for counting and
  merging.
* **Key derivation** (`auth/crypto.go`): `Pbkdf2`, against section 5.2 of RFC 8018.

`Common`, `Text` and `Sorting` hold what the others share. Methods carry the loops of the source and are
proved equal to specification functions; the lemmas are about those functions. Hashes, base64, URL
normalisation, the JSON decoder, the freshness curve and the case mapping are parameters, with
injectivity or a left inverse assumed only where a row says so. Clocks, lease tokens, new ids and the outcome of every
durable write are arguments, so the theorems hold for all of them.

## What the code does that its comments do not say

* The marker lock is released between the reads and the write of an evaluation, two sweeps can run at once,
  and a sweep reads its bars before it looks at any thesis. In every run, a publication puts a baseline back
  exactly when an acknowledgement, a rebase or another publication since its look left a newer one, or when
  it rebases on an older bar with no write in between (`LatePublishRegresses`). An acknowledgement puts it
  back exactly when the reading it is about is older than the baseline. Baselines never fall exactly when
  none of these happens (`BaselineNeverDecreases`).
* A marker's baseline is at most its as-of time throughout exactly when no verdict is published whose bar is
  older than the baseline it was compared with (`NeverAheadIff`). `OlderBarPutsBaselineBack` is a run of two
  sweeps in which one is; none is while looks come in bar order.
* While no publication is behind its marker, published markers count a date under one baseline. The first
  one that is behind counts a date again under another baseline exactly when a report under a newer
  baseline has counted it (`PublishRecountsIff`), and `OverlapReportsTwice` is a run in which it does.
* A count that stays silent because its sentence was already said can be made again. A later look counts
  the date again under another baseline exactly when the count was silent and the baseline has moved, but
  not to the date (`CountedAgainIff`). This needs an edited list of dates (`SilentCountCanRepeat`): with
  an unchanged list, distinct sentences and keys, and no write between the two reads that moves the
  baseline, silent counts obey the rule too (`UnchangedListCountsOnce`).
* Firings of one rule can share a dedupe key after its cooldown was edited. With the rule's last firing at
  `last`, an edit to cooldown `d` lets the next firing share the key of an earlier one exactly when some
  firing so far lies in a bucket numbered `q` such that bucket `q` under `d` starts after `last` and is not
  over (`NextFiringCanCollideIff`). For a rule that fired once this takes a raised cooldown (`EditCanCollideIff`, `RaisingExposesIff`), but with a longer
  history also a lowering edit can do it (`LoweredCooldownLosesAFiring`), and a firing is then lost
  (`EditedRuleLosesAFiring`). `CollapseKeepsEveryFiring` covers every rule whose cooldown never rose.
* The feed never returns a row twice, but it can return an id twice. A row that changed after it was shown
  is shown again exactly when its new time and id lie behind the last row shown (`ShownAgainIff`).
* A begin attaches exactly when a runner of its id was started, none of the id has reported since the newest
  one was, and that one is not overdue (`BeginAttachesIff`). So an id never has two runners at once exactly
  when no begin of it comes while a live runner is overdue (`SoleRunnerIff`). Once there are two, a report
  of either ends the newest one's record if that is still in flight (`LateReportEndsNewest`), and the next
  begin starts another however young the newest is (`ThirdRunnerStartsEarly`).
* The merge of mandatory blockers keeps them all exactly when there are at most forty
  (`MergeBlockers`), although its comment says they are never the ones dropped.

## Model

| member | source | states |
|---|---|---|
| ResynthQueue.LeaseMovesOn | alerts/thesis_monitor.go:505-543 | after a lease, no job up to the granted one is leasable at that instant, and the jobs behind it are untouched |
| ResynthQueue.DrainServesInOrder | alerts/thesis_monitor.go:505-543 | repeated calls at one instant serve distinct jobs, in queue order, each leasable when the first call was made |
| ResynthQueue.DrainServesEveryone | alerts/thesis_monitor.go:505-543 | when the calls run dry they have served every job that was leasable |
| ResynthQueue.DrainIsBounded | alerts/thesis_monitor.go:505-543 | one instant yields at most as many grants as the queue is long |
| ThesisMonitor.Monitor.LeaseResynth | alerts/thesis_monitor.go:505-543 | grants the first leasable job, fails every exhausted one before it, touches nothing behind it, and answers none exactly when nothing is leasable |
| ThesisMonitor.Monitor.CompleteResynth | alerts/thesis_monitor.go:549-599 | accepts exactly the holder's completion or a replay of a recorded success; moves one job, and the marker only if it still shows the job's reading |
| ThesisMonitor.Monitor.Enqueue | alerts/thesis_monitor.go:474-500 | adds the job of a stale marker unless its id is queued; the oldest job gives way and is counted |
| ThesisMonitor.Monitor.Stats | alerts/thesis_monitor.go:835-853 | each of the four counts is the number of places in the queue whose job is in that state; they add up to the queue, and the depth is queued plus processing |
| MonitorFacts.LeasableInFields | alerts/thesis_monitor.go:505-530 | a failed job is due a day after it failed; a queued one, or one whose lease ran out, while it was started fewer than three times |
| MonitorFacts.LeaseInFields | alerts/thesis_monitor.go:505-543 | the first due job is started under the token for ten minutes, jobs before it that ran out of attempts fail, and nothing else moves |
| MonitorFacts.ReportInFields | alerts/thesis_monitor.go:549-599 | a report that names a job and its current lease ends it as done, queued again, or failed after the third attempt; any other report changes nothing and is accepted only as a replay |
| MonitorFacts.ReportMovesMarkerIff | alerts/thesis_monitor.go:549-583 | in every run of the monitor, a report changes the marker map exactly when it completes a job whose thesis has a stale marker that still shows the reading the job was made for, and then it changes that marker only |
| MonitorFacts.ReportOfNoJobMovesNothing | alerts/thesis_monitor.go:549-583 | a report of an id that is not queued changes no marker |
| MonitorFacts.JobIdsAgreeIff | alerts/thesis_monitor.go:474-482 | with an injective hash, two markers make jobs of one id exactly when thesis, last-reported word and reading all agree |
| MonitorFacts.EnqueueInFields | alerts/thesis_monitor.go:474-500 | an accepted job carries its marker's thesis, ticker, reason and reading, and goes last; beyond 5000 the oldest gives way |
| MonitorFacts.SweepQueuesWhatFires | alerts/thesis_monitor.go:223-285 | while the queue has room, a sweep leaves a job for every thesis it found stale, with that thesis and that bar's reading, however many share a ticker, a sentence and a bar |
| MonitorFacts.RunIsNamed | alerts/thesis_monitor.go:474-482 | in every run of the monitor, each job's id is made of its own thesis, a word and its own reading |
| MonitorFacts.NewReadingIsQueued | alerts/thesis_monitor.go:474-500 | in every run, a published verdict at a reading its thesis has no job for is queued, also while a job of an earlier reading is there or completed |
| ResynthRuns.QueueInvariant | alerts/thesis_monitor.go:474-599 | in every reachable state ids are distinct, the length is at most 5000, accepted enqueues equal length plus dropped, and each state fixes the attempts, token, deadline and timestamps of its jobs |
| ResynthRuns.StepAt | alerts/thesis_monitor.go:505-599 | whatever a step does to the queue, each job in it makes one of four moves, and the log records exactly the grants and resolutions |
| ResynthRuns.RateInvariant | alerts/thesis_monitor.go:505-599 | in every run the attempt counter counts the grants of the current cycle, and cycles are a cool-down apart |
| ResynthRuns.LeaseRateBound | alerts/thesis_monitor.go:505-599 | any four successive leases of one job span at least 24 hours, under any interleaving of workers |
| ResynthRuns.LeaseInvariant | alerts/thesis_monitor.go:518-565 | in every run the fields of a job agree with the log of grants and resolutions |
| ResynthRuns.MutualExclusion | alerts/thesis_monitor.go:518-540 | a job is leased again while an earlier lease is unresolved only at or after that lease's deadline |
| ResynthRuns.OnlyTheLatestGrantCompletes | alerts/thesis_monitor.go:549-565 | every accepted completion carries the token of the job's latest grant, and nothing happened to the job in between |
| ResynthRuns.SupersededTokenIsRejected | alerts/thesis_monitor.go:549-565 | the token of an earlier grant completes nothing, under any id, and changes nothing |
| ResynthRuns.ForeignTokenIsRejected | alerts/thesis_monitor.go:549-559 | an empty token, or one the job does not hold, is refused and changes nothing |
| ResynthRuns.CompletedIsAbsorbing | alerts/thesis_monitor.go:560-565 | a completed job keeps every field while it stays in the queue |
| ResynthRuns.ReplayIsIdempotent | alerts/thesis_monitor.go:560-562 | repeating the completion of a completed job succeeds, whatever outcome it names, and changes nothing |
| ResynthRuns.RunGrows | alerts/thesis_monitor.go:491-498 | dropped jobs stay dropped and serials are never handed out again |
| ResynthRuns.SpentTokenIsRejected | alerts/thesis_monitor.go:505-599 | a token whose lease was returned for a retry, or retired with its job, completes nothing in any later state, under any id |
| ResynthRuns.RetryAndRetirementSpend | alerts/thesis_monitor.go:523-592 | an accepted retry and a scan past an exhausted job both take the token off the job |
| ThesisMarkers.CountDue | alerts/thesis_monitor.go:430-438 | counts the due dates in the half-open window |
| ThesisMarkers.FiresExactlyWhen | alerts/thesis_monitor.go:362-423 | a thesis is published as stale exactly when it has an unreviewed baseline, moved by a twentieth of it or had a date come due, and that condition was not already reported; the baseline is kept |
| ThesisMarkers.RebaseInFields | alerts/thesis_monitor.go:362-374 | a thesis without a usable baseline gets one at the bar, and nothing is reported |
| ThesisMarkers.ReasonInFields | alerts/thesis_monitor.go:376-407 | what is reported is the move of the close, whatever dates are due, or else the number of dates due |
| ThesisMarkers.FireInFields | alerts/thesis_monitor.go:409-423 | every field of a published marker, from the thesis, the old baseline and the bar |
| ThesisMarkers.VerdictInFields | alerts/thesis_monitor.go:266-271 | publishing writes the thesis's own marker and no other |
| ThesisMarkers.DueSinceCounts | alerts/thesis_monitor.go:430-438 | the count is the number of positions whose date lies after the baseline and not after the bar |
| ThesisMarkers.MoveThreshold | alerts/thesis_monitor.go:376-389 | the percentage test is the comparison of the move with a twentieth of the baseline, for prices of either sign |
| ThesisMarkers.CompletedJobRearms | alerts/thesis_monitor.go:474-599 | from firing to completion: the completed job moves the baseline to the reading it was about, the same reading stays quiet, and the next far move from that price fires again |
| ThesisMarkers.RepeatedSweepIsSilent | alerts/thesis_monitor.go:223-285 | sweeping the same theses over the same bars again, at any later time, changes no marker and adds no job |
| ThesisMarkers.SweepSettles | alerts/thesis_monitor.go:257-279 | after a sweep every thesis it examined is settled, also when later theses in the sweep changed the map |
| ThesisMarkers.ExaminedIsTheFront | alerts/thesis_monitor.go:232-235 | a tick examines the first two hundred theses |
| ThesisMarkers.TallyInFields | alerts/thesis_monitor.go:257-270 | a sweep counts as examined the theses that have a bar, and as marked those it finds newly stale |
| ThesisMarkers.TallyCountsJobs | alerts/thesis_monitor.go:272-275 | and as enqueued the jobs that came into the queue, those included that pushed an older one out |
| ThesisMarkers.TallyIsDated | alerts/thesis_monitor.go:262-265 | a sweep is dated by the first bar it examined |
| ThesisMonitor.Monitor.ReadBars | alerts/thesis_monitor.go:240-255 | one bar per distinct non-empty ticker that answered, and no others |
| ThesisMonitor.Monitor.Examine | alerts/thesis_monitor.go:257-279 | one thesis of the sweep, uninterrupted: the marker, the job and the counters |
| ThesisMonitor.Monitor.Tick | alerts/thesis_monitor.go:223-285 | an uninterrupted tick is the sweep over at most 200 theses with its tally, and nothing when the journal is unreachable |
| MarkerRuns.UndisturbedEvaluation | alerts/thesis_monitor.go:362-423 | the two reads and the write, with nothing in between, publish the verdict of the whole evaluation |
| MarkerRuns.LookInFields | alerts/thesis_monitor.go:362-408 | a look takes down the marker as it is then, and establishes a baseline, stops, or goes on to compare |
| MarkerRuns.CheckInFields | alerts/thesis_monitor.go:409-423 | the second read asks only whether the marker as it is by then last reported this condition; the verdict keeps the baseline seen at the look |
| MarkerRuns.PublishInFields | alerts/thesis_monitor.go:266-271 | the write replaces whatever marker the thesis has by then, and no other |
| MarkerRuns.RunTraced | alerts/thesis_monitor.go:266-271 | in every run of overlapping sweeps and completions, markers and evaluations agree with the log of writes |
| MarkerRuns.FiredAfterReview | alerts/thesis_monitor.go:456-468 | the baseline a count was made under never predates the last review its reading knew of |
| MarkerRuns.LatePublishRegresses | alerts/thesis_monitor.go:266-271 | in every run, a publication lowers a baseline exactly when a write since its look left a newer one, or when it rebases on an older bar with no write in between |
| MarkerRuns.StepLowersIff | alerts/thesis_monitor.go:266-271 | in every run, a step lowers a baseline exactly when it publishes an overtaken verdict or one that rebases on an older bar, or acknowledges a reading older than the baseline |
| MarkerRuns.BaselineNeverDecreases | alerts/thesis_monitor.go:362-468 | in every run, a marker's baseline time never decreases exactly when no such step happens |
| MarkerRuns.NeverAheadIff | alerts/thesis_monitor.go:415-421 | in every run, a baseline is at most its marker's as-of time throughout exactly when no verdict is published whose bar is older than the baseline it was compared with |
| MarkerRuns.RunBarsOk | alerts/thesis_monitor.go:362-468 | with looks in bar order, baselines are at most as-of times and those at most the last bar looked at |
| MarkerCounts.CatalystReportedUnderOneBaseline | alerts/thesis_monitor.go:400-438 | while no publication is behind its marker, a due date that published markers counted was counted under one baseline, in whatever order bars are looked at |
| MarkerCounts.PublishRecountsIff | alerts/thesis_monitor.go:266-271 | after a timely run, in whatever order bars are looked at, a publication counts a date again under another baseline exactly when a report under a newer baseline has counted it |
| MarkerCounts.CountedAgainIff | alerts/thesis_monitor.go:400-438 | after a timely run, a look counts a date again under another baseline exactly when the earlier count was silent and the baseline has moved but not to the date |
| MarkerCounts.AckReopensIff | alerts/thesis_monitor.go:572-583 | in every run, an acknowledgement makes a counted date countable under a new baseline exactly when the acknowledged reading is past the old baseline and before the date |
| MarkerCounts.PublishReopensIff | alerts/thesis_monitor.go:365-421 | in every run, a publication, timely or not, makes a counted date countable under another baseline exactly when the bar it rebases on, or the baseline it looked under, is another one and before the date |
| MarkerCounts.SilentIsWithin | alerts/thesis_monitor.go:409-413 | with an unchanged list of dates, a repeated sentence counts nothing behind the reading it was first said about |
| MarkerCounts.UnchangedListCountsOnce | alerts/thesis_monitor.go:400-438 | with an unchanged list of dates and timely steps, every date is counted under one baseline, silent counts included |
| MarkerScenarios.SilentCountCanRepeat | alerts/thesis_monitor.go:400-413 | a legal, timely run in which a silent count of an edited list is repeated under a later baseline |
| MarkerScenarios.OverlapReportsTwice | alerts/thesis_monitor.go:266-271 | a legal run of overlapping sweeps that reports one date under two baselines |
| MarkerScenarios.OlderBarPutsBaselineBack | alerts/thesis_monitor.go:238-271 | a run of overlapping sweeps in which a marker shows a reading older than its baseline and its acknowledgement moves the baseline back |
| MonitorRuns.QueueProjection | alerts/thesis_monitor.go:223-599 | every run of the monitor's locked sections under a clock that does not go back is a legal run of the queue machine |
| MonitorRuns.MarkerProjection | alerts/thesis_monitor.go:223-599 | every run of them, whatever its clock and bars, is a run of the marker machine |
| MonitorRuns.OrderIsProjected | alerts/thesis_monitor.go:223-599 | looks in bar order stay in bar order |
| MonitorRuns.MonitorInvariant | alerts/thesis_monitor.go:223-599 | so the queue, rate, lease and marker invariants hold of overlapping sweeps and worker calls together, and a baseline is ahead of its reading only after a verdict with an older bar was published |
| MonitorRuns.SweepIsARun | alerts/thesis_monitor.go:257-279 | an uninterrupted sweep is the run of its locked sections, from any state |
| MonitorRuns.TickIsARun | alerts/thesis_monitor.go:223-285 | so what a tick leaves behind after any run is a state of a run |
| AlertTrace.HelperSeesEdge | alerts/eval.go:432-448 | on an observed pass the edge helpers report exactly the edges of the observation history |
| AlertRules.EvaluatedInFields | alerts/eval.go:235-449 | for each kind of condition, which readings count, which memory makes one an edge, and what is remembered |
| AlertRules.FiresInFields | alerts/eval.go:78-99 | an active rule fires on an edge as soon as a full cooldown has passed since its last event |
| AlertRules.UpdatedInFields | alerts/eval.go:78-99 | a pass leaves the reading and, when it fired, the time, and nothing else of the rule changes |
| AlertTrace.PassInFields | alerts/eval.go:78-113 | after any passes, one more emits exactly when its write is stored, its reading is an edge against the last stored one, and a cooldown has passed since the last event |
| AlertTrace.EmissionsAreThinnedEdges | alerts/eval.go:59-113 | over any passes, skipped, observed or failed, a rule's events are exactly the durably observed edges thinned greedily by the cooldown |
| AlertTrace.ThinnedIsSpaced | alerts/eval.go:87-92 | the events of a rule are at least a cooldown apart |
| AlertEvaluator.GroupedIsGroups | alerts/eval.go:60-66 | every active rule is in the group of its ticker and in no other |
| AlertEvaluator.PlanGroup | alerts/eval.go:80-98 | the loop over a ticker's group: its updates and events, in order |
| AlertEvaluator.Plan | alerts/eval.go:78-99 | in whatever order tickers are visited, exactly the rules that change are updated and exactly those that fire have one event each |
| AlertEvaluator.EndPass | alerts/eval.go:74-113 | the end of a pass over an earlier snapshot, whatever was done to the store since: exactly the due updates are merged by id, and the events are handed out exactly when the write was not refused |
| AlertEvaluator.EvalAll | alerts/eval.go:59-113 | a pass that nothing interrupts: a refused write changes nothing and emits nothing; otherwise each rule moves as its own reading says and every event is handed out once |
| AlertProjection.EndIsOnePass | alerts/eval.go:74-113 | what the end of a pass does to a rule of the store, and emits for it, is one step of the rule's own trace |
| AlertProjection.RunFollows | alerts/eval.go:59-113 | over every run with other rules created, edited and deleted, also within a pass, a rule's stored fields and emissions are those of its trace |
| AlertProjection.RunEmitsThinnedEdges | alerts/eval.go:59-113 | so the events of an unpatched rule in a run of evaluator and store are exactly its durably observed edges, thinned by the cooldown |
| AlertStore.Store.AddRule | alerts/store.go:183-197 | memory equals disk afterwards, and a failed write leaves no trace |
| AlertStore.Store.ReplaceRule | alerts/store.go:208-229 | the same for an edit; a missing id is not an error |
| AlertStore.Store.DeleteRule | alerts/store.go:236-252 | the same for a deletion; order of the others is kept |
| AlertStore.Store.ApplyEvalUpdates | alerts/store.go:266-289 | the same for a batch of evaluation updates, merged by id |
| AlertStore.Store.MarkEventsRead | alerts/store.go:405-420 | the same for a watermark, restored or removed on failure |
| AlertStore.Store.MarkEventRead | alerts/store.go:428-456 | the same for one read mark, an empty id being a no-op |
| AlertStore.UnmarkRestores | alerts/store.go:443-453 | rolling a read mark back restores the sets exactly, including one made for it |
| AlertStore.FailuresLeaveNoTrace | alerts/store.go:183-289 | for any operations and write failures the store ends where the successful operations alone lead |
| AlertStore.DeleteInFields | alerts/store.go:236-252 | after a stored deletion a rule is there exactly when it was there under another id, and one fewer remains if the id was there |
| AlertStore.DeleteKeepsOrder | alerts/store.go:236-252 | any two survivors keep their order |
| AlertStore.AddInFields | alerts/store.go:183-197 | a stored creation puts the rule last, untriggered and without memory, and leaves the others |
| AlertStore.ReplaceInFields | alerts/store.go:208-229 | a stored edit gives the rule its new body, keeps what the server owns, and leaves the others where they are |
| AlertStore.UpdatesInFields | alerts/store.go:266-289 | a stored batch sets memory and last trigger of the rules it names and nothing else |
| AlertProjection.DeletedRuleIsSilent | alerts/eval.go:59-113 | in every run, a rule deleted before a pass begins emits nothing from that pass or any later one, and never comes back |
| AlertStore.ServerOwnedFields | alerts/store.go:212-220 | no operation moves a rule's owner or creation time, only an evaluation its last trigger, only an edit what the user wrote |
| AlertStore.IdsStayDistinct | alerts/store.go:183-289 | with fresh ids on creation, rule ids stay distinct over any operations |
| AlertStore.CountUnread | alerts/store.go:377-385 | counts the events that are neither behind the watermark nor marked |
| AlertStore.MarkAllClears | alerts/store.go:377-420 | marking everything read brings the count of past events to zero, if it was stored |
| AlertStore.MarkAllReads | alerts/store.go:377-420 | after a stored watermark an event is read exactly when it had happened by then or was marked on its own |
| AlertStore.MarkOneClearsOne | alerts/store.go:377-456 | marking one event takes one off the count if it was unread, and nothing otherwise |
| AlertStore.OtherUsersKeepTheirCount | alerts/store.go:405-456 | no operation touches another user's count |
| AlertDedupe.FiringsAreSpaced | alerts/eval.go:87-92 | two firings of a rule are at least the later cooldown apart under any interleaving with creations, edits and deletions, also within a pass |
| AlertDedupe.KeyTextInjective | alerts/rules.go:208-215 | the hashed text determines rule and bucket, even for ids that contain the separator |
| AlertDedupe.BucketInFields | alerts/rules.go:208-215 | the bucket is the cooldown window the moment lies in, or the moment itself without a cooldown |
| AlertDedupe.SameKeyIff | alerts/rules.go:208-215 | with an injective hash, keys agree exactly when rule and bucket do |
| AlertDedupe.SpacedBucketsDiffer | alerts/rules.go:208-213 | firings a cooldown apart fall in different buckets unless the cooldown was raised |
| AlertCollisions.NextFiringCanCollideIff | alerts/rules.go:208-215 | in every run and for every rule in it, whatever edits it went through, an edit to `d` and a pass can give it an event under the key of an earlier one exactly when the bucket number of one of its firings, read under `d`, starts after the last firing and is not over |
| AlertCollisions.LastTriggerIsLatest | alerts/store.go:212-220 | in every run a rule's last trigger is the time of its latest event |
| AlertCollisions.RefireIsLegal | alerts/eval.go:87-92 | an edit and a pass that finds the condition met make the rule fire exactly when the time has come and the cooldown has passed since its last trigger |
| AlertDedupe.BucketReachedIff | alerts/rules.go:208-213 | a moment a cooldown after `last`, and not before `now`, falls in bucket `q` exactly when that bucket starts after `last` and is not over by `now` |
| AlertDedupe.EditCanCollideIff | alerts/rules.go:208-215 | for a rule that fired once, at `a` under `c`, an edit to `d` allows it exactly when `d * (a / c) > a` |
| AlertDedupe.RaisingExposesIff | alerts/rules.go:208-215 | for a pair of cooldowns some lone firing is exposed so exactly when the second is larger |
| AlertScenarios.LoweredCooldownLosesAFiring | gateway/changes.go:717-722 | a legal run in which a lowering edit makes a firing share the key of one two edits back |
| AlertScenarios.EditedRuleLosesAFiring | gateway/changes.go:717-722 | for every such pair of firings there is a legal run that emits both under one key, of which the change set shows the first only |
| AlertDedupe.VettedFiringsCool | alerts/rules.go:291-296 | while created and edited rules went through validation, which defaults an absent cooldown to an hour, every firing has a cooldown of at least a second |
| AlertRules.VettedInFields | alerts/rules.go:291-296 | a body is refused exactly for a negative cooldown, a missing one becomes an hour, and nothing else changes |
| AlertDedupe.KeysAreDistinct | alerts/rules.go:208-215 | in every run the firings of a rule whose cooldown never rose have distinct keys |
| AlertDedupe.ChangesFromAlertEvents | gateway/changes.go:706-735 | the loop keeps each relevant row whose key no earlier relevant row had |
| AlertDedupe.KeptInFields | gateway/changes.go:706-735 | a row is kept exactly when it is of the thesis, after the moment asked for, and no earlier such row has its key; a row without a key is always kept |
| AlertDedupe.CollapseKeepsEveryFiring | gateway/changes.go:706-722 | the collapse drops no firing of such a rule, whatever other rows are interleaved |
| FeedPages.DedupeById | gateway/feeds.go:700-708 | keeps the first row of each non-empty id |
| FeedPages.UniqueHasUniqueIds | gateway/feeds.go:700-708 | the rows left have pairwise distinct ids and all come from the input |
| FeedPages.UniqueKeepsEveryId | gateway/feeds.go:700-708 | no non-empty id is lost |
| FeedPages.UniqueKeepsFirst | gateway/feeds.go:700-708 | of rows with one id exactly the first is kept, and the kept rows come in their order |
| FeedPages.BuiltSnapshotIsOrdered | gateway/feeds.go:605-610 | what is paged through is in strict (publishedAt, id) order and a rearrangement of the unique rows |
| FeedPages.CursorRoundTrip | gateway/feeds.go:921-938 | a cursor decodes to the time and id it was made from, also for ids with separators, and is never empty |
| FeedPages.DecodedInFields | gateway/feeds.go:921-938 | a cursor is read exactly when its text has a separator with a 64-bit number before it |
| FeedPages.PaginateFeed | gateway/feeds.go:895-919 | a page is the next rows after the cursor; an undecodable cursor starts over |
| FeedPages.PageInFields | gateway/feeds.go:895-919 | a page is the next rows up to the limit, and is called truncated and carries a cursor exactly when rows remain |
| FeedPages.SkipShown | gateway/feeds.go:899-905 | the scan stops at the first row behind the cursor |
| FeedPages.PagerIsHonest | gateway/feeds.go:895-919 | every page is in order, beyond its mark, misses nothing before its end, and hands out a cursor to the rest |
| FeedPages.WalkNeverRepeats | gateway/feeds.go:895-919 | following nextCursor never returns a row twice, however the corpus changes between requests |
| FeedPages.WalkIsComplete | gateway/feeds.go:895-919 | a walk that ends has returned every row all its snapshots held |
| FeedPages.WalkReturnsExactlyOnce | gateway/feeds.go:895-919 | and each of them exactly once |
| FeedPages.FixedCorpusWalk | gateway/feeds.go:895-919 | on a fixed corpus the walk ends within the number of pages and its pages concatenate to the whole list |
| FeedPages.StableIdsNeverRepeat | gateway/feeds.go:895-919 | while publication times are stable, no id is returned twice |
| FeedPages.ReturnedIff | gateway/feeds.go:895-919 | an ended walk from a mark returns a row that stays exactly when it lies behind the mark |
| FeedPages.ShownAgainIff | gateway/feeds.go:895-919 | a row that changed after an earlier page showed it is shown again exactly when its new time and id lie behind the last row shown |
| FeedPages.RedatedRowIsShownAgain | gateway/feeds.go:895-919 | so a row that keeps its time or gets a later one is not shown again, and one moved before the last row shown is |
| FeedPages.OneIdOnTwoPages | gateway/feeds.go:895-919 | the shortest such walk |
| StageScanner.ExtractJSONObject | bridge/stage.go:114-143 | returns the shortest span from the first brace whose string-aware depth is back at zero, and errs exactly when there is none |
| StageScanner.PlainTextIsSkipped | bridge/stage.go:119-141 | outside strings only quotes and braces count |
| StageScanner.StringIsSkipped | bridge/stage.go:119-141 | inside a string everything up to the closing quote is skipped, braces and escaped quotes included |
| StageScanner.BracesCount | bridge/stage.go:119-141 | a brace outside strings opens or closes one level, and a quote opens a string |
| StageScanner.ValueIsNeutral | bridge/stage.go:119-141 | scanning any printed JSON value ends in the state it began in and never dips below |
| StageScanner.PrintedObjectIsTheSpan | bridge/stage.go:114-143 | for every printed object, brace-free prefix and suffix, the span is exactly the object |
| StageScanner.ExtractionReturnsWhatWasPrinted | bridge/stage.go:114-143 | so extraction returns what was printed |
| EnvelopeSplice.AppendKey | gateway/feeds.go:995-1012 | a key is appended unless the upstream object has it |
| EnvelopeSplice.WithOwnedKeys | gateway/feeds.go:983-1041 | probes, builds the owned keys, decides the comma and splices as specified; any body that is not an object passes through untouched |
| EnvelopeSplice.SplicePreservesObject | gateway/feeds.go:983-1041 | for every text that is an object, the result is the object with the absent owned keys first and the upstream members after them, in order, the empty object included |
| EnvelopeSplice.BandInFields | gateway/feeds.go:455-469 | the word added is high from 0.70 on, medium from 0.40 on, and low below |
| EnvelopeSplice.NoBandInFields | gateway/feeds.go:1016-1025 | without an event, with a band already there, or without an importance, no band is added |
| EnvelopeSplice.SpliceLeaves | gateway/feeds.go:983-1029 | a body that is no object, cannot be read or lacks nothing goes out unchanged |
| EnvelopeSplice.SpliceKeepsSuffix | gateway/feeds.go:1031-1040 | everything behind the upstream brace is kept as a suffix, character for character |
| Citations.SourceIdInjective | bridge/client.go:439-459 | different positions get different ids |
| Citations.TableIsOneToOne | bridge/stage.go:163-227 | in a table, ids and URLs are pairwise distinct |
| Citations.RegisteredAllKeepsTable | bridge/stage.go:198-227 | the list and the map stay in step, at most forty entries, and no declaration alters an earlier entry |
| Citations.DeclarationsAreListed | bridge/stage.go:198-227 | a list of declarations is taken exactly when every URL normalises, each page is first declared with a title and a date, and there are at most forty pages; the table then lists each page once, in the order and the words of its first declaration |
| Citations.SourceTable.Add | bridge/stage.go:198-227 | a known page keeps its first id and description; a refused source changes nothing |
| Citations.SourceTable.RegisterSources | bridge/stage.go:322-329 | declares a stage's sources in order, failing at the first refused one |
| Citations.SourceTable.ConvertFindings | bridge/stage.go:262-319 | converts all findings or none |
| Citations.SourceTable.ConvertFinding | bridge/stage.go:267-316 | the checks on statement, provenance and basis, then the citations |
| Citations.SourceTable.ConvertContradictions | bridge/run.go:247-265 | converts all contradictions or none |
| Citations.ConvertedAreWellCited | bridge/stage.go:262-319 | converted findings cite declared sources only, none twice, and at least one when sourced or calculated |
| Citations.ConvertedIff | bridge/stage.go:267-316 | a finding is taken exactly when its statement fits, its provenance is known, it has a basis exactly when calculated, it cites something when sourced or calculated, and cites declared pages only |
| Citations.ConvertedBoxTells | bridge/stage.go:262-319 | findings come one for one, in order, with their own trimmed words and provenance and the ids of the pages they cite, each once, in the order first cited |
| Citations.ConvertedContradictionsTell | bridge/run.go:247-265 | contradictions come one for one, with their trimmed and clipped words and an id for each URL, in order |
| Citations.CitationsResolve | bridge/stage.go:232-242 | an entry's id is among a finding's ids exactly when one of its URLs normalises to that entry's page |
| Citations.ContradictionsAreDeclared | bridge/run.go:247-265 | contradictions cite declared sources only |
| ResearchRun.StagesAreClosed | bridge/run.go:129-231 | after any stages all citations resolve, and no later stage alters an earlier entry or an earlier stage's findings |
| ResearchRun.SortedTable | bridge/stage.go:394-395 | the final sort only rearranges the table, and puts it in strict order of id |
| ResearchRun.AssembledIsResolved | bridge/stage.go:394-443 | in the assembled artifact every citation resolves and ids s1..sN are distinct, one per page, N at most forty |
| ResearchRun.StagesTell | bridge/run.go:129-231 | after any stages, box k tells the findings of stage k, and risk findings, contradictions and veto tell the last risk stage, positions, conclusion and priority the last chair |
| ResearchRun.ArtifactTells | bridge/stage.go:344-443 | stages assemble exactly when a chair gave a priority and a conclusion and no veto lacks a reason, and the artifact then reports the stages field by field |
| ResearchFacts.StagesFitIff | bridge/run.go:129-231 | stages are taken exactly when each one's declarations and statements are in order and it cites only pages that it or an earlier stage declares |
| ResearchFacts.UploadsIff | bridge/run.go:129-245 | a run uploads exactly when every stage arrived and fits, the chair concluded, and the artifact meets the coverage floor and the gate |
| ResearchFacts.CountedClaims | bridge/stage.go:460-492 | the claims counted are the keys of the findings of all boxes, and grounded those sourced or calculated somewhere |
| ResearchFacts.FindingsCounted | bridge/stage.go:478-483 | the findings counted are those of the stages, of both positions and of the risk stage |
| ResearchFacts.CoverageInFields | bridge/stage.go:509-529 | investigate and watch need a source, two grounded claims and a quarter of all claims grounded; the other outcomes need nothing |
| ResearchRun.ConvertPosition | bridge/run.go:267-277 | a position needs a statement and support that converts |
| ResearchRun.RunStage | bridge/run.go:162-225 | one stage of the loop, with the table updated in place |
| ResearchRun.WorkJob | bridge/run.go:129-245 | an artifact is produced exactly when all stages arrived, converted and passed the gates; it then resolves every citation, meets the coverage floor, and reports the stages: the last chair's thesis and anti-thesis in their own places with their own support, box k for stage k, and the last risk stage's findings and contradictions |
| ClaimKeys.ClaimKeyIdempotent | bridge/stage.go:497-500 | the key of a key is the key |
| ClaimKeys.JoinFieldsOfTidy | bridge/stage.go:497-500 | collapsing white space leaves collapsed text alone |
| ClaimKeys.FieldsSplit | bridge/stage.go:497-500 | the fields of a text are the words between its white space, in order |
| ClaimKeys.FieldsOfJoin | bridge/stage.go:497-500 | joining words and splitting again gives the words back |
| ClaimKeys.KeyInFields | bridge/stage.go:497-500 | the key is the words in lower case with one blank between them, without the dots, exclamation and question marks at the end |
| Claims.CountBox | bridge/stage.go:463-477 | after a list, the map and the order hold exactly the distinct keys and which were ever grounded |
| Claims.GroundedCoverage | bridge/stage.go:460-492 | the totals are the number of distinct keys and of keys with a grounded appearance |
| Claims.CoverageIsOfTheSet | bridge/stage.go:460-492 | order and repetition of findings do not matter |
| Claims.RestatementAddsNothing | bridge/stage.go:453-459 | restating a claim changes neither count |
| Claims.CleanEvidencePaths | bridge/review.go:446-465 | fails exactly when a non-blank path is outside the snapshot; otherwise the first twelve distinct ones |
| Claims.TrimmedMeans | bridge/review.go:446-465 | a path is considered exactly when it is some path of the list trimmed, and not blank |
| Claims.ConvertReviewClaim | bridge/review.go:395-411 | a claim is refused, dropped for citing nothing, or passed on trimmed and clipped |
| Claims.CleanedInFields | bridge/review.go:395-411 | a claim is dropped exactly when all its paths are blank; otherwise it keeps its trimmed code, its trimmed and clipped statement and its first twelve distinct paths |
| Claims.ConvertReviewClaims | bridge/review.go:389-414 | fails exactly for too many entries, a blank statement or an invented path; otherwise keeps the citing claims in order |
| Claims.MergeInto | bridge/review_run.go:241-252 | folds paths and code of a restatement into the earlier claim |
| Claims.DedupeClaims | bridge/review_run.go:233-257 | the index map finds the same earlier claim that a search would |
| Claims.DedupedIsRight | bridge/review_run.go:233-257 | distinct keys in first-occurrence order, each with the statement that first had it, its first code and the first twelve of all paths cited under it |
| Claims.MergedInFields | bridge/review_run.go:241-252 | one merge keeps the earlier statement, fills in a code only where there was none, and adds new paths behind the old ones as far as twelve |
| Claims.KeysInOrder | bridge/review_run.go:233-257 | the merged claims stand in the order of the claims that first had their keys |
| Claims.CodeIsTheFirst | bridge/review_run.go:248-250 | a merged claim has the code of the first claim under its key that gives one |
| Claims.PathsInOrder | bridge/review_run.go:242-247 | the paths under a key are those of its claims, claim after claim |
| Claims.DedupedIdempotent | bridge/review_run.go:233-257 | merging twice is merging once |
| Claims.DedupedStaysInIndex | bridge/review_run.go:233-257 | merged paths are in the snapshot index if the cited ones were |
| Claims.MergeBlockers | bridge/review_assemble.go:73-88 | the server's blockers come first; they are all kept exactly when there are at most forty |
| ExploreRanking.ScoreIsMonotoneInUnit | gateway/explore.go:482-489 | scores lie in the unit interval and strictly rise with any term |
| ExploreRanking.ScoreTerms | gateway/explore.go:494-522 | the two company loops find the relation and sector terms |
| ExploreRanking.CooccurrenceSet | gateway/explore.go:555-576 | the unfollowed companies that share an event with a followed one |
| ExploreRanking.OrderIsTotal | gateway/explore.go:428-437 | over distinct ids the order decides between any two events, however scores tie |
| ExploreRanking.TopPicks | gateway/explore.go:442-451 | the loop collects the top ids not about a followed company |
| ExploreRanking.ForYouIsTheTop | gateway/explore.go:442-451 | for distinct ids they are the first `limit` such events of the ranking |
| ExploreFacts.PrimaryIsTheFirst | gateway/feeds.go:184-191 | the subject of an event is the company of its first mention marked primary, and it has none exactly when no mention is marked |
| ExploreFacts.TogetherInFields | gateway/explore.go:555-576 | a company counts as seen with followed ones exactly when it is not followed and some event mentions it and a followed one |
| ExploreFacts.TermsInFields | gateway/explore.go:494-553 | the six terms of an event by its fields and mentions |
| ExploreFacts.OutranksInFields | gateway/explore.go:425-437 | cards are ordered by the weighted sum of their terms, then by time, then by id, all downwards |
| ExploreFacts.PlacedIff | gateway/explore.go:600-647 | an event goes into a section exactly when that section's rule, stated in its fields, wants it and no two of higher priority do |
| ExploreFacts.DiscoveryIsNotFollowed | gateway/explore.go:442-451 | no card for you, and none related to your companies, has a followed company as its first primary mention |
| ExploreFacts.MentionIsRelated | gateway/explore.go:603-613 | an event that mentions a followed company and whose first primary mention is not followed is always placed among the related |
| ExploreFacts.SectionHoldsTheBest | gateway/explore.go:453-476 | an event that lands in a section is shown there unless the section is full of events that outrank it |
| ExploreFacts.ForYouShowsThePicks | gateway/explore.go:442-476 | the cards for you are exactly the explained ones among the first `limit` events of the ranking not about a followed company |
| ExploreRanking.AssignSections | gateway/explore.go:600-647 | the rule table and the priority scan place an event as specified |
| ExploreRanking.PlacedInEarliestTwo | gateway/explore.go:632-646 | an event is placed in a section exactly when it qualifies and fewer than two higher ones want it |
| ExploreRanking.RankExplore | gateway/explore.go:400-476 | every section asked for is the capped list of the highest-ranked events that land in it |
| ExploreRanking.SectionsAreOrderedAndCapped | gateway/explore.go:425-437 | sections are strictly ordered by score, time and id, and at most `limit` long |
| ExploreRanking.NoEventInThreeSections | gateway/explore.go:632-646 | no event stands in three sections |
| ExploreRanking.RankingIgnoresInputOrder | gateway/explore.go:398-476 | any rearrangement of the events gives the same sections |
| ExploreRanking.NamedSectionIsTheFullOne | gateway/explore.go:459-462 | asking for one section gives exactly that section of the full answer |
| AnalystRuns.Jobs.Begin | gateway/analystjobs.go:116-131 | attaches to a running record, else registers a new one |
| AnalystRuns.Jobs.Finish | gateway/analystjobs.go:135-150 | records the end on whatever record has the id |
| AnalystRuns.Jobs.Get | gateway/analystjobs.go:153-162 | answers what the sweep left |
| AnalystRuns.Jobs.Sweep | gateway/analystjobs.go:167-180 | drops exactly the stale records |
| AnalystRuns.SweptInFields | gateway/analystjobs.go:167-180 | a running record is kept until fifteen minutes after its start, any other until half an hour after its end |
| AnalystRuns.BegunInFields | gateway/analystjobs.go:116-131 | a begin leaves a running record alone, else puts a new running one there, and touches no other |
| AnalystRuns.FinishedInFields | gateway/analystjobs.go:135-150 | a report ends the record of its id, as failed exactly when there is an error, and touches no other |
| AnalystRuns.ReportIsRecorded | gateway/analystjobs.go:135-150 | in every run with timely runners, a report finds its runner's record and leaves the result or the error there |
| AnalystRuns.RunInvariant | gateway/analystjobs.go:116-180 | running records and live runners correspond one to one in every run |
| AnalystRuns.SingleLiveRunner | gateway/analystjobs.go:116-231 | if every runner reports within its timeout plus the grace, at most one per run id is alive |
| AnalystRuns.BeginAttachesToTheLiveRunner | gateway/analystjobs.go:112-131 | a begin attaches exactly when a runner of its id is alive, and then starts nothing |
| AnalystRuns.TerminalRecordIsKept | gateway/analystjobs.go:135-180 | a terminal record stays unchanged until a new begin or thirty minutes after its end |
| AnalystRuns.ExpiredRecordIsSwept | gateway/analystjobs.go:174-177 | past its retention the next read drops it |
| AnalystRuns.LateReportOverwrites | gateway/analystjobs.go:135-150 | a begin beside an overdue runner starts a second one, whose record the late report ends |
| AnalystHistory.RunTold | gateway/analystjobs.go:116-180 | in every run, late runners included, an id's record is told by its newest runner and whether one has reported since |
| AnalystHistory.BeginAttachesIff | gateway/analystjobs.go:116-131 | in every run, a begin attaches exactly when a runner of the id was started, none has reported since the newest was, and that one is not overdue |
| AnalystHistory.SecondRunnerIff | gateway/analystjobs.go:116-231 | in every run, a begin starts a runner beside a live one exactly when one is alive and either one has reported since the newest was started or the newest is overdue |
| AnalystHistory.SoleRunnerIff | gateway/analystjobs.go:116-231 | over every run, an id never has two live runners exactly when no begin of it comes while a live runner of it is overdue |
| AnalystHistory.SecondRunnerIffOverdue | gateway/analystjobs.go:170-173 | while an id has had one runner at a time, a step gives it a second exactly when it begins beside an overdue one |
| AnalystHistory.LateReportEndsNewest | gateway/analystjobs.go:135-150 | in every run, a report lands on the newest run's record, whoever makes it |
| AnalystHistory.ThirdRunnerStartsEarly | gateway/analystjobs.go:116-150 | a run in which a late report makes the next begin start a third runner beside one two seconds old |
| AnalystHistory.FinishedRecordIsKept | gateway/analystjobs.go:135-180 | in every run, a finished record stays as it is within its retention unless its id is begun again or a runner of it reports |
| Pbkdf2.OctetsNameTheBlock | auth/crypto.go:38 | the four octets are the block number modulo 2^32, most significant first |
| Pbkdf2.Block | auth/crypto.go:36-50 | the inner loop accumulates F of section 5.2 of RFC 8018 in place |
| Pbkdf2.XorInto | auth/crypto.go:47-49 | the octet loop is the exclusive or |
| Pbkdf2.Pbkdf2SHA256 | auth/crypto.go:30-54 | the nested loops compute DK for every password, salt, length and iteration count |
| Pbkdf2.KeyOctet | auth/crypto.go:30-54 | octet k of the key is octet k mod 32 of block k div 32 plus one |
| Pbkdf2.OctetsAreTheOnes | auth/crypto.go:38 | no other four octets say the block number |
| Pbkdf2.KeyOctetIsTheXor | auth/crypto.go:30-54 | octet k of the key is the exclusive or of one column of any chain that starts with the function of the salt and the block number and iterates it as often as asked |
| Pbkdf2.ShorterKeyIsPrefix | auth/crypto.go:30-54 | a shorter key is a prefix of a longer one |
| Pbkdf2.HashPassword | auth/crypto.go:62-71 | the encoded string of the derived key |
| Pbkdf2.HashInFields | auth/crypto.go:62-71 | the text names the scheme, 210000 iterations, the salt and the 32 octets derived from it |
| Pbkdf2.VerifyPassword | auth/crypto.go:74-93 | accepts exactly well-formed strings whose key derives again |
| Pbkdf2.ParsedIff | auth/crypto.go:75-90 | a text is read exactly when it has the scheme, a count of at least one, a salt and a non-empty key between dollar signs |
| Pbkdf2.VerifiesIff | auth/crypto.go:74-93 | a password is accepted exactly when the text holds the key it derives |
| Pbkdf2.SplitOfJoin | auth/crypto.go:75-76 | fields without the separator come back from splitting |
| Pbkdf2.ParseOfEncoded | auth/crypto.go:68-90 | an encoded hash parses to its iteration count, salt and key |
| Pbkdf2.VerifyAcceptsExactly | auth/crypto.go:62-93 | a stored hash accepts its own password, and another exactly when it derives the same key |
| Text.ParseFormat | gateway/feeds.go:921-938 | every 64-bit integer survives being written and read back |
| Text.TrimmedText | bridge/stage.go:203-218 | trimming takes all white space off both ends and nothing else |
| Text.LessIsLexicographic | bridge/stage.go:395 | strings compare by their first difference, a proper prefix first |
| Text.ParsedText | gateway/feeds.go:921-938 | a number is read exactly from an optional sign and digits within 64 bits |
| Common.UniqInOrder | bridge/stage.go:303-310 | what is kept of repeated items stands in the order in which it first occurred |
| Common.MapAllInOrder | bridge/stage.go:262-319 | a list converts exactly when each item does, one for one and in order |

## Left out

- Handlers, proxies, cookies, settings, feedback triage and calendar mapping: plumbing without state of its own.
- Files and PostgreSQL: each durable write is one step that succeeds or leaves the old contents. The monitor's own snapshot file, and what a restart after a failed write brings back, are not modelled.
- The monitor's notifications, degraded list, and the bearing and data-state fields, which are constant there; tickers are taken as already upper-cased.
- The sentences a marker reports and the hash behind `firedKey` are parameters; job ids are as distinct as that hash (MonitorFacts.JobIdsAgreeIff assumes it injective and its words free of NUL).
- Goroutines and mutexes: each locked section is one step, and steps of the monitor's sweeps and workers, of the evaluator and the rule operations, and of analyst runs interleave freely.
- ThesisMonitor.Monitor.Examine: does not model event emission and notification, or what another sweep does in between, which MonitorRuns does.
- ThesisMonitor.Monitor.Tick: does not model the degraded list, the notification count and persistence, or overlapping sweeps, which MonitorRuns does.
- ResearchRun.WorkJob: does not model notes, unresolved questions, key risks and the reasons of a veto, and takes the date, language, leak and size checks as one given gate.
- Recurring thesis reviews fire whenever they are due, not on an edge; whether one is due is the reading of the pass.
- The market readings themselves: fetching, the per-pass cache and the thresholds of each rule type reduce to the side or truth value a pass observed.
- Event lists: sorting, limiting and parsing of stored events; only the unread count is modelled.
- Floating point: prices, scores and the coverage floor are exact, and the freshness decay is a function into the unit interval.
- Strings are sequences of characters; where the source clips or measures bytes, the model counts characters. Case folding is one character to one character.
- JSON decoding and closed schemas: the splice assumes a decoder that reads object texts as the grammar says. The disclaimer is assumed to need no escaping.
- Unresolved questions, notes, time stamps and identity fields of an artifact; redaction, banned language and leak checks are one gate whose answer is a parameter.
- The review chain's stage loop, the walk that builds the snapshot's path index and the rest of the review artifact; the claims that pass through them are modelled.
- Item cards of the ranking: whether both mandatory sentences can be written is a parameter, and the wording is left out.
- Feed rows carry their id, time and title; the other fields, counts and fallbacks to news and seed data are left out.
- The constant-time comparison and the dummy hash of the login path.
