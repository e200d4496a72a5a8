# Verified model of the seed network appliance

This project models the parts of seed whose correctness depends on more than one function at a time, and proves what
they promise over every input, every run or every interleaving.

* **The anomaly engine and its persistence coordinator** (`internal/anomaly`). Detections are folded into one live
  instance per definition and subject; recurrence escalates severity; idle or recovered instances are cleared. A
  coordinator keeps a store in agreement: material changes are written through, plain recurrence is deferred to a
  flush, clears are marked resolved, and a restart reloads the open rows. `AnomalyEngine`, `AnomalyStore` and
  `AnomalyCoordinator` hold the mutable objects, each method proved against a function on values. `AnomalyView` says what an instance shows.
  `AnomalyTrace`, `AnomalyAgreement`, `AnomalyDurability` and `AnomalyRestart` prove laws of whole runs, with store
  failures and restarts. `AnomalyConcurrency`, `AnomalyAlone`, `AnomalyPast` and `AnomalyRaces` split every call at its lock
  boundaries and interleave them freely. `AnomalySql` relates the SQL repository to the store's contract, and `AnomalySqlAgreement`
  carries the agreement over to it. `AnomalySnapshot` is the ordered view.
* **The idempotent job submission and its event stream** (`internal/api/handlers_jobs.go`): `JobIdempotency`,
  `JobRaces`, `JobEvents`, and in `EventStream` the receiving side as section 9.2 of the WHATWG HTML Living Standard
  defines it.
* **The release-asset verifier** (`cmd/verify-release-assets`): `GreedyMatching`, `GreedyOrder`, `ReleaseAssets`,
  `ReleaseSubjects`.
* **Gates in `scripts/`**: path patterns (`RouteMatching`), import graphs (`Graphs`, `Reachability`), the changelog
  check and its repair (`Changelog`, `ChangelogRepair`), the CSS layer scanner (`ComponentClasses`).

`Basics`, `Text`, `TextOrder` and `Sorting` are shared helpers. `dafny verify dfyconfig.toml` checks everything.

Every choice the environment makes is a parameter: the time of an observation, whether a store call succeeds, the
iteration order over a Go map, the id a job runner grants, the schedule of a stream, the hash function, the regular
expression that extracts class names.

## Where the code and its comments differ

The model follows the code. These are theorems here, with an input that shows the difference and the exact condition
under which the promise holds.

* A failed write-through is not retried by the next flush: the key is not marked dirty
  (`FailedCreateIsNotRetried`; `FlushRepairsExactly` says when a flush does repair a row).
* A flush, or a write-through, that has already read its records can reopen a row after it was resolved
  (`OvertakenWrite`); this is the only way a row of a cleared key reopens (`ReopenedOnlyByEarlyRead`). Two more overlaps
  leave engine and store apart with nothing in flight: `OvertakenResolution` and `StaleWrite`. Without these three,
  every quiet moment is a moment of agreement (`QuietAgreement`); in every moment, a row shows its key as it was when
  the row's last store call read or cleared, so there is agreement exactly when the key is still as it was then
  (`RowShowsBasis`, `AgreesExactly`).
* A restart raises the projected severity of an escalated, not yet critical instance by one level until it is sighted
  again (`RestartRaises`, `RevivedProjection`, `RestartTransparent`); restarting twice does not raise it twice
  (`RestartIdempotent`).
* firstSeen is the time of the first fold, not the earliest time (`FirstSeenIsNotEarliest`,
  `FirstSeenEarliestExactly`).
* Record ids collide (`IdCollision`) exactly for keys whose definition id or subject kind contains the separator
  (`IdUniqueExactly`). What request fingerprints hash collides (`PreimageCollision`) exactly for parameters that contain a
  NUL (`PreimageUniqueExactly`).
* The SQL upsert never updates source and first_seen, and stores whole seconds (`RecreatedKeepsOrigin`, `RunsRefine`,
  `RowFaithfulExactly`). Which ids are open is not affected, restarts included (`SqlRunsKeep`, `SqlSmoothRunsAgree`).
* The snapshot order does not look at the subject kind, so it is one sequence exactly when no two live instances differ
  only there (`SnapshotDetermined`, `KindTwinsUndetermined`).
* The idempotency cache needs a capacity of at least one (`CapacityMatters`), and deduplicates retries but not
  simultaneous posts (`SimultaneousPostsBothCreate`); which posts find a job is `CheckExactly`, and when a key creates
  again is `CreatesAgainOnlyIf`.
* The asset selection depends on the order of the manifest (`OrderMatters`); some order succeeds exactly when there is
  one matching, under one version (`SomeOrderSucceeds`). A matched name is the filled template exactly when it is long
  enough (`OverlapMatches`, `NameIsFilledTemplate`).
* The subjects file of a verified release reads back exactly when no two artifacts share a name (`SharedAssigned`,
  `SharedPasses`, `SharedUnreadable`) and no line outgrows the reader's buffer (`LongNameUnreadable`); see
  `VerifiedSubjectsReadBack`.
* The changelog repair gives a section to a heading that was glued to the repaired one (`GluedHeadingAppears`), exactly
  when that version has no section before it (`OtherSections`, `FixOtherSections`).

## Model

| member | source | states |
|---|---|---|
| AnomalyModel.Bump | internal/anomaly/engine.go:186-202 | one rank up, fixed exactly at critical and at unknown severities |
| AnomalyModel.InvalidExactly | internal/anomaly/catalog.go:19-66 | a definition is refused exactly for an empty required text, an unknown category or default severity, or a follow-up of unknown kind or without title |
| AnomalyModel.NewCatalog | internal/anomaly/catalog.go:19-66 | succeeds exactly on valid definitions with distinct ids, and then indexes each of them, and nothing else, under its own id |
| AnomalyModel.IdInjective | internal/anomaly/store.go:50-56 | two keys without separator in definition id and kind share a record id only if they are equal |
| AnomalyModel.KeyFromId | internal/anomaly/store.go:50-56 | every record id splits, at its first two separators, into a separator-free key with this very id |
| AnomalyModel.IdUniqueExactly | internal/anomaly/store.go:50-56 | splitting gives back the key, and no other separator-free key shares its id, exactly when neither definition id nor kind contains the separator |
| AnomalyModel.IdCollision | internal/anomaly/anomaly.go:175-180 | three different keys with one record id |
| AnomalyEngine.ProjectFollowUps | internal/anomaly/engine.go:361-375 | the follow-ups in order, unchanged but for the kind of an automatic one without its capability, which becomes a prompt |
| AnomalyEngine.RecordForKey | internal/anomaly/engine.go:289-306 | a live instance's record carries the id of its own key and reloads under that key |
| AnomalyEngine.Engine.Observe | internal/anomaly/engine.go:84-122 | refuses exactly unknown definitions and invalid severities, otherwise folds the detection in and reports creation and materiality |
| AnomalyEngine.Engine.Restore | internal/anomaly/engine.go:142-168 | reloads the records in order onto the live set, skipping unknown definitions, and counts the reloaded ones |
| AnomalyEngine.Engine.PruneKeysForSource | internal/anomaly/engine.go:229-240 | removes exactly the source's instances last seen before the cutoff and lists each removed key once |
| AnomalyEngine.Engine.ClearSubject | internal/anomaly/engine.go:247-258 | removes exactly the subject's instances and lists each removed key once |
| AnomalyEngine.Engine.RecordsForKeys | internal/anomaly/engine.go:289-306 | the projections of those named keys that are live, in order |
| AnomalyEngine.Engine.LenBySource | internal/anomaly/engine.go:387-397 | the number of live instances of one source |
| AnomalyEngine.PruneConserves | internal/anomaly/engine.go:225-240 | removed plus kept is the old size; other sources and recent instances are untouched |
| AnomalyEngine.PruneTwice | internal/anomaly/engine.go:229-240 | successive prunes of one source are one prune at the later cutoff |
| AnomalyEngine.PruneCommutes | internal/anomaly/engine.go:229-240 | prunes of any two sources commute |
| AnomalyEngine.SumBySourceIsLen | internal/anomaly/engine.go:377-397 | over all sources present, the per-source counts add up to the number of live instances |
| AnomalyTrace.TraceRefinement | internal/anomaly/engine.go:84-122 | after every run a key is live exactly when it has sightings since its last clear, and its instance is their summary: count, first time, latest time, last detection and base severity |
| AnomalyTrace.OwnEventsSuffice | internal/anomaly/engine.go:96-121 | an instance depends only on the events about its own key; rejected detections and other keys change nothing |
| AnomalyTrace.ObservationsCommute | internal/anomaly/engine.go:96-121 | observations of different keys commute from every live set |
| AnomalyTrace.FirstSeenEarliestExactly | internal/anomaly/engine.go:99-119 | firstSeen is the earliest time since the last clear exactly when no later sighting is older than the first |
| AnomalyTrace.FirstSeenIsNotEarliest | internal/anomaly/engine.go:99-119 | a later-arriving older sighting does not move firstSeen |
| AnomalyView.RankIsPlace | internal/anomaly/anomaly.go:39-55 | the rank of a level is its place on the ladder info, warning, error, critical, and a bump goes to the next place |
| AnomalyView.SightingCounts | internal/anomaly/engine.go:84-122 | a detection counts exactly when its definition is known and its severity absent or on the ladder; then its key is live with it and one more counted, and every other key is as before |
| AnomalyView.ProjectedSeverity | internal/anomaly/engine.go:184-202 | below the threshold, or without one, the base severity shows; from the threshold on, the next level up to critical |
| AnomalyView.RunBase | internal/anomaly/engine.go:170-177 | over every run the base severity is that of the last sighting, or its definition's default |
| AnomalyView.RunSeverity | internal/anomaly/engine.go:184-202 | over every run, with n sightings since the last clear, the base severity shows while n is below the threshold and the next level from then on |
| AnomalyView.RunShows | internal/anomaly/engine.go:260-281 | over every run a live key shows its own definition's texts, its subject, its last evidence, its first and latest time and its count |
| AnomalyView.ViewIsComplete | internal/anomaly/catalog.go:19-66 | every view has title, description, recommendation, one of the seven categories, and follow-ups that ask or can run |
| AnomalyStore.Store.Upsert | internal/anomaly/store.go:62-65 | all records written in order, each reopening its row; a failed call changes nothing |
| AnomalyStore.Store.MarkResolved | internal/anomaly/store.go:66-68 | exactly the named open rows become resolved as of the time given |
| AnomalyStore.Store.LoadActive | internal/anomaly/store.go:69-71 | the records of the open rows, each once, in some order |
| AnomalyCoordinator.Coordinator.Observe | internal/anomaly/coordinator.go:40-52 | the step of the system, and which of the three outcomes is returned; a store error neither rolls back nor marks dirty |
| AnomalyCoordinator.Coordinator.Flush | internal/anomaly/coordinator.go:57-71 | drains the dirty set and writes its live records as one batch, in some order of the set; no store call without records |
| AnomalyCoordinator.Coordinator.Prune | internal/anomaly/coordinator.go:79-82 | clears the idle instances, drops their dirty marks, resolves exactly their rows as of the cutoff, and counts them |
| AnomalyCoordinator.Coordinator.ResolveSubject | internal/anomaly/coordinator.go:90-93 | clears the subject's instances, drops their dirty marks, resolves exactly their rows, and counts them |
| AnomalyCoordinator.Coordinator.ResolveKeys | internal/anomaly/coordinator.go:99-113 | drops the dirty marks and resolves the rows of the given keys; nothing without keys |
| AnomalyCoordinator.Coordinator.Load | internal/anomaly/coordinator.go:118-124 | reloads the open rows and counts the known ones; a store error leaves the engine unchanged |
| AnomalyAgreement.RunsKeep | internal/anomaly/coordinator.go:40-124 | over every run of observations, flushes, prunes, recoveries and restarts with any store failures, engine and store agree at every key whose latest store call succeeded |
| AnomalyAgreement.SmoothRunsAgree | internal/anomaly/coordinator.go:9-16 | without store errors every run from the empty state ends with open ids equal to the live keys' ids, dirty keys live, and clean keys settled |
| AnomalyAgreement.StepKeeps | internal/anomaly/coordinator.go:40-124 | each single call keeps the agreement, whether or not its store call succeeds |
| AnomalyAgreement.FailureEnds | internal/anomaly/coordinator.go:40-124 | a failure is over at a key with the next successful flush of its mark, first sighting, clear or reload |
| AnomalyAgreement.CleanRowsAreCurrent | internal/anomaly/coordinator.go:9-16 | without store errors, restarts included, the open row of a clean live key has its source, evidence, times and count, and its projected or, since a restart, its base severity |
| AnomalyAgreement.OpenIdsAreLiveIds | internal/anomaly/store.go:50-56 | in agreement the open ids are the live keys' record ids, one per instance |
| AnomalyAgreement.ClearResolvesExactly | internal/anomaly/coordinator.go:73-113 | a clear resolves exactly the cleared instances' rows, at the given time and with their last content |
| AnomalyAgreement.FlushWrites | internal/anomaly/coordinator.go:54-71 | a successful flush makes the row of every dirty live key its projection and touches no other row |
| AnomalyAgreement.RestartRevives | internal/anomaly/engine.go:134-168 | a restart revives exactly the keys of the open rows, each as its row reloaded, whatever the loading order |
| AnomalyDurability.SeverityNeverLags | internal/anomaly/engine.go:109-121 | without failure or restart, every live instance always has an open row that can differ from it only in count, lastSeen, evidence and source, and only while dirty |
| AnomalyDurability.StoredSeverityIsLive | internal/anomaly/coordinator.go:9-16 | in such runs the stored firstSeen is the engine's at all times, even between flushes, and the stored severity is the base, one level up from the threshold on |
| AnomalyDurability.EscalationWritesOnce | internal/anomaly/engine.go:109-121 | with an unchanged base severity the only write-through is the sighting that reaches the threshold, if it moves the severity |
| AnomalyDurability.WriteThroughExactly | internal/anomaly/coordinator.go:40-52 | a sighting is written at once exactly if it is the first of its key or changes base or projected severity; any other only marks the key dirty |
| AnomalyDurability.EngineIgnoresFailures | internal/anomaly/coordinator.go:36-113 | the same calls lead to the same live set and dirty set whichever store calls fail |
| AnomalyDurability.CoordinatorFollowsTrace | internal/anomaly/coordinator.go:40-113 | over every run the coordinator's live set is that of the plain engine on the same events |
| AnomalyDurability.CoordinatorTracksSightings | internal/anomaly/engine.go:84-122 | every instance the coordinator holds is the summary of its own key's sightings |
| AnomalyDurability.FlushRepairsExactly | internal/anomaly/coordinator.go:36-71 | a successful flush leaves a live key's row current exactly when the key was dirty or the row was current already |
| AnomalyDurability.FailedCreateIsNotRetried | internal/anomaly/coordinator.go:36-47 | after a failed first write the next flush writes nothing and the instance stays live without a row |
| AnomalyRestart.CrashLosesOnlyDeferred | internal/anomaly/coordinator.go:115-124 | losing the process at any moment of a failure-free run brings back exactly the live keys, losing at most the deferred columns of dirty ones |
| AnomalyRestart.FlushedRestart | internal/anomaly/engine.go:142-168 | after a flush, a restart brings back each live instance as its own record reloaded |
| AnomalyRestart.RevivedProjection | internal/anomaly/engine.go:134-163 | a reloaded instance projects the same except severity, which is one level higher exactly when the count escalates and the severity was not critical |
| AnomalyRestart.RestartRaises | internal/anomaly/engine.go:134-163 | an escalated instance of base info projects as warning before a restart and as error after it |
| AnomalyRestart.RestartIdempotent | internal/anomaly/engine.go:142-168 | a second restart changes nothing, whatever orders the rows load in |
| AnomalyRestart.MirrorsForever | internal/anomaly/engine.go:134-140 | under every continuation a restarted engine has the keys of the uninterrupted one; each key observed on the way is identical, every other one is the reload of what the uninterrupted engine holds |
| AnomalyRestart.RestartTransparent | internal/anomaly/coordinator.go:115-124 | run, flush, restart and go on with any calls: the live keys are those of the uninterrupted engine, observed keys are identical, every other instance is exactly the reload of the uninterrupted one |
| AnomalyRestart.RunKeepsValidBases | internal/anomaly/engine.go:85-91 | every base severity of a run is one of the four levels |
| AnomalyConcurrency.WritesWereLive | internal/anomaly/coordinator.go:57-71 | in every interleaving, a write in flight holds exactly what its own read found live |
| AnomalyConcurrency.LateReadKeepsRow | internal/anomaly/coordinator.go:95-113 | while a key stays gone, a write whose read followed the clear leaves its row untouched, whatever is in the dirty set |
| AnomalyConcurrency.ReopenedOnlyByEarlyRead | internal/anomaly/coordinator.go:95-113 | if a gone key's row is reopened, some write in between had read before the key was cleared |
| AnomalyAlone.AloneIsStep | internal/anomaly/coordinator.go:40-113 | each call's interleaved steps, taken with nothing in between, end in the live set, dirty set and rows of the one-step call, with the other calls in flight where they were |
| AnomalyPast.RowShowsBasis | internal/anomaly/coordinator.go:40-113 | in every interleaving with any store failures, every row shows its key as it was at one past moment: when the last successful store call about it had read its records or cleared its instances |
| AnomalyPast.LastClearFor | internal/anomaly/coordinator.go:95-113 | a resolution in flight is about exactly the keys its own clear removed |
| AnomalyPast.AgreesExactly | internal/anomaly/coordinator.go:40-113 | in every state of every interleaving, engine and store agree at a key exactly when the key is as it was at that moment |
| AnomalyRaces.QuietAgreement | internal/anomaly/coordinator.go:40-113 | in every interleaving without store errors, whenever nothing is in flight, a key that met none of three overlaps is live exactly when its row is open, and its row is current unless dirty |
| AnomalyRaces.RaceNeedsAnother | internal/anomaly/coordinator.go:40-113 | each overlap involves another call about to write or resolve the key |
| AnomalyRaces.OvertakenWrite | internal/anomaly/coordinator.go:40-47 | a recovery between read and write of a write-through leaves an open row with nothing live, dirty or in flight |
| AnomalyRaces.OvertakenResolution | internal/anomaly/coordinator.go:90-113 | a new sighting before the resolution reaches the store leaves a live, clean key with a resolved row |
| AnomalyRaces.StaleWrite | internal/anomaly/coordinator.go:40-71 | an older write landing last leaves a live, clean key with an outdated row |
| AnomalySql.RunsRefine | internal/database/repository_anomalies.go:26-116 | over every run without a restart, whichever store calls fail, the repository has the port's ids and openness, and the port's rows in whole seconds with source and firstSeen of the first insert |
| AnomalySql.RowFaithfulExactly | internal/database/repository_anomalies.go:26-48 | a clean live key's row is its instance's projection, in whole seconds, exactly when source and second of firstSeen are still those of the first insert |
| AnomalySql.ReloadFromSql | internal/database/repository_anomalies.go:228-257 | what a reload brings back compared with the port's row: source and firstSeen of the first insert, whole seconds |
| AnomalySql.RowInWholeSeconds | internal/database/repository_anomalies.go:26-48 | stored times are multiples of a second, less than a second before the port's; impact and follow-ups are not stored |
| AnomalySql.RecreatedKeepsOrigin | internal/database/repository_anomalies.go:33-43 | a condition sighted again after recovery by another source keeps the old source and firstSeen in its row |
| AnomalySql.StoredReadIsLiveRead | internal/anomaly/engine.go:308-325 | a stored row enriched from the catalog is the live view, in whole seconds |
| AnomalySqlAgreement.SqlRunsKeep | internal/database/repository_anomalies.go:26-116 | over every run on the repository, restarts and store failures included, at every key whose latest store call succeeded live means open, and a clean key's row was written for its instance or is the one it was reloaded from |
| AnomalySqlAgreement.SqlSmoothRunsAgree | internal/database/repository_anomalies.go:26-116 | without store errors and with any number of restarts the open ids are the live keys' ids, one per instance |
| AnomalySqlAgreement.SqlCleanRowsAreCurrent | internal/database/repository_anomalies.go:26-116 | in such runs the open row of a clean live key has its evidence and count, its latest time to the second, and its projected or, since a restart, its base severity |
| AnomalySnapshot.SortAnomaliesSorts | internal/anomaly/engine.go:343-357 | a permutation of its input, sorted by urgency, definition and subject id |
| AnomalySnapshot.Snapshot | internal/anomaly/engine.go:331-341 | a sorted arrangement of the projections of all live instances |
| AnomalySnapshot.SnapshotOrder | internal/anomaly/engine.go:343-357 | of two entries the earlier is at least as urgent, then not later by definition, then not later by subject id |
| TextOrder.LessExactly | internal/anomaly/engine.go:347-357 | one text is before another exactly as its proper beginning or by the smaller character at the first difference |
| AnomalySnapshot.SnapshotDetermined | internal/anomaly/engine.go:327-341 | without two live instances that differ only in subject kind at equal rank, every iteration order and every sort give the same sequence |
| AnomalySnapshot.KindTwinsUndetermined | internal/anomaly/engine.go:343-357 | with two such instances there are two different snapshots |
| JobIdempotency.PreimageInjective | internal/api/handlers_jobs.go:450-458 | kind, NUL and NUL-free params determine the request |
| JobIdempotency.PreimageUniqueExactly | internal/api/handlers_jobs.go:450-458 | a request shares its preimage with no other request of NUL-free params exactly when its own params are NUL-free |
| JobIdempotency.PreimageCollision | internal/api/handlers_jobs.go:450-458 | with a NUL in the params two requests share a fingerprint |
| JobIdempotency.JobIdempotencyCache.Lookup | internal/api/handlers_jobs.go:471-487 | miss, hit with the recorded job, or conflict, without recording anything |
| JobIdempotency.JobIdempotencyCache.Record | internal/api/handlers_jobs.go:490-508 | a new key joins the order and past the capacity the oldest leaves; a known key is only overwritten |
| JobIdempotency.CacheIsNewest | internal/api/handlers_jobs.go:434-508 | for capacity at least one, in every run the order list has no duplicates, lists exactly the cached keys, and is the tail of the log of new-key insertions |
| JobIdempotency.CapacityMatters | internal/api/handlers_jobs.go:499-507 | that holds after the first insertion exactly when the capacity is at least one |
| JobIdempotency.JobRunner.Submit | internal/platform/jobs/jobs.go:232-264 | a granted submission registers the job under its id, a denied one changes nothing |
| JobIdempotency.Server.HandleJobs | internal/api/handlers_jobs.go:102-176 | the response and the new state of cache and runner for every key, body and runner answer |
| JobIdempotency.RetryReplays | internal/api/handlers_jobs.go:145-175 | after a creation, under a new key or under a cached one whose job was gone, and any calls inserting fewer new keys than its place leaves room for, the same key and body answer with the original job and change nothing while the job is known; another body conflicts and changes nothing |
| JobIdempotency.CreatedPlace | internal/api/handlers_jobs.go:490-508 | a creation puts a new key last and leaves a cached key in its place |
| JobIdempotency.ServesNext | internal/api/handlers_jobs.go:102-176 | any call can come next in a run as long as the runner issues fresh ids |
| JobRaces.AloneIsPost | internal/api/handlers_jobs.go:145-175 | the handler as one call is the uninterrupted sequence of its check, lookup, submit and store steps, with the same answer |
| JobRaces.CheckExactly | internal/api/handlers_jobs.go:471-508 | in every interleaving a check misses exactly when its key is not among the last cap keys newly inserted; otherwise it finds the job last stored under the key, or conflicts, by the body |
| JobRaces.ReplayedWasCreated | internal/api/handlers_jobs.go:145-175 | in every interleaving a replayed job was submitted by a post with the same key and body, and it is a job for that body |
| JobRaces.CreatesAgainOnlyIf | internal/api/handlers_jobs.go:145-175 | in every interleaving a post submits under a key stored before its check only because the key was evicted by then, or the job last stored under it was gone when it looked |
| JobRaces.SimultaneousPostsBothCreate | internal/api/handlers_jobs.go:434-438 | an interleaving of two posts that both check before either stores and create two jobs |
| EventStream.FeedGrows | internal/api/handlers_jobs.go:295-298 | a receiver never takes a dispatched message back |
| EventStream.LineEndsAlike | internal/api/handlers_jobs.go:327-336 | a stream reads the same with CR LF for every LF |
| EventStream.DataLinesDispatch | internal/api/handlers_jobs.go:327-336 | several data lines make one message of all of them, with the default name |
| JobEvents.JobStream.Push | internal/api/handlers_jobs.go:267-281 | a visible change that marshals is queued as one frame unless 64 frames wait |
| JobEvents.JobStream.Pump | internal/api/handlers_jobs.go:299-325 | whole frames in queue order and heartbeats, as the schedule says |
| JobEvents.FrameParses | internal/api/handlers_jobs.go:327-336 | a frame read from a clean state dispatches exactly one job message with the payload and leaves a clean state |
| JobEvents.StreamFaithful | internal/api/handlers_jobs.go:248-336 | for every schedule at most 64 frames wait, and what was sent parses to exactly the accepted changes that no longer wait, in push order |
| JobEvents.AcceptedIsSubsequence | internal/api/handlers_jobs.go:264-281 | the accepted changes are a subsequence, in push order, of those visible to the caller |
| JobEvents.SubsequencePlaces | internal/api/handlers_jobs.go:264-281 | the entries kept stand in the original at places that go up |
| JobEvents.AcceptedExactly | internal/api/handlers_jobs.go:176-184 | in every schedule the accepted payloads grow exactly by that of a change that marshals, is owned by nobody or the caller, and finds fewer than 64 frames waiting |
| JobEvents.AcceptedComesFrom | internal/api/handlers_jobs.go:264-281 | every accepted payload comes from such a push |
| JobEvents.OthersStaySilent | internal/api/handlers_jobs.go:176-184 | changes of other clients alone send the caller no message |
| JobEvents.LostOnlyWhenFull | internal/api/handlers_jobs.go:277-280 | a visible change is lost exactly when some visible push met a full backlog |
| JobEvents.CutStreamParses | internal/api/handlers_jobs.go:295-325 | from any prefix of the sent characters the receiver dispatches a prefix of the accepted changes |
| GreedyMatching.FindMatch | cmd/verify-release-assets/main.go:312-337 | finds the only free match of an entry, and reports none or several exactly when there is no such match |
| GreedyMatching.MatchAll | cmd/verify-release-assets/main.go:285-293 | assigns every entry its only free match, or stops exactly where no greedy assignment can go on |
| GreedyMatching.Select | cmd/verify-release-assets/main.go:281-309 | succeeds exactly when an assignment exists that is greedy, leaves nothing over and has one label, and returns it |
| GreedyMatching.GreedyDetermined | cmd/verify-release-assets/main.go:312-337 | two greedy assignments agree as far as both go |
| GreedyMatching.SuccessIsBijection | cmd/verify-release-assets/main.go:295-302 | a successful assignment is a bijection of entries and artifacts |
| GreedyMatching.GreedyIsUnique | cmd/verify-release-assets/main.go:312-337 | every injective assignment to matching artifacts is the greedy one |
| GreedyOrder.SomeAlone | cmd/verify-release-assets/main.go:312-337 | with exactly one matching, among any rows there is one that matches none of the other rows' columns |
| GreedyOrder.UniqueIsOrderable | cmd/verify-release-assets/main.go:281-309 | with exactly one matching, under one label, there is an order of the rows in which the greedy selection succeeds with it |
| GreedyOrder.OrderableMatches | cmd/verify-release-assets/main.go:281-309 | if some order succeeds, the table has exactly one matching, under one label |
| ReleaseAssets.NameIsFilledTemplate | cmd/verify-release-assets/main.go:408-430 | a matched name is prefix, version, suffix exactly when it is at least as long as prefix and suffix together |
| ReleaseAssets.OverlapMatches | cmd/verify-release-assets/main.go:408-430 | a name that matches although prefix and suffix overlap in it |
| ReleaseAssets.MatchesExactly | cmd/verify-release-assets/main.go:408-430 | an artifact matches under v exactly when kind, platform, id and format are the entry's, v is not empty and holds no separator, and its name is prefix, v, suffix (or, too short for both, prefix and v, ending with the suffix) |
| ReleaseAssets.FormatDeclared | cmd/verify-release-assets/main.go:408-430 | a declared format counts without its leading dot |
| ReleaseAssets.FormatByName | cmd/verify-release-assets/main.go:432-445 | without one, the four known endings tell, and nothing else |
| ReleaseAssets.PrimariesExactly | cmd/verify-release-assets/main.go:274-280 | primary are exactly the archives and Linux packages, each as often as listed |
| ReleaseAssets.SelectPrimaryAssets | cmd/verify-release-assets/main.go:274-310 | succeeds exactly when a successful assignment of the manifest to the primary artifacts exists, and returns its artifacts in manifest order |
| ReleaseAssets.SelectionIsTheOnlyMatching | cmd/verify-release-assets/main.go:274-337 | success means a bijection under one version, and no other injective assignment respects the templates |
| ReleaseAssets.OrderMatters | cmd/verify-release-assets/main.go:285-293 | a manifest with a unique matching whose selection fails, and succeeds with two entries exchanged |
| ReleaseAssets.SomeOrderSucceeds | cmd/verify-release-assets/main.go:274-337 | some order of the manifest succeeds exactly when there are as many artifacts as entries, at least one, and exactly one way to match them, under one version |
| ReleaseSubjects.ReadChecksums | cmd/verify-release-assets/main.go:189-213 | reads the lines in order, refusing a line that is not digest and name or does not fit the buffer, and a repeated name |
| ReleaseSubjects.ReadLineExactly | cmd/verify-release-assets/main.go:198-207 | a line is read exactly when it fits and is a digest and a new name with white space between and perhaps around them |
| ReleaseSubjects.ReadTablesAreClean | cmd/verify-release-assets/main.go:198-207 | whatever file was read, every name is a word and every value a digest |
| ReleaseSubjects.SubjectsRoundTrip | cmd/verify-release-assets/main.go:455-474 | the written subjects read back exactly when names are distinct and lines fit the buffer, and then as exactly the written pairs |
| ReleaseSubjects.VerifyNoOrphanSidecars | cmd/verify-release-assets/main.go:384-406 | succeeds exactly when no sidecar file is without its artifact |
| ReleaseSubjects.VerifyCoverage | cmd/verify-release-assets/main.go:339-382 | succeeds exactly when every artifact is complete (file, signature bundle, bill of materials, one digest under two witnesses) and every sidecar is owned; one subject per artifact, ordered by name |
| ReleaseSubjects.PassesExactly | cmd/verify-release-assets/main.go:339-406 | what verification asks, in terms of the files and their names |
| ReleaseSubjects.MissingFileFails | cmd/verify-release-assets/main.go:347-377 | without an artifact, its signature bundle or its bill of materials verification fails |
| ReleaseSubjects.WrongDigestFails | cmd/verify-release-assets/main.go:350-365 | verification fails if artifact and checksum file differ in the digest |
| ReleaseSubjects.VerifiedSubjectsReadBack | cmd/verify-release-assets/main.go:107-123 | verified subjects can always be written; they read back exactly when names are distinct and lines fit, agreeing with the checksum file |
| ReleaseSubjects.LongNameUnreadable | cmd/verify-release-assets/main.go:455-474 | a checksum line that just fits and whose subject, written with one more space, does not |
| ReleaseSubjects.SharedAssigned | cmd/verify-release-assets/main.go:274-310 | a manifest with distinct templates whose selection holds two artifacts of one name |
| ReleaseSubjects.SharedPasses | cmd/verify-release-assets/main.go:339-406 | both of them pass verification |
| ReleaseSubjects.SharedUnreadable | cmd/verify-release-assets/main.go:455-474 | the subjects file written of them does not read back |
| RouteMatching.MatchesIffShared | scripts/check-route-consumers.py:148-160 | two patterns match exactly when some concrete path belongs to both |
| RouteMatching.MatchesSymmetric | scripts/check-route-consumers.py:148-160 | matching is symmetric |
| RouteMatching.BaseIffProperBeginning | scripts/check-route-consumers.py:140-145 | a consumer is a base exactly when it is closed and one of its paths is a proper beginning of the route's filled segments |
| RouteMatching.SegmentsOfRendered | scripts/check-route-consumers.py:151-152 | a rendered path splits back into its segments, with or without a slash at the end |
| RouteMatching.PatternsDenote | scripts/check-route-consumers.py:148-160 | a written pattern stands for the paths that fill it, and with a slash at the end for those that begin with one |
| Reachability.Walk | scripts/check-ui-file-reachability.ts:132-143 | terminates with exactly the modules reachable from the roots along followed imports |
| Reachability.UnreachableModules | scripts/check-ui-file-reachability.ts:118-151 | the relative paths, sorted, of the dead candidates, each as often as it is one |
| Reachability.DeadExactly | scripts/check-ui-file-reachability.ts:114-151 | dead are exactly the candidates that value imports do not reach and that either no import reaches or that have runtime exports |
| Reachability.ChainsReach | scripts/check-ui-file-reachability.ts:132-145 | what a walk reaches is what a chain of value imports, or of all imports, leads to |
| Reachability.DeadByChains | scripts/check-ui-file-reachability.ts:114-151 | a candidate is reported exactly when every chain of imports to it holds a type-only import, and there is none at all or it has runtime exports |
| Graphs.ReachesInTwoPhases | scripts/check-ui-file-reachability.ts:144-145 | walking all edges from what fewer edges reached is walking all edges from the roots |
| Reachability.AffectedPackages | scripts/validate-touched.py:195-211 | terminates with the reverse import closure of the changed packages, plus exactly the packages whose tests import a member |
| Reachability.ClosureIsLeast | scripts/validate-touched.py:195-211 | the closure is the least importer-closed set holding the changed packages |
| Changelog.FindHeadIsFirst | scripts/check-release-changelog.py:102-111 | the heading search returns the first line start where the heading stands |
| Changelog.RepairedCut | scripts/check-release-changelog.py:161-167 | the repair keeps everything before and after the section and extends the section by the lines |
| Changelog.OtherSections | scripts/check-release-changelog.py:161-167 | every other version's section after the repair: what it was, or, exactly if its heading is glued to the repaired one and it has no section before, the text behind that heading |
| Changelog.SurfacesOnce | scripts/check-release-changelog.py:161-167 | at most one version is affected that way |
| ChangelogRepair.MissingEntries | scripts/check-release-changelog.py:170-196 | the checked commits whose needle the section does not contain, in order; a missing section is its own outcome |
| ChangelogRepair.MissingExactly | scripts/check-release-changelog.py:170-196 | reported are exactly the given commits of a checked kind, not the release's own, whose pull request or else hash does not stand in the section |
| ChangelogRepair.ApplyFix | scripts/check-release-changelog.py:138-167 | the text repaired with the note and one entry per missing commit |
| ChangelogRepair.FixConverges | scripts/check-release-changelog.py:138-196 | after the fix the same check finds nothing missing; the old section is kept up to trailing newlines and nothing around it changes |
| ChangelogRepair.FixOtherSections | scripts/check-release-changelog.py:138-167 | the fix leaves the section of every other version as it was, but for that one |
| ChangelogRepair.GluedHeadingAppears | scripts/check-release-changelog.py:138-167 | whichever commits are missing, the fix gives a glued heading a section it did not have |
| ChangelogRepair.EntryMentions | scripts/check-release-changelog.py:119-135 | a rendered entry contains the needle its commit is recognised by |
| ChangelogRepair.EntryEndsWithTitle | scripts/check-release-changelog.py:156-158 | the line ends with the section title of the commit's kind, or with the kind |
| ComponentClasses.ScanLayer | scripts/check-component-variants.py:29-45 | the names the character automaton collects from the layer on |
| ComponentClasses.PreludeExactly | scripts/check-component-variants.py:33-36 | a prelude contributes the classes of what stands between its outer white space, and an at-rule none |
| ComponentClasses.ScanCollectsClasses | scripts/check-component-variants.py:25-45 | for every tree of rules the scan collects exactly the classes of its rules that are not at-rules, at any depth, and nothing after the layer |
| ComponentClasses.ComponentClassNames | scripts/check-component-variants.py:25-45 | the union of what the layers yield |
| ComponentClasses.SheetCollectsClasses | scripts/check-component-variants.py:25-45 | for every sheet whose layers hold printed trees, exactly the classes of the rules of those trees that are not at-rules |

## Left out

- Integer width: counts are unbounded integers, so overflow of a 64-bit recurrence count is not modelled.
- Go map and slice aliasing: evidence maps and record slices are values here.
- Lock acquisition and the Go memory model: a step under one lock is atomic; interleavings are at lock boundaries.
- AnomalyRaces.QuietAgreement: the three overlaps are a sufficient condition, as a later store call can repair what one of them left; the exact condition is AnomalyPast.AgreesExactly.
- AnomalySql.RunsRefine: a restart is left out, as it makes the two engines differ in what the columns lost; AnomalySqlAgreement.SqlRunsKeep covers runs with restarts.
- Upsert batches are all or nothing; a store that applies half a batch is outside the port's contract.
- Acknowledgement columns, retention deletes and the daily census of the anomaly repository.
- Prune over all sources, Len, Defs and EnrichStatic for orphaned rows: the same loops with less to prove.
- JobIdempotency.JobRunner.Submit: why the runner denies a submission (unknown kind, at capacity, closed) is a parameter.
- The durable idempotency table, retention of jobs as a policy, and job execution: the runner is what its callers rely on.
- JobEvents.StreamFaithful: decoded characters rather than UTF-8 bytes; last event ids and reconnection times are not modelled.
- HTTP decoding, authentication, licence checks beyond a set of refused kinds, and error bodies.
- ReleaseSubjects.ReadChecksums: the limit on a line counts characters; in the source it counts bytes.
- Manifest validation and JSON decoding of manifest and artifact catalog.
- Reading routes, consumers, imports and packages out of source files: the gates start from what was read.
- Reachability.UnreachableModules: how a path is made relative is a parameter.
- ChangelogRepair.MissingEntries: commits are given parsed; detection is substring search as in the source, so a longer number can hide a missing one.
- ComponentClasses.ScanCollectsClasses: comments are already removed, and no braces or semicolons stand inside strings.
- ComponentClasses.ComponentClassNames: where the layers begin is given, as a regular expression finds it.
- Bluetooth tables, settings, configuration, installation and command line code.
