# DockerMap: verified models

DockerMap's daemon is a concurrent cache. A publisher replaces the Docker snapshot every two seconds, eight fixed
provider slots are claimed and collected by background workers, and late, failed or timed-out outcomes are folded back
in. Everything it publishes has to satisfy hand-written readers in Rust and TypeScript. This project models that cache
and those readers, together with the pagers, the graph and findings derivations, the Compose edit planner and mount
binding, and the session accounting of the API, and proves what they promise.

`dafny verify dfyconfig.toml` checks everything.

## The modules

| file | what it models |
|---|---|
| `provider_slots.dfy`, `scheduler.dfy`, `scheduler_records.dfy`, `slot_table.dfy`, `worker_runs.dfy`, `worker_bounds.dfy`, `claim_spacing.dfy`, `worker_flips.dfy`, `slot_revisions.dfy`, `late_generation.dfy` | one slot and its public state, the table of slots, exactly which slots a claim starts and what each transition shows, runs of publications, claims, guards and outcomes, the worker budget, the spacing of claims, what source flips do to both, what data revisions stand for, claims that read their generation under a later lock |
| `evidence.dfy`, `evidence_records.dfy`, `runtime_map.dfy`, `map_contents.dfy`, `map_evidence.dfy` | the private markers and the evidence they become, assembly of the published map and exactly what it holds, evidence against slot state over whole runs |
| `cache.dfy`, `cache_runs.dfy`, `cache_records.dfy`, `daemon_runs.dfy`, `daemon_states.dfy`, `served_map.dfy`, `daemon_witness.dfy` | the daemon cache updated in place, its opaque revisions over whole runs and what they stand for, cache and workers together, what every step does to the served states, where the served map comes from, and a run in which the clock alone moves the model revision |
| `history_wire.dfy`, `wire_records.dfy`, `history.dfy`, `history_runs.dfy` | the observed-change history: its two readers and exactly what they admit, the cache that produces it, admissibility, epochs and replay over whole runs |
| `log_pager.dfy`, `calendar.dfy` | both log pagers and their cursor, timestamps and the civil-date formula |
| `graph.dfy`, `graph_theorems.dfy`, `graph_records.dfy` | the topology graph, and what it holds in terms of the records |
| `finding_rules.dfy`, `findings.dfy`, `finding_theorems.dfy`, `finding_facts.dfy`, `finding_pairs.dfy` | the ten advisory rules, their derivation, and what each reports in terms of nodes, relationships and evidence |
| `text_lines.dfy`, `compose_model.dfy`, `compose_edit.dfy`, `compose_records.dfy`, `compose_volume.dfy`, `compose_binding.dfy`, `binding_records.dfy` | the Compose edit plan, what it asks, reports and writes, what it writes on a short volume line, and the missing-mount rule |
| `sessions.dfy`, `session_runs.dfy`, `session_records.dfy` | sessions, event streams and the attempt limiter, over single steps and whole runs |
| `prelude.dfy`, `sorting.dfy`, `decimal.dfy`, `identity.dfy`, `runtime_model.dfy` | sequences, stable sorting, decimal text, identifier components, shared vocabulary |

Code that updates fields or loops over mutable state is a class or a method with loops, proved equal to a function of the
old state; the theorems about whole runs are about those functions. Code made of expressions stays functions. The files
named `_records`, `_facts`, `_contents` and the like state what those functions mean on the plain fields of their inputs,
without naming the functions' own helpers.

## What turned out otherwise

- A timestamp-only Docker publication does move the model revision when the network slot is fresh: the timestamp counts
  as collection evidence, so the slot becomes stale. `CacheRuns.ClockOnlyPublication` gives the exact condition, and
  `DaemonWitness.ClockAloneMovesRevision` a run of the daemon in which it happens.
- Without the assumption that workers take their guards promptly, three workers of one source generation can be live
  although the budget is two. `WorkerBounds.FormulaBoundIsReached` builds the run, and
  `WorkerBounds.FormulaBoundsWorkers` shows three is the most for one generation. Across source flips the sharp bound on
  live workers is the eight slots (`WorkerFlips.LiveWorkersFitTheSlots`), and `WorkerFlips.AllSlotsLive` reaches it.
- An in-flight outcome keeps the old completion time, so a slot can be claimed twice at the same moment of one source
  generation (`ClaimSpacing.InFlightClaimsTwice`), and a flip forgets the completion time, so a slot that completed just
  now can be claimed at the same moment in the next generation (`WorkerFlips.FlipClaimsAtOnce`). What holds in every run
  is that a claim lies an interval behind every earlier completion of its own generation
  (`ClaimSpacing.ClaimsRestAfterCompletion`), and that a window holds one extra claim per attempt that ended in flight
  and per flip (`ClaimSpacing.ClaimsInWindow`).
- The claim that follows an applied outcome reads its source generation under a later lock. When two source flips come
  in between and the new generation has not claimed the slot itself, the outcome can land on a slot without an attempt
  and the browser refuses the published vector; `LateGeneration.LateReadIsRefused` is such a run. When no flip comes in
  between a claim and its read, every vector is accepted (`LateGeneration.TimelyReadsAreAccepted`).
  `ProviderSlots.SuccessAcceptedExactly` and its two neighbours say exactly when each transition is accepted.
- Every source generation counts the data revisions of a slot anew under the one process token, so two different
  collections can be published under one revision (`SlotRevisions.FlipsReissueRevisions`). Within a generation equal
  revisions mean equal collections (`SlotRevisions.EqualSlotRevisionsEqualCollections`).
- Replaying a history step recovers the current inventory exactly at the identities that did not turn from unique to
  ambiguous or back (`History.StepReplaysExactly`).
- A sixty-second window that includes both its ends can hold forty accepted attempts, twenty at each end
  (`SessionRuns.ClosedWindowIsFull`). It never holds more, and more than twenty only when they lie at its two ends
  (`SessionRuns.ClosedWindowHoldsForty`).
- The timestamp parser accepts more than RFC 3339 does. `Calendar.ParseExactly` says which texts it accepts and as what:
  fields of an accepted timestamp from the epoch on, any text that does not continue them, and a final `Z`.
  `Calendar.WellFormedExactly` says which of those are RFC 3339 texts: those with nothing behind the fields and a date
  that exists. `Calendar.ReadsItsOwnDayExactly` says which are read as the day they name: those whose date exists and
  whose time is not 23:59:60.
- An edit of the target of a short volume line goes through without rewriting the target when the target also occurs in
  front of the colon: `./d:/d` with the new target `/s` becomes `./s:/d`
  (`ComposeVolume.TargetEditRewritesSource`). `ComposeVolume.PlanRetargetsExactly` gives the exact condition. An edit of
  a source goes through and rewrites an earlier mount of the line that has the same source
  (`ComposeVolume.SourceEditRewritesNeighbour`); `ComposeVolume.PlanResourcesExactly` says when it does not.

- A cursor the daemon prints need not be admitted back: the request contract takes 32 characters, so two numbers with more
  than 31 digits together are refused (`LogPager.PrintedCursorAdmittedExactly`).
- A Compose edit rewrites every CRLF line end of the file to a line feed, not only the edited line's; the lines as they are
  read stay, except that a line with a further CR in front of its line end loses it
  (`ComposeRecords.ReplacementKeepsLines`).

## Model

| member | source | states |
|---|---|---|
| ProviderSlots.CoherentIsAccepted | apps/api/src/daemonResponseValidation.ts:314-365 | every coherent slot projects to a state the browser's freshness truth table accepts |
| ProviderSlots.OutcomeKeepsCoherence | crates/dockermap-daemon/src/cache_refresh.rs:1210-1272 | any outcome folded into a collecting slot leaves it coherent, whatever it retained and however often it failed |
| ProviderSlots.SuccessAcceptedExactly | crates/dockermap-daemon/src/cache_refresh.rs:1211-1241 | a success is accepted exactly when the slot has an attempt of this generation, the clock is readable, and, unless the slot reports itself disabled, the clock is not behind the attempt |
| ProviderSlots.FailureAcceptedExactly | crates/dockermap-daemon/src/cache_refresh.rs:1244-1272 | a failed, timed-out or in-flight outcome is accepted exactly on a slot with an attempt |
| ProviderSlots.ClaimAcceptedExactly | crates/dockermap-daemon/src/cache_refresh.rs:1153-1160 | a claim is accepted exactly when the wall clock is readable |
| SlotTable.RetainedShows | crates/dockermap-daemon/src/cache_refresh.rs:1810-1865 | whether a slot retains a collection, and whether that reports it disabled, can be read off its public state |
| Scheduler.ClaimDueSlots | crates/dockermap-daemon/src/cache_refresh.rs:1119-1163 | the claiming loop starts the first claimable slots in fixed order as far as the budget goes, and changes no other slot |
| Scheduler.ClaimedIs | crates/dockermap-daemon/src/cache_refresh.rs:1125-1163 | a claim stays within the larger-count budget, takes claimable slots once each, and leaves one out only when the budget is spent |
| SchedulerRecords.ClaimedExactly | crates/dockermap-daemon/src/cache_refresh.rs:1119-1163 | a slot is claimed exactly when it is idle, its own interval of ten, fifteen or sixty seconds has passed since it completed, it is not settled as disabled, and fewer eligible slots come before it in the fixed order than two minus the larger of collecting slots and live workers |
| SchedulerRecords.ClaimStartsThem | crates/dockermap-daemon/src/cache_refresh.rs:1149-1160 | a claimed slot becomes collecting with what it retained, any other slot stays as it is |
| Scheduler.CoherentVectorAccepted | apps/api/src/daemonResponseValidation.ts:300-312 | the projected vector of a coherent table lists every slot exactly once, each in an accepted state |
| WorkerRuns.EveryRunIsCoherent | crates/dockermap-daemon/src/cache_refresh.rs:722-829 | over every run of publications, claims, guards and deliveries each slot stays coherent, tasks own their collecting slots and guards count live workers |
| WorkerRuns.EveryPublishedVectorIsAccepted | crates/dockermap-daemon/src/cache_refresh.rs:1810-1865 | after every run the published vector is complete and accepted by the browser |
| WorkerRuns.MockRetainsNothing | crates/dockermap-daemon/src/cache_refresh.rs:788-797 | no reachable mock cache retains a provider collection |
| WorkerRuns.OneWorkerPerSlot | crates/dockermap-daemon/src/cache_refresh.rs:558-590 | no slot ever has two live workers |
| WorkerBounds.AtMostTwoCollecting | crates/dockermap-daemon/src/cache_refresh.rs:1119-1163 | at most two slots are collecting in any reachable state |
| WorkerBounds.FormulaBoundsWorkers | crates/dockermap-daemon/src/cache_refresh.rs:1125-1132 | live and pending workers of one source generation never exceed 2*MAX-1, unwinding ones included |
| WorkerBounds.FormulaBoundIsReached | crates/dockermap-daemon/src/cache_refresh.rs:1125-1132 | a run in which three workers of one generation are live |
| WorkerFlips.LiveWorkersFitTheSlots | crates/dockermap-daemon/src/cache_refresh.rs:558-590 | live workers of all source generations together never exceed the eight slots |
| WorkerFlips.AllSlotsLive | crates/dockermap-daemon/src/cache_refresh.rs:1125-1132 | a run across source flips in which every slot has a live worker at once |
| WorkerBounds.PromptWorkersFitTheBudget | crates/dockermap-daemon/src/cache_refresh.rs:1165-1178 | if every claim finds earlier tasks at their guards, live workers of all generations never exceed two |
| WorkerBounds.TaskWasClaimed | crates/dockermap-daemon/src/cache_refresh.rs:1165-1178 | every pending task was spawned by an earlier claim of its slot in its generation, and was pending ever since |
| WorkerBounds.CollectingHasOneTask | crates/dockermap-daemon/src/cache_refresh.rs:1165-1205 | in Docker mode a slot is collecting exactly when a task of the running generation is pending for it, and that task is the only one |
| WorkerBounds.OutcomeNeedsItsSource | crates/dockermap-daemon/src/cache_refresh.rs:1190-1205 | an outcome is applied exactly when its worker was claimed in Docker mode and no Docker/mock transition happened since that claim step, and otherwise changes nothing |
| ClaimSpacing.ClaimsRestAfterCompletion | crates/dockermap-daemon/src/cache_refresh.rs:1141-1148 | in every run, in-flight outcomes included, the completion time is that of the last completion in the running generation and each claim lies the slot's interval behind every earlier completion of its generation |
| ClaimSpacing.AttemptsAreSpaced | crates/dockermap-daemon/src/cache_refresh.rs:1141-1148 | while no in-flight outcome of the slot was applied in the running generation, each of its attempts completes before the next begins, at least the slot's interval earlier |
| ClaimSpacing.ClaimsInWindow | crates/dockermap-daemon/src/cache_refresh.rs:1107-1163 | in every run any window of length T holds at most 1 + T/interval claims of a slot, one more per source flip between them and one more per attempt that ended in flight |
| ClaimSpacing.InFlightStaysClaimable | crates/dockermap-daemon/src/cache_refresh.rs:1244-1252 | after an in-flight outcome a claimed slot is claimable again at every later time |
| ClaimSpacing.InFlightClaimsTwice | crates/dockermap-daemon/src/cache_refresh.rs:1244-1252 | a run that claims one slot twice at one moment of one generation, with an in-flight outcome between |
| WorkerFlips.FlipClaimsAtOnce | crates/dockermap-daemon/src/cache_refresh.rs:788-797 | a run that completes a slot and claims it at the same moment in the next Docker generation |
| LateGeneration.TimelyReadsAreAccepted | crates/dockermap-daemon/src/cache_refresh.rs:1276-1290 | with claim and generation read as separate steps, every vector is accepted in runs where no source flip comes between them |
| LateGeneration.LateReadIsRefused | crates/dockermap-daemon/src/cache_refresh.rs:1276-1290 | a run with two flips between a claim and its read whose published vector the browser refuses |
| SlotRevisions.OutcomeAdvancesExactly | crates/dockermap-daemon/src/cache_refresh.rs:1292-1302 | an applied outcome moves a slot's data revision exactly when it brings another collection, and then by one |
| SlotRevisions.EqualSlotRevisionsEqualCollections | crates/dockermap-daemon/src/cache_refresh.rs:1292-1302 | at any two moments of one source generation equal published data revisions of a slot stand for equal collections |
| SlotRevisions.FlipsReissueRevisions | crates/dockermap-daemon/src/cache_refresh.rs:480-502 | a run across two flips that publishes any two given collections of the network slot under the same data revision |
| Evidence.BindEvidence | crates/dockermap-daemon/src/cache_refresh.rs:1420-1775 | each of the four binders rewrites its relationships in place exactly as the slot's attestation says, early exits included |
| Evidence.AttestsExactlyWhenRetained | crates/dockermap-daemon/src/cache_refresh.rs:1447-1461 | the revision-less and success-less exits are unreachable with retained data |
| Evidence.AttestationMatchesState | crates/dockermap-daemon/src/cache_refresh.rs:1427-1446 | with retained data the attested freshness is the slot's public state, and a disabled slot attests nothing |
| Evidence.MarkerNeverSurvives | crates/dockermap-daemon/src/cache_refresh.rs:1458-1497 | every path removes the private marker and nothing else of the relationship |
| Evidence.BoundEdgeEvidence | crates/dockermap-core/src/models.rs:1354-1560 | a relationship carries evidence exactly when correctly marked and the slot is not disabled, and that evidence attests it |
| MapEvidence.PublishedMapIsHonest | crates/dockermap-daemon/src/cache_refresh.rs:1333-1418 | in the map of any coherent cache slot evidence has its slot's public freshness, mock maps carry none and no private marker is left |
| MapEvidence.EveryReachableMapIsHonest | crates/dockermap-daemon/src/cache_refresh.rs:1333-1418 | the same in every reachable state of the daemon |
| MapEvidence.EveryReachableBindingIsExact | crates/dockermap-daemon/src/cache_refresh.rs:1420-1775 | in every reachable state a retained relationship of a binding slot has one piece of evidence or none, as marked |
| EvidenceRecords.MarkedExactly | crates/dockermap-daemon/src/cache_refresh.rs:1420-1775 | which marker text, relationship, source and target make a relationship of each binding slot one that receives evidence, kind by kind |
| EvidenceRecords.BoundOnRecords | crates/dockermap-daemon/src/cache_refresh.rs:1420-1775 | in a coherent slot a retained relationship is published with exactly one piece of evidence, spelled out field by field with the slot's public freshness, revision and success time, when it is marked and the slot is not disabled, and otherwise with none |
| MapContents.PublishedEdgesExactly | crates/dockermap-daemon/src/cache_refresh.rs:1333-1418 | a relationship is published exactly when both ends name published nodes and it is that of a Docker fact, a retained relationship of a slot bound as the slot says and admitted by the host rule on node counts and kinds, without evidence in mock mode, or the collision fact |
| MapContents.DockerIdsTellApart | crates/dockermap-core/src/snapshot_runtime.rs:437-454 | two Docker evidence identifiers are equal only for one kind and pairs of ends of one digest |
| MapContents.PublishedNodesExactly | crates/dockermap-core/src/snapshot_runtime.rs:460-760 | the published nodes are those the slots retain, slot by slot, then the topology's, then the two integrity nodes exactly when the collision fact shows |
| MapContents.PublishedDiagnosticsExactly | crates/dockermap-daemon/src/cache_refresh.rs:1333-1418 | the diagnostics are what the retained collections report, one notice per slot that is not fresh, and one remark for each shared identity |
| RuntimeMaps.PublishedMapIgnoresTime | crates/dockermap-daemon/src/cache_refresh.rs:389-413 | the same facts at another time give the same map up to the volatile markers |
| Cache.DaemonCache.PublishSnapshot | crates/dockermap-daemon/src/cache_refresh.rs:773-829 | a publication's whole new state: slots kept or reset, revisions carried or renewed, map, labels and history |
| Cache.DaemonCache.ClaimDue | crates/dockermap-daemon/src/cache_refresh.rs:1165-1178 | claims due slots and republishes exactly when something was claimed |
| Cache.DaemonCache.ApplyProviderSlotOutcome | crates/dockermap-daemon/src/cache_refresh.rs:1190-1276 | an outcome of another mode or generation changes nothing; any other is folded in and republished |
| DaemonStates.EveryStepShows | crates/dockermap-daemon/src/cache_refresh.rs:1190-1276 | in every run of the daemon each step moves the served state of every slot as the table of public states says; an applied collection shows as fresh exactly when the observed and the published snapshot agree in inventory and observation time, and as stale otherwise, unless it reports the slot disabled |
| ServedMap.RetainedIsLast | crates/dockermap-daemon/src/cache_refresh.rs:1190-1276 | what a slot retains is the last collection applied to it since the source last changed |
| ServedMap.SnapshotIsLastPublished | crates/dockermap-daemon/src/cache_refresh.rs:773-829 | the cache holds mode, inventory, topology, time and health of the last publication |
| ServedMap.ServedEdgesExactly | crates/dockermap-daemon/src/cache_refresh.rs:686-713 | in every reachable daemon the served relationships are exactly those of the last published topology and the last applied collections |
| ServedMap.ServedMapIsPublished | crates/dockermap-daemon/src/cache_refresh.rs:686-713 | the served map is the published map of the cache's own facts, or the empty one a process starts with |
| CacheRecords.RevisionStandsForContents | crates/dockermap-daemon/src/cache_refresh.rs:263-301 | a step keeps the model revision exactly when mode, inventory, health, nodes, diagnostics, provider states and, apart from collection times, relationships stay field by field |
| CacheRecords.EqualRevisionsShowTheSame | crates/dockermap-daemon/src/cache_refresh.rs:263-301 | two moments of one process under one model revision agree in the same fields, however far apart |
| CacheRecords.CollisionTokenAdvancesExactly | crates/dockermap-daemon/src/cache_refresh.rs:686-713 | within one source the collision token moves exactly when two published nodes begin or cease to share an identity |
| CacheRecords.FlipStartsOver | crates/dockermap-daemon/src/cache_refresh.rs:773-829 | a publication from the other source starts history and collision token over, any other keeps the collision token's process |
| CacheRecords.HistoryServedExactly | crates/dockermap-daemon/src/cache_refresh.rs:678-684 | in every run the served history is there exactly in Docker mode, names the model revision of everything served and the token of the Docker evidence, and lists the retained events newest first |
| CacheRecords.TokensTellApart | crates/dockermap-daemon/src/cache_refresh.rs:259-261 | equal revision texts name one process and one number, in the cache as for a slot |
| Cache.SameTokenSameSequence | crates/dockermap-daemon/src/cache_refresh.rs:259-261 | one process's revision texts tell its sequence numbers apart |
| CacheRuns.OneRevisionEverywhere | crates/dockermap-daemon/src/cache_refresh.rs:634-676 | snapshot, health, map and findings carry one revision after every run |
| CacheRuns.RevisionAdvancesExactly | crates/dockermap-daemon/src/cache_refresh.rs:263-301 | a step changes the revision exactly when what routes expose changes, and then by one |
| CacheRuns.EqualRevisionsEqualObservables | crates/dockermap-daemon/src/cache_refresh.rs:263-301 | two moments of one process with equal revisions expose equal observables |
| CacheRuns.DockerTokenAdvancesExactly | crates/dockermap-daemon/src/cache_refresh.rs:263-301 | a step moves the Docker token exactly when mode or public inventory change |
| CacheRuns.EqualDockerTokensEqualInventories | crates/dockermap-daemon/src/cache_refresh.rs:798-829 | two moments of one process with equal Docker tokens show the same mode and inventory, source flips between them included |
| CacheRuns.ClockOnlyPublication | crates/dockermap-daemon/src/cache_refresh.rs:798-829 | a clock-only publication keeps Docker token and collision token, the history events unless the clock ran backwards or out of the safe integers so that the history starts over, and the model revision exactly when the network slot is not fresh or the clock stood still |
| CacheRuns.ReachableClockOnlyPublication | crates/dockermap-daemon/src/cache_refresh.rs:1321-1331 | the same after any run from the first mock cache |
| DaemonWitness.ClockAloneMovesRevision | crates/dockermap-daemon/src/cache_refresh.rs:1321-1331 | a run from the first mock cache, with any inventory, in which a publication one millisecond later moves the model revision |
| CacheRuns.EveryServedHistoryIsAdmitted | crates/dockermap-daemon/src/cache_refresh.rs:686-692 | the history response of every reachable cache passes the daemon's conversion, the schema and the API's checker |
| DaemonRuns.CoreMovesAlike | crates/dockermap-daemon/src/cache_refresh.rs:722-829 | publications, claims and outcomes move the cache's slots as the workers' runs say, and the cache then serves what it moved |
| DaemonRuns.DaemonIsBothRuns | crates/dockermap-daemon/src/cache_refresh.rs:722-829 | the cache of every run of the daemon is a run of the cache alone, and its workers are a run of the workers alone |
| DaemonRuns.EveryDaemonIsLabelled | crates/dockermap-daemon/src/cache_refresh.rs:634-692 | every envelope of every reachable daemon carries the current revision, and its history response is admitted by both readers |
| DaemonRuns.EveryServedMapIsSound | crates/dockermap-daemon/src/cache_refresh.rs:686-713 | in every reachable state of cache and workers together the served map has an accepted complete vector and honest provider evidence |
| HistoryWire.EventIdReadersAgree | crates/dockermap-core/src/models.rs:258-270 | split-and-parse and the API's expression accept the same event identifiers and read the same epoch and sequence |
| HistoryWire.TryFromEvent | crates/dockermap-core/src/models.rs:221-254 | the conversion of one event accepts exactly the coherent ones |
| HistoryWire.TryFromResponse | crates/dockermap-core/src/models.rs:344-396 | the conversion accepts exactly the coherent envelopes whose events are newest-first in one epoch, pairwise |
| HistoryWire.HasCoherentObservedHistory | apps/api/src/daemonResponseValidation.ts:906-956 | the API's single pass accepts exactly the same ordering, pairwise |
| HistoryWire.AdmissionsAgree | apps/api/src/daemonResponseValidation.ts:906-956 | on every response the daemon's conversion with safe times agrees with the schema followed by the checker |
| WireRecords.EventIdExactly | crates/dockermap-core/src/models.rs:258-270 | both readers admit an event identifier exactly when it is 32 lower-hex characters, a dash and the decimal print of a 64-bit number from one |
| WireRecords.EventAdmittedExactly | crates/dockermap-core/src/models.rs:221-281 | an event is admitted exactly when its identifier is and two inventories exist between which its change happens |
| History.ObservedContainerInventory | crates/dockermap-core/src/observed_history.rs:19-39 | an identity with one record is a container with its status, one with several is ambiguous |
| History.InventoryIsCanonical | crates/dockermap-core/src/observed_history.rs:19-39 | one multiset of records has one inventory |
| History.InventoryExactly | crates/dockermap-core/src/observed_history.rs:19-39 | an identity is a container with a status exactly when one record hashes to it, with that status, and ambiguous exactly when two do |
| History.ObservedHistoryCache.ObservePublishedSnapshot | crates/dockermap-daemon/src/cache_refresh.rs:133-187 | the two pushing loops and the rebaselining branch produce the specified new history |
| History.ObservedHistoryCache.PushEvent | crates/dockermap-daemon/src/cache_refresh.rs:189-214 | one event is numbered and only the last 64 are kept |
| History.ObservedHistoryCache.ServeResponse | crates/dockermap-daemon/src/cache_refresh.rs:216-238 | mock or baseline-less responses are empty, others are reversed |
| History.StepReplaysExactly | crates/dockermap-daemon/src/cache_refresh.rs:153-187 | a step's changes turn the previous inventory into the current one exactly at identities whose ambiguity did not flip |
| History.ChangesAreTrue | crates/dockermap-daemon/src/cache_refresh.rs:153-187 | no event names an identity ambiguous on either side or misstates a status |
| History.ChangesExactly | crates/dockermap-daemon/src/cache_refresh.rs:153-187 | a step pushes a change exactly when it states truly, for an identity ambiguous on neither side, that the container came, went or changed status |
| History.ChangesAreOrdered | crates/dockermap-daemon/src/cache_refresh.rs:153-187 | each identity is named once, the gone ones first, each part in rising order |
| HistoryRuns.RunIsCoherent | crates/dockermap-daemon/src/cache_refresh.rs:804-826 | through clock regressions and source flips the history stays coherent and has a baseline exactly in Docker mode |
| HistoryRuns.EveryServedHistoryIsAdmitted | crates/dockermap-core/src/models.rs:344-396 | every served response passes both readers |
| HistoryRuns.EpochReplays | crates/dockermap-daemon/src/cache_refresh.rs:133-214 | retained events are the last 64 of the epoch's complete log, and the log replays to the current inventory at never-ambiguous identities |
| HistoryRuns.UnambiguousEpochReplays | crates/dockermap-daemon/src/cache_refresh.rs:133-214 | without ambiguous identities folding the log over the first baseline gives the whole current inventory |
| HistoryRuns.EpochContinuesExactly | crates/dockermap-daemon/src/cache_refresh.rs:133-187 | over a run a Docker publication keeps token and log and appends its changes exactly when the one before it was Docker's and its own time is a safe integer not before the last one held; otherwise it starts over |
| HistoryRuns.SteadyClockIsOneEpoch | crates/dockermap-daemon/src/cache_refresh.rs:133-187 | Docker publications at safe times that never run backwards are one epoch that counts every change |
| LogPager.CursorRoundTrip | crates/dockermap-core/src/logs.rs:26-43 | parsing a printed cursor gives it back |
| LogPager.PrintedCursorGrammar | crates/dockermap-core/src/logs.rs:26-43 | every cursor the daemon prints has the pattern of the API's request contract and reads there as the same cursor |
| LogPager.PrintedCursorAdmittedExactly | apps/api/src/requestContracts.ts:41 | a cursor the daemon prints is admitted back by the request contract, its 32 characters included, exactly when its two numbers have at most 31 digits together |
| LogPager.CursorReadersAgree | apps/api/src/publication.ts:41-86 | both implementations read the same cursor below 2^53 |
| LogPager.ListingIsStable | crates/dockermap-core/src/logs.rs:64-75 | the listing permutes the matching entries newest first and keeps stream order within a millisecond |
| LogPager.PageLogEntries | crates/dockermap-core/src/logs.rs:55-133 | the daemon's filter, cut and offset arithmetic return the page at the cursor's position; it holds the smaller of what the cursor leaves and the limit clamped to 1 to 500, and there is no next cursor exactly when nothing is left |
| LogPager.PublishLogsResponse | apps/api/src/publication.ts:41-86 | the API's pager returns the page at the cursor's position, with the same size and the same condition for a next cursor |
| LogPager.PagersAgree | apps/api/src/publication.ts:41-86 | both pagers return one page and one next cursor |
| LogPager.CursorGrammarExactly | apps/api/src/requestContracts.ts:41 | a request may name digits, or digits, a colon and digits, and nothing else |
| LogPager.PageHolds | crates/dockermap-core/src/logs.rs:55-133 | a page holds the smaller of what its cursor leaves and the limit clamped to 1 to 500, and a next cursor is there exactly when something is left behind it |
| LogPager.PageIsNext | crates/dockermap-core/src/logs.rs:77-128 | a page holds the first entries behind the cursor: what its millisecond has left in stream order, then the older ones newest first |
| LogPager.ResumeAtCut | crates/dockermap-core/src/logs.rs:77-128 | a cursor cut at a position resumes at that position, inside a run of equal timestamps too |
| LogPager.FollowingReceivesLateEntries | crates/dockermap-core/src/logs.rs:55-133 | following the cursors while newer entries arrive and others are appended at the held millisecond yields the first listing in its order and every appended entry, each once, newest first |
| LogPager.FollowingIsComplete | crates/dockermap-core/src/logs.rs:55-133 | when nothing is appended at a held millisecond, following the cursors yields exactly the first listing |
| LogPager.OnlyNewerAddsNothing | crates/dockermap-core/src/logs.rs:64-75 | a change among strictly newer entries appends nothing at the held millisecond |
| LogPager.FollowingTerminates | crates/dockermap-core/src/logs.rs:55-133 | following ends after at most one request per listed or appended entry |
| Calendar.FormulaCounts | crates/dockermap-core/src/logs.rs:210-228 | the civil-date formula counts days: the day number defined month by month and leap year by leap year |
| Calendar.FormulaCountsDays | crates/dockermap-core/src/logs.rs:210-228 | the formula is zero at 1970-01-01 and grows by one at each next day |
| Calendar.ParseRfc3339NanoMillis | crates/dockermap-core/src/logs.rs:141-206 | the parser with its fraction loop computes the specified result |
| Calendar.ParseIsExact | crates/dockermap-core/src/logs.rs:141-206 | on well-formed UTC timestamps from 1970 the result is the exact millisecond count and nothing overflows |
| Calendar.ParseRefusesEarlier | crates/dockermap-core/src/logs.rs:200-205 | earlier timestamps are refused |
| Calendar.ParseIsMonotone | crates/dockermap-core/src/logs.rs:141-206 | later millisecond-truncated timestamps parse to larger values |
| Calendar.ImpossibleDayRollsOver | crates/dockermap-core/src/logs.rs:168-206 | a day past the month's end is accepted and read as the rolled-over day |
| Calendar.ParseExactly | crates/dockermap-core/src/logs.rs:141-206 | for every string: accepted exactly when it is the fields of an accepted timestamp from the epoch on, text that does not continue them, and a final Z; the value is the exact millisecond count of those unique fields |
| Calendar.WellFormedExactly | crates/dockermap-core/src/logs.rs:141-206 | among the accepted texts the RFC 3339 texts are exactly those with nothing behind the fields and a date that exists |
| Calendar.ReadsItsOwnDayExactly | crates/dockermap-core/src/logs.rs:168-228 | an accepted text is read as one calendar day, its own exactly when its date exists and its time is not 23:59:60 |
| Calendar.IgnoresTrailingText | crates/dockermap-core/src/logs.rs:177-198 | text behind the fields that does not continue them changes nothing, whether they have a fraction or not |
| Graph.DeriveGraph | crates/dockermap-core/src/snapshot_runtime.rs:80-182 | the loops over alias and count maps give the sorted, deduplicated nodes and relationships of the specification |
| Graph.ResolveDependency | crates/dockermap-core/src/snapshot_runtime.rs:285-316 | comparing positions in the alias maps resolves the same container as comparing values |
| Graph.ResolvesExactly | crates/dockermap-core/src/snapshot_runtime.rs:285-316 | a reference resolves to a container exactly when every matching alias matches it alone and one does |
| GraphTheorems.EdgesExactly | crates/dockermap-core/src/snapshot_runtime.rs:121-174 | a relationship is derived exactly when a membership, attachment or dependency with unique identities justifies it |
| GraphTheorems.GraphIsCanonical | crates/dockermap-core/src/snapshot_runtime.rs:176-181 | permuting containers, networks and volumes gives the identical graph |
| GraphTheorems.EdgesAreWellFormed | crates/dockermap-core/src/snapshot_runtime.rs:184-232 | both ends of every relationship name exactly one node and differ |
| GraphRecords.ResolvesOnRecords | crates/dockermap-core/src/snapshot_runtime.rs:285-316 | a reference, a leading container_ stripped for roles and names, resolves to a container exactly when its role, name or identity is the reference, no other container carries it in the same field, and no matching field points elsewhere |
| GraphRecords.EdgesOnRecords | crates/dockermap-core/src/snapshot_runtime.rs:121-174 | the relationships of the graph are exactly the memberships, attachments and dependencies stated on the records with identities that occur once |
| GraphRecords.NodesOnRecords | crates/dockermap-core/src/snapshot_runtime.rs:80-120 | the nodes of the graph are exactly the records' identities with their kinds and names |
| GraphRecords.DependencyExactly | crates/dockermap-core/src/snapshot_runtime.rs:154-172 | two different containers are joined exactly when one declares a reference that means the other on the records and both identities occur once |
| Findings.DeriveFindings | crates/dockermap-core/src/findings.rs:65-506 | counting and acting rule by rule gives the specified findings, and a mock map yields none |
| Findings.UniqueNodes | crates/dockermap-core/src/findings.rs:73-86 | the node index holds exactly the nodes whose identity occurs once |
| Findings.CountRivals | crates/dockermap-core/src/findings.rs:87-177 | a rule's count map counts, per key, exactly the relationships that make it ambiguous |
| Findings.CountEdges | crates/dockermap-core/src/findings.rs:87-177 | one counting loop over the relationships counts, per key, exactly those of the given shape |
| FindingTheorems.SingleEdgeRuleActsExactly | crates/dockermap-core/src/findings.rs:180-467 | a single-edge rule concludes about two ends exactly when the one relationship it counts there is a candidate |
| FindingTheorems.MutualDependencyActsExactly | crates/dockermap-core/src/findings.rs:358-400 | a mutual dependency is reported exactly for one dependency each way, both Compose candidates of one observation, subject the smaller identifier |
| FindingTheorems.DaemonStatePublishesPortActsExactly | crates/dockermap-core/src/findings.rs:318-357 | daemon-state access with a published port is reported exactly for one such and one port relationship of the container, both candidates of one observation |
| FindingTheorems.InternalNetworkPortActsExactly | crates/dockermap-core/src/findings.rs:466-498 | a publishing member of an internal network is reported per listener exactly for one membership and one port relationship, both candidates |
| FindingFacts.SingleRulesReportExactly | crates/dockermap-core/src/findings.rs:180-467 | each of the seven rules that rest on one relationship reports two ends with evidence exactly when the one relationship it counts there has the nodes, statuses, metadata and proof the rule asks for, spelled out rule by rule |
| FindingPairs.MutualReportedExactly | crates/dockermap-core/src/findings.rs:358-400 | two ends are reported as depending on each other exactly for one declared dependency each way, collected together, under the smaller identity and with both proofs |
| FindingPairs.ExposedReportedExactly | crates/dockermap-core/src/findings.rs:318-357 | daemon-state access with a published port is reported exactly for the lone state mount and the container's only port relationship, collected together, with both proofs |
| FindingPairs.LeaksReportedExactly | crates/dockermap-core/src/findings.rs:466-498 | an internal network's member is reported exactly with a listener it publishes to through its only relationship there, with both proofs |
| FindingTheorems.FindingsNameUniqueNodes | crates/dockermap-core/src/findings.rs:73-86 | every subject and target names a node occurring exactly once |
| FindingTheorems.FindingIdsAreDistinct | crates/dockermap-core/src/findings.rs:179-506 | finding identifiers are pairwise distinct when seeds in play do not collide |
| FindingTheorems.FindingsAreCanonical | crates/dockermap-core/src/findings.rs:498-506 | the findings do not depend on the order of nodes or relationships |
| Identity.ComponentDigest | crates/dockermap-core/src/identity.rs:12-36 | equal identifiers carry equal digests whatever stands in front |
| Identity.CollisionResistantComponent | crates/dockermap-core/src/identity.rs:12-36 | the pass over the value gives the specified component |
| Identity.SlugOfRun | crates/dockermap-core/src/identity.rs:15-23 | a run of other characters between plain ones becomes one separator |
| Identity.ReadableIs | crates/dockermap-core/src/identity.rs:24-29 | the readable part is the slug without separators around it, cut to 48 characters, a fixed word when nothing is left, and a short plain value itself |
| ComposeEdit.ReplaceMountLineToken | crates/dockermap-core/src/compose.rs:548-591 | a token is replaced on the one line carrying it and the target, else the text stays and a blocking diagnostic is added |
| ComposeEdit.ReplacementIsLocal | crates/dockermap-core/src/compose.rs:548-591 | for text without CRLF a replacement changes exactly the one candidate line, at the first occurrence |
| ComposeEdit.UnifiedDiff | crates/dockermap-core/src/compose.rs:1250-1286 | the diff loop renders the specified body behind the header |
| ComposeEdit.DiffProjects | crates/dockermap-core/src/compose.rs:1250-1286 | reading the body, context and minus lines give the original lines, context and plus lines the planned ones |
| ComposeEdit.PlanComposeMountEdit | crates/dockermap-core/src/compose.rs:427-546 | the planner's branches and diagnostics give the specified plan |
| ComposeEdit.PlanShowsItsText | crates/dockermap-core/src/compose.rs:535-546 | the diff is empty exactly when blocked or unchanged, and otherwise projects to the two texts |
| ComposeEdit.PlanProceedsExactly | crates/dockermap-core/src/compose.rs:427-533 | a plan goes unblocked exactly when the request is allowed and each token has its one line |
| ComposeEdit.PlanIsLocal | crates/dockermap-core/src/compose.rs:488-533 | an unblocked plan changes at most two lines |
| ComposeRecords.TraversalExactly | crates/dockermap-core/src/compose.rs:1171-1174 | a source is refused for traversal exactly when some component between slashes is two dots |
| ComposeRecords.CleanExactly | crates/dockermap-core/src/compose.rs:435-436 | a request value is exactly what stands between white space, and none when nothing does |
| ComposeRecords.LinesExactly | crates/dockermap-core/src/compose.rs:557-557 | a line ends at a line feed with or without a CR in front, and what follows the last one is a line unless empty |
| ComposeRecords.ReplacesExactly | crates/dockermap-core/src/compose.rs:548-591 | a replacement gives a text exactly when one line carries token and target; the text is then that line's first occurrence replaced and all lines joined by line feeds |
| ComposeRecords.ReplacementKeepsLines | crates/dockermap-core/src/compose.rs:571-590 | whatever ends the lines of a text, a replacement keeps their number and, but for one more CR in front of a line end, every other line |
| ComposeRecords.PlansExactly | crates/dockermap-core/src/compose.rs:427-546 | a plan goes unblocked with a text exactly when mount kind, NUL, path shape and components allow the request and the two replacements give that text |
| ComposeRecords.ReportsExactly | crates/dockermap-core/src/compose.rs:427-533 | for each identifier, a plan reports it exactly when its fault is there, later faults only when the request itself blocks nothing |
| ComposeRecords.DiffMarksExactly | crates/dockermap-core/src/compose.rs:1250-1286 | behind its two header lines a diff marks exactly the lines that differ from the one at the same place, in order |
| ComposeVolume.PlanRetargetsExactly | crates/dockermap-core/src/compose.rs:488-591 | an unblocked target edit of a short volume line, alone or behind any source edit, writes the new target behind the colon when that is its first occurrence, and among tokens without colons exactly when the old target does not stand in front of the colon; otherwise the one in front is rewritten |
| ComposeVolume.PlanResourcesExactly | crates/dockermap-core/src/compose.rs:488-591 | an unblocked source edit writes the new source in its declared place when nothing in front repeats it, and exactly when no earlier colon-terminated part of the line carries it where the source is not repeated after the last colon |
| ComposeVolume.SourceEditRewritesNeighbour | crates/dockermap-core/src/compose.rs:548-591 | the source edit of the second mount of a flow line with equal sources goes through and rewrites the first |
| ComposeVolume.TargetEditRewritesSource | crates/dockermap-core/src/compose.rs:548-591 | the target edit of ./d:/d goes through and yields ./s:/d |
| ComposeBinding.DeriveMountFindings | crates/dockermap-core/src/compose_runtime_binding.rs:51-179 | count maps and the candidate search give the specified findings |
| ComposeBinding.FindCandidate | crates/dockermap-core/src/compose_runtime_binding.rs:110-125 | the first container meeting every condition is the only exactly bound one with a unique identity |
| ComposeBinding.ReportedExactly | crates/dockermap-core/src/compose_runtime_binding.rs:103-176 | mount i of a container is reported exactly when bind or named volume, exactly bound, and unmatched |
| ComposeBinding.OnlyMissingReported | crates/dockermap-core/src/compose_runtime_binding.rs:51-90 | nothing else is reported, and nothing behind a closed gate |
| ComposeBinding.MountFindingIdsAreDistinct | crates/dockermap-core/src/compose_runtime_binding.rs:139-148 | mount finding identifiers are pairwise distinct when seeds do not collide |
| ComposeBinding.ContainerOrderIsIrrelevant | crates/dockermap-core/src/compose_runtime_binding.rs:91-121 | the order of containers does not matter |
| BindingRecords.MissingMountsExactly | crates/dockermap-core/src/compose_runtime_binding.rs:51-236 | something is reported exactly when the gates, spelled out with their bounds, are open and a bind or named volume has one container of its project, files, service and unrepeated identity without a mount of equal kind, target and resolved source; the report's fields are spelled out, and reports come in the order of their identifiers |
| Sessions.SessionAccounting.IssueSession | apps/api/src/index.ts:119-132 | expired sessions go, then the oldest until one more fits, then the new one comes last |
| Sessions.SessionAccounting.ValidSession | apps/api/src/index.ts:134-142 | a session is valid exactly until it expires, and asking about an expired one revokes it |
| Sessions.SessionAccounting.RegisterSessionStream | apps/api/src/index.ts:155-163 | the process cap, then the session cap, decide; an accepted stream is added and counted |
| Sessions.SessionAccounting.UnregisterSessionStream | apps/api/src/index.ts:165-170 | a known stream is removed and uncounted, and an empty set is dropped |
| Sessions.SessionAccounting.LimitSessionAttempts | apps/api/src/index.ts:172-196 | an attempt is refused with its waiting time and no change, or recorded after pushing out the oldest source |
| SessionRuns.EveryRunIsSound | apps/api/src/index.ts:79-170 | in every run the count is the total of all stream sets, no set is empty, and all caps hold |
| SessionRuns.IssuedIsValid | apps/api/src/index.ts:119-142 | right after it was issued a session is valid exactly until it expires |
| SessionRuns.RegisterCountsExactly | apps/api/src/index.ts:155-163 | a registration keeps the cached total exactly when the response is new to the session |
| SessionRuns.WindowHoldsTwenty | apps/api/src/index.ts:172-196 | a source that is not pushed out has at most twenty accepted attempts in any half-open minute |
| SessionRuns.ClosedWindowHoldsForty | apps/api/src/index.ts:179-181 | a closed minute holds at most forty accepted attempts, and more than twenty only when they lie at its two ends |
| SessionRuns.ClosedWindowIsFull | apps/api/src/index.ts:179-181 | a run with forty accepted attempts in a closed minute |
| SessionRuns.RetryAfterSuffices | apps/api/src/index.ts:181-186 | waiting as long as told is enough to be accepted, whatever other operations run meanwhile, refused attempts and being pushed out included |
| SessionRecords.RevokedExactly | apps/api/src/index.ts:150-153 | a revoked session is no longer valid, and every other one is as valid as before |
| SessionRecords.AskingChangesNothing | apps/api/src/index.ts:134-142 | asking about a session changes no answer, then or later |
| SessionRecords.AskingDropsEnded | apps/api/src/index.ts:134-142 | asking about a session that has ended takes out its entry and only that |
| SessionRecords.IssuingKeepsExactly | apps/api/src/index.ts:119-132 | issuing keeps another session exactly when it is alive and fewer than 1023 of those issued behind it are |
| SessionRecords.SessionLastsExactly | apps/api/src/index.ts:119-153 | in every run a freshly issued session is valid exactly until its day is over, unless it is revoked or reissued, a later clock is seen, or more than 1023 sessions are issued behind it |
| SessionRecords.KnownSourceStays | apps/api/src/index.ts:172-196 | an accepted attempt of a known source keeps its place and its recent attempts, and no other source moves |
| SessionRecords.FirstSourceLeaves | apps/api/src/index.ts:188-193 | a new source comes last, and the one that came first leaves exactly when there are 1024 already |
| SessionRecords.AttemptAcceptedExactly | apps/api/src/index.ts:172-196 | in every run an attempt is accepted exactly when fewer than twenty accepted ones lie less than a minute back |
| SessionRecords.RefusedUntilExactly | apps/api/src/index.ts:181-186 | a refused source is refused until its twentieth-last accepted attempt is a minute old and no longer; the seconds it is told are the fewest that suffice |
| SessionRecords.RegistersExactly | apps/api/src/index.ts:155-163 | in every run the process cap decides against all streams there are, the session cap against the session's own |
| SessionRecords.UnregisterUndoes | apps/api/src/index.ts:155-170 | registering adds one stream to its session and none elsewhere, and unregistering it gives the state before |
| SessionRecords.UnregistersExactly | apps/api/src/index.ts:165-170 | unregistering removes exactly this stream |

## Left out

- SHA-256 and random boot tokens: a digest is any function to 64 lower-hex characters, assumed not to collide on the seeds in play; tokens are parameters.
- Redaction: a snapshot is modelled by what is published of it and by the topology derived from it; the secret patterns themselves are not modelled.
- RuntimeMaps.PublishedMapIgnoresTime: does not model the final sort by serialized text and the removal of equal relationships, because the text is not modelled; relationships keep assembly order.
- RuntimeMaps: deriving Docker relationships, host-risk nodes and their gating from container records is not modelled; they arrive as facts with an evidence kind.
- Evidence.BoundEdgeEvidence: does not model the caps of 259 characters on evidence texts nor the fixed summary sentences.
- Findings.DeriveFindings: does not model severities, summaries and recommendations, which are fixed per rule, nor the caps on evidence texts; the Compose mount findings are derived in their own module and not merged.
- WorkerRuns.EveryRunIsCoherent: a claim reads one wall-clock value for all slots it starts, and clocks are readable and never run backwards; a claim carries the generation of its own step, as the refresh tick's does because nothing else publishes, and the other claim is in `LateGeneration`.
- WorkerRuns: collectors, timeouts and guard release are nondeterministic steps; a collection reports Fresh or Disabled for its own slot, carries no evidence, and uses only its own marker.
- HistoryWire.AdmissionsAgree: does not model byte lengths of non-ASCII revision texts nor JSON values of other types; status texts are classified before they enter.
- History.ObservedHistoryCache.PushEvent: does not model the stop on overflow of the 64-bit counter; admissibility is stated for counters that fit.
- LogPager.PublishLogsResponse: does not model the rounding of `Number` on cursors above 2^53.
- LogPager.PagersAgree: does not model the lower-casing of the query; both pagers get the same match predicate and already sanitized entries.
- Calendar.ParseRfc3339NanoMillis: works on characters where the source slices bytes.
- GraphTheorems.GraphIsCanonical: takes the serialized text of nodes and edges as any function that tells them apart.
- ComposeVolume.PlanRetargetsExactly: gives only the sufficient condition for tokens that contain a colon, as drive-letter paths do, because rewriting elsewhere can then produce the same text.
- ComposeVolume.PlanResourcesExactly: gives only the sufficient condition when the source is repeated between the last colon and its own place, for the same reason.
- ComposeEdit.PlanComposeMountEdit: does not model the texts and origins of diagnostics; a path component is what stands between slashes.
- Sessions.SessionAccounting.RevokeSession: does not model ending the responses of the session, which later unregister themselves.
- Sessions.SessionAccounting.LimitSessionAttempts: does not model the route and mode check before it.
- The YAML parser, file discovery, Docker client, HTTP and SSE transport and the React client are not part of this model.
- Counting findings into a summary and deriving images are not modelled: reading one loop settles them, and images take the first matching status.
