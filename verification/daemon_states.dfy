/** How every step of the daemon moves the provider states it serves. */
module DaemonStates {
  import opened Prelude
  import opened RuntimeModel
  import opened Identity
  import opened ProviderSlots
  import opened Scheduler
  import opened SlotTable
  import opened Cache
  import opened DaemonRuns
  import WorkerRuns

  /** The state the daemon serves for a slot. */
  predicate Serves(d: Daemon, slot: ProviderSlot, p: ProviderState) {
    p in d.cache.runtimeMap.providerStates && p.slot == slot
  }

  lemma ServedIs(d: Daemon, slot: ProviderSlot, p: ProviderState, digest: string -> HexDigest)
    requires MapServed(d.cache, digest) && Serves(d, slot, p)
    ensures p == ProjectSlot(slot, d.cache.core.slots[slot])
  {
  }

  /** Two snapshots are the same evidence: one inventory, observed at one time. */
  predicate OneObservation(a: Snapshot, b: Snapshot) {
    a.inventory == b.inventory && a.lastUpdated == b.lastUpdated
  }

  predicate Disables(slot: ProviderSlot, collection: ProviderCollection) {
    collection.states == [CollectedState(slot, ProviderStateKind.Disabled)]
  }

  /** What a step makes of the state served for a slot. */
  predicate StepShows(d: Daemon, step: Step, slot: ProviderSlot, before: ProviderState, after: ProviderState)
    requires WorkerRuns.Enabled(d.workers, WorkerStep(d.cache, step))
  {
    match step
    case Publication(u, _, _) =>
      if u.mode != d.cache.core.mode then ShowsReset(after)
      else if slot == NetworkInfrastructure && !OneObservation(d.cache.snapshot, u.snapshot) then ShowsStale(before, after)
      else after == before
    case ClaimTick(now, wall) =>
      if slot in Claimed(d.cache.core.slots, now, |d.workers.guards|) then ShowsClaim(before, after, wall)
      else after == before
    case Outcome(i, observed, outcome, now, wall) =>
      var task := d.workers.tasks[i];
      if slot != task.slot || d.cache.core.mode != Docker || d.cache.core.generation != task.generation then after == before
      else (match outcome
            case Collected(collection) =>
              ShowsCollection(before, after, Disables(slot, collection), OneObservation(d.cache.snapshot, observed), wall)
            case _ => ShowsFailure(before, after, !outcome.Failed?))
    case _ => after == before
  }

  lemma PublicationShows(c: Core, mode: RuntimeMode, same: bool, slot: ProviderSlot, clock: nat)
    requires CoreCoherent(c, clock)
    ensures var before := ProjectSlot(slot, c.slots[slot]);
            var after := ProjectSlot(slot, PublishCore(c, mode, same).slots[slot]);
            if mode != c.mode then ShowsReset(after)
            else if slot == NetworkInfrastructure && !same then ShowsStale(before, after)
            else after == before
  {
    ResetShows(slot);
    StaleShows(slot, c.slots[slot], clock);
  }

  lemma TickShows(c: Core, now: nat, active: nat, wall: nat, slot: ProviderSlot, clock: nat)
    requires CoreCoherent(c, clock)
    ensures var before := ProjectSlot(slot, c.slots[slot]);
            var after := ProjectSlot(slot, ClaimCore(c, now, active, Some(wall)).slots[slot]);
            if slot in Claimed(c.slots, now, active) then ShowsClaim(before, after, wall) else after == before
  {
    ClaimShows(slot, c.slots[slot], clock, wall);
  }

  lemma DeliveryShows(c: Core, slot: ProviderSlot, outcome: ProviderSlots.Outcome, same: bool, now: nat, clock: nat, wall: nat,
                      boot: string)
    requires CoreCoherent(c, clock) && c.mode == Docker && c.slots[slot].observation.Collecting? && OwnOutcome(slot, outcome)
    ensures var before := ProjectSlot(slot, c.slots[slot]);
            var after := ProjectSlot(slot, OutcomeCore(c, slot, Docker, c.generation, outcome, same, now, Some(wall), boot).slots[slot]);
            match outcome
            case Collected(collection) => ShowsCollection(before, after, Disables(slot, collection), same, wall)
            case _ => ShowsFailure(before, after, !outcome.Failed?)
  {
    match outcome
    case Collected(collection) => CollectionShows(slot, c.slots[slot], collection, same, now, clock, wall, boot);
    case _ => FailureShows(slot, c.slots[slot], outcome, same, now, clock, wall, boot);
  }

  lemma OutcomeStepShows(d: Daemon, step: Step, boot: string, digest: string -> HexDigest, next: Daemon, slot: ProviderSlot,
                         before: ProviderState, after: ProviderState)
    requires step.Outcome? && Aligned(d, digest) && WorkerRuns.Enabled(d.workers, WorkerStep(d.cache, step))
    requires next == NextDaemon(d, step, boot, digest)
    requires before == ProjectSlot(slot, d.cache.core.slots[slot]) && after == ProjectSlot(slot, next.workers.core.slots[slot])
    ensures StepShows(d, step, slot, before, after)
  {
    var task, c := d.workers.tasks[step.task], d.workers.core;
    var same := SameCollectionEvidence(d.cache.snapshot, step.observed);
    assert WorkerRuns.TaskOwned(d.workers, step.task);
    WorkerRuns.OutcomeMovesOneSlot(c, task.slot, task.mode, task.generation, step.outcome, same, step.now, Some(step.wall), boot);
    if slot == task.slot && c.mode == Docker && c.generation == task.generation {
      DeliveryShows(c, slot, step.outcome, same, step.now, d.workers.clock, step.wall, boot);
    }
  }

  lemma StepShowsInWorkers(d: Daemon, step: Step, boot: string, digest: string -> HexDigest, next: Daemon, slot: ProviderSlot,
                           before: ProviderState, after: ProviderState)
    requires Aligned(d, digest) && WorkerRuns.Enabled(d.workers, WorkerStep(d.cache, step))
    requires next == NextDaemon(d, step, boot, digest)
    requires before == ProjectSlot(slot, d.cache.core.slots[slot]) && after == ProjectSlot(slot, next.workers.core.slots[slot])
    ensures StepShows(d, step, slot, before, after)
  {
    match step
    case Publication(u, _, _) =>
      PublicationShows(d.workers.core, u.mode, SameCollectionEvidence(d.cache.snapshot, u.snapshot), slot, d.workers.clock);
    case ClaimTick(now, wall) => TickShows(d.workers.core, now, |d.workers.guards|, wall, slot, d.workers.clock);
    case Outcome(_, _, _, _, _) => OutcomeStepShows(d, step, boot, digest, next, slot, before, after);
    case _ =>
  }

  /**
   In every reachable daemon each step moves the served state of each slot as the table says. In particular a
   collection shows as fresh exactly when the snapshot it observed is the published one, inventory and time alike.
   */
  lemma EveryStepShows(u: Update, a: BootToken, b: BootToken, model: BootToken, token: BootToken, steps: seq<Step>,
                       boot: string, digest: string -> HexDigest, d: Daemon, step: Step, next: Daemon, slot: ProviderSlot,
                       before: ProviderState, after: ProviderState)
    requires RunDaemon(InitialCache(u, a, b, model, token), steps, boot, digest) == Some(d)
    requires WorkerRuns.Enabled(d.workers, WorkerStep(d.cache, step)) && next == NextDaemon(d, step, boot, digest)
    requires Serves(d, slot, before) && Serves(next, slot, after)
    ensures StepShows(d, step, slot, before, after)
  {
    InitialIsServed(u, a, b, model, token, digest);
    EveryRunIsAligned(InitialCache(u, a, b, model, token), steps, boot, digest);
    StepKeepsAlignment(d, step, boot, digest, next);
    ServedIs(d, slot, before, digest);
    ServedIs(next, slot, after, digest);
    StepShowsInWorkers(d, step, boot, digest, next, slot, before, after);
  }
}
