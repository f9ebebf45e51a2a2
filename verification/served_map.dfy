/** The map the daemon serves, traced back to the run: the last snapshot published and the last collections applied. */
module ServedMap {
  import opened Prelude
  import opened RuntimeModel
  import opened Identity
  import opened ProviderSlots
  import opened Scheduler
  import opened RuntimeMaps
  import opened MapContents
  import opened Cache
  import opened DaemonRuns
  import WorkerRuns
  import CacheRuns

  /** The last update published; the one the process started with, if none was. */
  function LastUpdate(first: Update, steps: seq<Step>): Update {
    if steps == [] then first
    else match steps[|steps| - 1]
      case Publication(u, _, _) => u
      case _ => LastUpdate(first, steps[..|steps| - 1])
  }

  /** The outcome is one of this slot, of the source generation it is delivered in. */
  predicate AppliesTo(d: Daemon, task: nat, slot: ProviderSlot) {
    && task < |d.workers.tasks| && d.workers.tasks[task].slot == slot
    && d.cache.core.mode == Docker && d.cache.core.generation == d.workers.tasks[task].generation
  }

  /** What one step does to the collection a slot retains. */
  function Kept(d: Daemon, step: Step, slot: ProviderSlot, before: Option<ProviderCollection>): Option<ProviderCollection> {
    match step
    case Publication(u, _, _) => if u.mode != d.cache.core.mode then None else before
    case Outcome(i, _, outcome, _, _) =>
      if AppliesTo(d, i, slot) && outcome.Collected? then Some(outcome.collection) else before
    case _ => before
  }

  /** The last collection applied to a slot since the source last changed. */
  function LastCollection(start: CacheState, steps: seq<Step>, boot: string, digest: string -> HexDigest, slot: ProviderSlot)
    : Option<ProviderCollection>
    requires RunDaemon(start, steps, boot, digest).Some?
  {
    if steps == [] then None
    else
      var front := steps[..|steps| - 1];
      var d, earlier := RunDaemon(start, front, boot, digest).value, LastCollection(start, front, boot, digest, slot);
      Kept(d, steps[|steps| - 1], slot, earlier)
  }

  lemma OutcomeRetains(c: Core, slot: ProviderSlot, other: ProviderSlot, generation: nat, outcome: ProviderSlots.Outcome,
                       same: bool, now: nat, wall: nat, boot: string, next: Core)
    requires next == OutcomeCore(c, slot, Docker, generation, outcome, same, now, Some(wall), boot)
    ensures RetainedCollection(next.slots[other].observation)
            == if other == slot && c.mode == Docker && c.generation == generation && outcome.Collected?
               then Some(outcome.collection) else RetainedCollection(c.slots[other].observation)
  {
    WorkerRuns.OutcomeMovesOneSlot(c, slot, Docker, generation, outcome, same, now, Some(wall), boot);
  }

  lemma PublicationRetains(c: Core, mode: RuntimeMode, same: bool, slot: ProviderSlot)
    ensures RetainedCollection(PublishCore(c, mode, same).slots[slot].observation)
            == if mode != c.mode then None else RetainedCollection(c.slots[slot].observation)
  {
  }

  lemma ClaimRetains(c: Core, now: nat, active: nat, wall: nat, slot: ProviderSlot)
    ensures RetainedCollection(ClaimCore(c, now, active, Some(wall)).slots[slot].observation)
            == RetainedCollection(c.slots[slot].observation)
  {
  }

  lemma OutcomeStepRetains(d: Daemon, step: Step, boot: string, next: WorkerRuns.System, slot: ProviderSlot)
    requires step.Outcome? && WorkerRuns.Enabled(d.workers, WorkerStep(d.cache, step))
    requires d.workers.tasks[step.task].mode == Docker && d.cache.core == d.workers.core
    requires next == WorkerRuns.Next(d.workers, WorkerStep(d.cache, step), boot)
    ensures RetainedCollection(next.core.slots[slot].observation)
            == Kept(d, step, slot, RetainedCollection(d.workers.core.slots[slot].observation))
  {
    var task, c := d.workers.tasks[step.task], d.workers.core;
    OutcomeRetains(c, task.slot, slot, task.generation, step.outcome, SameCollectionEvidence(d.cache.snapshot, step.observed),
                   step.now, step.wall, boot, next.core);
  }

  lemma PublicationStepRetains(d: Daemon, step: Step, boot: string, next: WorkerRuns.System, slot: ProviderSlot)
    requires step.Publication? && WorkerRuns.Enabled(d.workers, WorkerStep(d.cache, step))
    requires d.cache.core == d.workers.core && next == WorkerRuns.Next(d.workers, WorkerStep(d.cache, step), boot)
    ensures RetainedCollection(next.core.slots[slot].observation)
            == Kept(d, step, slot, RetainedCollection(d.workers.core.slots[slot].observation))
  {
    PublicationRetains(d.workers.core, step.update.mode, SameCollectionEvidence(d.cache.snapshot, step.update.snapshot), slot);
  }

  lemma ClaimStepRetains(d: Daemon, step: Step, boot: string, next: WorkerRuns.System, slot: ProviderSlot)
    requires step.ClaimTick? && WorkerRuns.Enabled(d.workers, WorkerStep(d.cache, step))
    requires next == WorkerRuns.Next(d.workers, WorkerStep(d.cache, step), boot)
    ensures RetainedCollection(next.core.slots[slot].observation) == RetainedCollection(d.workers.core.slots[slot].observation)
  {
    ClaimRetains(d.workers.core, step.now, |d.workers.guards|, step.wall, slot);
  }

  lemma StepRetains(d: Daemon, step: Step, boot: string, next: WorkerRuns.System, slot: ProviderSlot)
    requires WorkerRuns.Enabled(d.workers, WorkerStep(d.cache, step)) && d.cache.core == d.workers.core
    requires step.Outcome? ==> d.workers.tasks[step.task].mode == Docker
    requires next == WorkerRuns.Next(d.workers, WorkerStep(d.cache, step), boot)
    ensures RetainedCollection(next.core.slots[slot].observation)
            == Kept(d, step, slot, RetainedCollection(d.workers.core.slots[slot].observation))
  {
    if step.Publication? {
      PublicationStepRetains(d, step, boot, next, slot);
    } else if step.ClaimTick? {
      ClaimStepRetains(d, step, boot, next, slot);
    } else if step.Outcome? {
      OutcomeStepRetains(d, step, boot, next, slot);
    }
  }

  lemma AlignedStepRetains(d: Daemon, step: Step, boot: string, digest: string -> HexDigest, next: WorkerRuns.System,
                           slot: ProviderSlot)
    requires Aligned(d, digest) && WorkerRuns.Enabled(d.workers, WorkerStep(d.cache, step))
    requires next == WorkerRuns.Next(d.workers, WorkerStep(d.cache, step), boot)
    ensures RetainedCollection(next.core.slots[slot].observation)
            == Kept(d, step, slot, RetainedCollection(d.workers.core.slots[slot].observation))
  {
    StepRetains(d, step, boot, next, slot);
  }

  lemma {:induction false} RetainedIsLast(start: CacheState, steps: seq<Step>, boot: string, digest: string -> HexDigest,
                                          d: Daemon, slot: ProviderSlot)
    requires start.core == STARTED && MapServed(start, digest) && RunDaemon(start, steps, boot, digest) == Some(d)
    ensures RetainedCollection(d.cache.core.slots[slot].observation) == LastCollection(start, steps, boot, digest, slot)
  {
    EveryRunIsAligned(start, steps, boot, digest);
    if steps != [] {
      var front, step := steps[..|steps| - 1], steps[|steps| - 1];
      var before := RunDaemon(start, front, boot, digest).value;
      EveryRunIsAligned(start, front, boot, digest);
      RetainedIsLast(start, front, boot, digest, before, slot);
      AlignedStepRetains(before, step, boot, digest, d.workers, slot);
    }
  }

  predicate Holds(c: CacheState, u: Update) {
    && c.core.mode == u.mode && c.snapshot.inventory == u.snapshot.inventory && c.snapshot.topology == u.snapshot.topology
    && c.snapshot.lastUpdated == u.snapshot.lastUpdated
    && c.health.dockerReachable == u.health.dockerReachable && c.health.message == u.health.message
  }

  lemma StepHolds(d: Daemon, step: Step, boot: string, digest: string -> HexDigest, u: Update)
    requires WorkerRuns.Enabled(d.workers, WorkerStep(d.cache, step))
    requires Holds(d.cache, u)
    ensures Holds(NextDaemon(d, step, boot, digest).cache, if step.Publication? then step.update else u)
  {
  }

  /** The cache holds what was last published: mode, inventory, topology, observation time and health. */
  lemma {:induction false} SnapshotIsLastPublished(first: Update, start: CacheState, steps: seq<Step>, boot: string,
                                                   digest: string -> HexDigest, d: Daemon)
    requires Holds(start, first) && RunDaemon(start, steps, boot, digest) == Some(d)
    ensures Holds(d.cache, LastUpdate(first, steps))
  {
    if steps != [] {
      var front := steps[..|steps| - 1];
      var before := RunDaemon(start, front, boot, digest).value;
      SnapshotIsLastPublished(first, start, front, boot, digest, before);
      StepHolds(before, steps[|steps| - 1], boot, digest, LastUpdate(first, front));
    }
  }

  lemma InitialHolds(u: Update, a: BootToken, b: BootToken, model: BootToken, token: BootToken)
    requires u.mode == Mock
    ensures Holds(InitialCache(u, a, b, model, token), u)
  {
  }

  /**
   In every reachable Docker daemon a relationship is served exactly when it states a fact of the last published
   snapshot between published nodes, or is a relationship of the collection a slot last had applied, bound as its slot
   says and let through by the host rule, or is the collision fact.
   */
  lemma ServedEdgesExactly(u: Update, a: BootToken, b: BootToken, model: BootToken, token: BootToken, steps: seq<Step>,
                           boot: string, digest: string -> HexDigest, d: Daemon, edge: RuntimeEdge)
    requires u.mode == Mock && RunDaemon(InitialCache(u, a, b, model, token), steps, boot, digest) == Some(d)
    requires d.cache.core.mode == Docker
    ensures var s, slots := LastUpdate(u, steps).snapshot, d.cache.core.slots;
            var docker, integrity := Current(d.cache.dockerRevision), Current(d.cache.integrityRevision);
            edge in d.cache.runtimeMap.edges
            <==> || Ordinary(s.topology, s.lastUpdated, Docker, slots, docker, digest, edge)
                 || (CollisionShown(s.topology, Docker, slots, integrity) && StatesCollision(edge, s.lastUpdated, integrity))
    ensures forall slot: ProviderSlot ::
              RetainedCollection(d.cache.core.slots[slot].observation)
              == LastCollection(InitialCache(u, a, b, model, token), steps, boot, digest, slot)
  {
    var start := InitialCache(u, a, b, model, token);
    InitialIsServed(u, a, b, model, token, digest);
    InitialHolds(u, a, b, model, token);
    SnapshotIsLastPublished(u, start, steps, boot, digest, d);
    EveryRunIsAligned(start, steps, boot, digest);
    ServedEdgeIs(d.cache, digest, edge);
    forall slot: ProviderSlot
      ensures RetainedCollection(d.cache.core.slots[slot].observation) == LastCollection(start, steps, boot, digest, slot)
    {
      RetainedIsLast(start, steps, boot, digest, d, slot);
    }
  }

  lemma ServedEdgeIs(c: CacheState, digest: string -> HexDigest, edge: RuntimeEdge)
    requires MapServed(c, digest) && c.core.mode == Docker
    ensures var s, slots := c.snapshot, c.core.slots;
            var docker, integrity := Current(c.dockerRevision), Current(c.integrityRevision);
            edge in c.runtimeMap.edges
            <==> || Ordinary(s.topology, s.lastUpdated, Docker, slots, docker, digest, edge)
                 || (CollisionShown(s.topology, Docker, slots, integrity) && StatesCollision(edge, s.lastUpdated, integrity))
  {
    PublishedEdgesExactly(c.snapshot.topology, c.snapshot.lastUpdated, Docker, c.core.slots, Current(c.dockerRevision),
                          Current(c.integrityRevision), digest, edge);
  }

  /** The served nodes and diagnostics are those of the same map. */
  lemma ServedMapIsPublished(u: Update, a: BootToken, b: BootToken, model: BootToken, token: BootToken, steps: seq<Step>,
                             boot: string, digest: string -> HexDigest, d: Daemon)
    requires u.mode == Mock && RunDaemon(InitialCache(u, a, b, model, token), steps, boot, digest) == Some(d)
    requires d.cache.core.mode == Docker
    ensures var s := LastUpdate(u, steps).snapshot;
            var m := PublishedMap(s.topology, s.lastUpdated, Docker, d.cache.core.slots, Current(d.cache.dockerRevision),
                                  Current(d.cache.integrityRevision), digest);
            d.cache.runtimeMap == m.(modelRevision := d.cache.runtimeMap.modelRevision)
  {
    var start := InitialCache(u, a, b, model, token);
    InitialIsServed(u, a, b, model, token, digest);
    InitialHolds(u, a, b, model, token);
    SnapshotIsLastPublished(u, start, steps, boot, digest, d);
    EveryRunIsAligned(start, steps, boot, digest);
  }
}
