/**
 The daemon as a whole: the cache together with its background workers. What the cache serves in any reachable
 state satisfies the readers of provider states and of provider evidence.
 */
module DaemonRuns {
  import opened Prelude
  import opened RuntimeModel
  import opened Identity
  import opened ProviderSlots
  import opened Scheduler
  import opened RuntimeMaps
  import opened History
  import opened Cache
  import WorkerRuns
  import CacheRuns
  import MapEvidence
  import HistoryWire

  datatype Daemon = Daemon(cache: CacheState, workers: WorkerRuns.System)

  datatype Step =
    | Publication(update: Update, inventory: Inventory, tokens: Tokens)
    | ClaimTick(now: nat, wall: nat)
    | TakeGuard(task: nat)
    | Exit(worker: nat)
    | Outcome(task: nat, observed: Snapshot, outcome: ProviderSlots.Outcome, now: nat, wall: nat)

  /** The step as the workers see it; whether evidence is the same is decided by the cache. */
  function WorkerStep(c: CacheState, step: Step): WorkerRuns.Step {
    match step
    case Publication(u, _, _) => WorkerRuns.Publish(u.mode, SameCollectionEvidence(c.snapshot, u.snapshot))
    case ClaimTick(now, wall) => WorkerRuns.Claim(now, wall)
    case TakeGuard(task) => WorkerRuns.TakeGuard(task)
    case Exit(worker) => WorkerRuns.Release(worker)
    case Outcome(task, observed, outcome, now, wall) =>
      WorkerRuns.Deliver(task, outcome, SameCollectionEvidence(c.snapshot, observed), now, wall)
  }

  /** The step as the cache sees it; guards are none of its business. */
  function CacheAfter(d: Daemon, step: Step, boot: string, digest: string -> HexDigest): CacheState
    requires WorkerRuns.Enabled(d.workers, WorkerStep(d.cache, step))
  {
    match step
    case Publication(u, inventory, tokens) => PublishCache(d.cache, u, inventory, tokens, digest)
    case ClaimTick(now, wall) => ClaimCache(d.cache, now, |d.workers.guards|, Some(wall), digest)
    case TakeGuard(_) => d.cache
    case Exit(_) => d.cache
    case Outcome(i, observed, outcome, now, wall) =>
      var task := d.workers.tasks[i];
      DeliverCache(d.cache, Delivery(task.slot, observed, task.mode, task.generation, outcome, now, Some(wall), boot), digest)
  }

  function NextDaemon(d: Daemon, step: Step, boot: string, digest: string -> HexDigest): Daemon
    requires WorkerRuns.Enabled(d.workers, WorkerStep(d.cache, step))
  {
    Daemon(CacheAfter(d, step, boot, digest), WorkerRuns.Next(d.workers, WorkerStep(d.cache, step), boot))
  }

  function RunDaemon(start: CacheState, steps: seq<Step>, boot: string, digest: string -> HexDigest): Option<Daemon> {
    if steps == [] then Some(Daemon(start, WorkerRuns.INITIAL))
    else match RunDaemon(start, steps[..|steps| - 1], boot, digest)
      case None => None
      case Some(d) =>
        var step := steps[|steps| - 1];
        if WorkerRuns.Enabled(d.workers, WorkerStep(d.cache, step)) then Some(NextDaemon(d, step, boot, digest)) else None
  }

  /** The served map is the one derived from the current state, or, in mock mode, still the empty map of the start. */
  predicate MapServed(c: CacheState, digest: string -> HexDigest) {
    && c.runtimeMap.providerStates == ProviderStatesFor(c.core.slots)
    && (c.runtimeMap == CacheRuns.DerivedMap(c, digest).(modelRevision := c.runtimeMap.modelRevision)
        || (c.core.mode == Mock && c.runtimeMap.nodes == [] && c.runtimeMap.edges == [] && c.runtimeMap.diagnostics == []))
  }

  ghost predicate Aligned(d: Daemon, digest: string -> HexDigest) {
    && d.cache.core == d.workers.core
    && WorkerRuns.Coherent(d.workers)
    && (forall i :: 0 <= i < |d.workers.tasks| ==> d.workers.tasks[i].mode == Docker)
    && MapServed(d.cache, digest)
  }

  lemma RepublishServes(c: CacheState, digest: string -> HexDigest)
    ensures Republish(c, digest).core == c.core && MapServed(Republish(c, digest), digest)
  {
  }

  lemma HistoryIsNotServed(c: CacheState, h: HistoryState, digest: string -> HexDigest)
    requires MapServed(c, digest)
    ensures MapServed(c.(history := h), digest)
  {
  }

  lemma PublicationServes(c: CacheState, u: Update, inventory: Inventory, tokens: Tokens, digest: string -> HexDigest)
    ensures var next := PublishCache(c, u, inventory, tokens, digest);
            && next.core == PublishCore(c.core, u.mode, SameCollectionEvidence(c.snapshot, u.snapshot))
            && MapServed(next, digest)
  {
    RepublishServes(Replace(c, u, tokens), digest);
    var next := Republish(Replace(c, u, tokens), digest);
    HistoryIsNotServed(next, Observe(next.history, inventory, u.snapshot.lastUpdated, tokens.epoch), digest);
  }

  lemma ClaimServes(c: CacheState, now: nat, active: nat, wall: nat, digest: string -> HexDigest)
    requires MapServed(c, digest)
    ensures var next := ClaimCache(c, now, active, Some(wall), digest);
            next.core == ClaimCore(c.core, now, active, Some(wall)) && MapServed(next, digest)
  {
    NothingStarted(c.core.slots, Some(wall));
    RepublishServes(c.(core := ClaimCore(c.core, now, active, Some(wall))), digest);
  }

  lemma DeliveryServes(c: CacheState, d: Delivery, digest: string -> HexDigest)
    requires MapServed(c, digest)
    ensures var next := DeliverCache(c, d, digest);
            && next.core == OutcomeCore(c.core, d.slot, d.mode, d.generation, d.outcome,
                                        SameCollectionEvidence(c.snapshot, d.observed), d.completedAt, d.wall, d.boot)
            && MapServed(next, digest)
  {
    RepublishServes(c.(core := OutcomeCore(c.core, d.slot, d.mode, d.generation, d.outcome,
                                           SameCollectionEvidence(c.snapshot, d.observed), d.completedAt, d.wall, d.boot)),
                    digest);
  }

  /** Cache and workers move their common core alike, and the cache serves what it moved. */
  lemma CoreMovesAlike(d: Daemon, step: Step, boot: string, digest: string -> HexDigest)
    requires d.cache.core == d.workers.core && MapServed(d.cache, digest)
    requires WorkerRuns.Enabled(d.workers, WorkerStep(d.cache, step))
    ensures var next := NextDaemon(d, step, boot, digest);
            next.cache.core == next.workers.core && MapServed(next.cache, digest)
  {
    match step
    case Publication(u, inventory, tokens) => PublicationServes(d.cache, u, inventory, tokens, digest);
    case ClaimTick(now, wall) => ClaimServes(d.cache, now, |d.workers.guards|, wall, digest);
    case Outcome(i, observed, outcome, now, wall) =>
      var task := d.workers.tasks[i];
      DeliveryServes(d.cache, Delivery(task.slot, observed, task.mode, task.generation, outcome, now, Some(wall), boot), digest);
    case _ =>
  }

  lemma {:induction false} EveryRunIsAligned(start: CacheState, steps: seq<Step>, boot: string, digest: string -> HexDigest)
    requires start.core == STARTED && MapServed(start, digest)
    ensures RunDaemon(start, steps, boot, digest).Some? ==> Aligned(RunDaemon(start, steps, boot, digest).value, digest)
  {
    if steps == [] {
      WorkerRuns.EveryRunIsCoherent([], boot);
    } else if RunDaemon(start, steps, boot, digest).Some? {
      var front, step := steps[..|steps| - 1], steps[|steps| - 1];
      EveryRunIsAligned(start, front, boot, digest);
      var d := RunDaemon(start, front, boot, digest).value;
      StepKeepsAlignment(d, step, boot, digest, NextDaemon(d, step, boot, digest));
    }
  }

  lemma StepKeepsAlignment(d: Daemon, step: Step, boot: string, digest: string -> HexDigest, next: Daemon)
    requires Aligned(d, digest) && WorkerRuns.Enabled(d.workers, WorkerStep(d.cache, step))
    requires next == NextDaemon(d, step, boot, digest)
    ensures Aligned(next, digest)
  {
    CoreMovesAlike(d, step, boot, digest);
    WorkerRuns.NextIsCoherent(d.workers, WorkerStep(d.cache, step), boot);
  }

  lemma InitialIsServed(u: Update, a: BootToken, b: BootToken, model: BootToken, token: BootToken,
                        digest: string -> HexDigest)
    ensures var start := InitialCache(u, a, b, model, token); start.core == STARTED && MapServed(start, digest)
  {
  }

  /**
   From the first mock cache on, through any publications, claims and outcomes, the map the cache serves lists every
   slot exactly once in a state the browser accepts, and every piece of provider evidence in it attests its
   relationship at exactly the public freshness of its slot, with no private marker left.
   */
  lemma EveryServedMapIsSound(u: Update, a: BootToken, b: BootToken, model: BootToken, token: BootToken,
                              steps: seq<Step>, boot: string, digest: string -> HexDigest, d: Daemon)
    requires RunDaemon(InitialCache(u, a, b, model, token), steps, boot, digest) == Some(d)
    ensures VectorAccepted(d.cache.runtimeMap.providerStates)
    ensures forall edge :: edge in d.cache.runtimeMap.edges ==> MapEvidence.EdgeHonest(d.cache.core.slots, edge)
    ensures d.cache.core.mode == Mock ==> forall edge :: edge in d.cache.runtimeMap.edges ==> edge.evidenceRefs == []
  {
    InitialIsServed(u, a, b, model, token, digest);
    EveryRunIsAligned(InitialCache(u, a, b, model, token), steps, boot, digest);
    CoherentVectorAccepted(d.cache.core, d.workers.clock);
    forall edge | edge in d.cache.runtimeMap.edges
      ensures MapEvidence.EdgeHonest(d.cache.core.slots, edge)
      ensures d.cache.core.mode == Mock ==> edge.evidenceRefs == []
    {
      ServedEdgeIsHonest(d.cache, d.workers.clock, digest, edge);
    }
  }

  lemma ServedEdgeIsHonest(c: CacheState, clock: nat, digest: string -> HexDigest, edge: RuntimeEdge)
    requires CoreCoherent(c.core, clock) && MapServed(c, digest) && edge in c.runtimeMap.edges
    ensures MapEvidence.EdgeHonest(c.core.slots, edge)
    ensures c.core.mode == Mock ==> edge.evidenceRefs == []
  {
    MapEvidence.PublishedMapIsHonest(c.snapshot.topology, c.snapshot.lastUpdated, c.core, clock,
                                     Current(c.dockerRevision), Current(c.integrityRevision), digest, edge);
  }

  // ---------------------------------------------------------------- the runs it is made of

  /** The step as the cache's own runs record it; guards leave the cache alone. */
  function CacheStepOf(d: Daemon, step: Step, boot: string): seq<CacheRuns.CacheStep>
    requires WorkerRuns.Enabled(d.workers, WorkerStep(d.cache, step))
  {
    match step
    case Publication(u, inventory, tokens) => [CacheRuns.PublishStep(u, inventory, tokens)]
    case ClaimTick(now, wall) => [CacheRuns.ClaimStep(now, |d.workers.guards|, Some(wall))]
    case TakeGuard(_) => []
    case Exit(_) => []
    case Outcome(i, observed, outcome, now, wall) =>
      var task := d.workers.tasks[i];
      [CacheRuns.DeliverStep(Delivery(task.slot, observed, task.mode, task.generation, outcome, now, Some(wall), boot))]
  }

  /** The cache steps of a run of the daemon. */
  function CacheSteps(start: CacheState, steps: seq<Step>, boot: string, digest: string -> HexDigest)
    : seq<CacheRuns.CacheStep>
    requires RunDaemon(start, steps, boot, digest).Some?
  {
    if steps == [] then []
    else
      var front := steps[..|steps| - 1];
      CacheSteps(start, front, boot, digest)
      + CacheStepOf(RunDaemon(start, front, boot, digest).value, steps[|steps| - 1], boot)
  }

  /** The worker steps of a run of the daemon. */
  function WorkerSteps(start: CacheState, steps: seq<Step>, boot: string, digest: string -> HexDigest)
    : seq<WorkerRuns.Step>
    requires RunDaemon(start, steps, boot, digest).Some?
  {
    if steps == [] then []
    else
      var front := steps[..|steps| - 1];
      WorkerSteps(start, front, boot, digest)
      + [WorkerStep(RunDaemon(start, front, boot, digest).value.cache, steps[|steps| - 1])]
  }

  lemma CacheTakesStep(d: Daemon, step: Step, boot: string, digest: string -> HexDigest, start: CacheState,
                       before: seq<CacheRuns.CacheStep>, more: seq<CacheRuns.CacheStep>)
    requires WorkerRuns.Enabled(d.workers, WorkerStep(d.cache, step)) && d.cache == CacheRuns.RunCache(start, before, digest)
    requires more == CacheStepOf(d, step, boot)
    ensures CacheRuns.RunCache(start, before + more, digest) == CacheAfter(d, step, boot, digest)
  {
    if more == [] {
      assert before + more == before;
    } else {
      assert (before + more)[..|before|] == before;
    }
  }

  lemma WorkersTakeStep(before: seq<WorkerRuns.Step>, step: WorkerRuns.Step, boot: string, s: WorkerRuns.System)
    requires WorkerRuns.After(before, boot) == Some(s) && WorkerRuns.Enabled(s, step)
    ensures WorkerRuns.After(before + [step], boot) == Some(WorkerRuns.Next(s, step, boot))
  {
    assert (before + [step])[..|before|] == before;
  }

  /** The cache of the daemon is a cache run, and its workers are a workers' run, so what holds of those holds of it. */
  lemma {:induction false} DaemonIsBothRuns(start: CacheState, steps: seq<Step>, boot: string, digest: string -> HexDigest,
                                            d: Daemon)
    requires RunDaemon(start, steps, boot, digest) == Some(d)
    ensures d.cache == CacheRuns.RunCache(start, CacheSteps(start, steps, boot, digest), digest)
    ensures WorkerRuns.After(WorkerSteps(start, steps, boot, digest), boot) == Some(d.workers)
  {
    if steps != [] {
      var front, step := steps[..|steps| - 1], steps[|steps| - 1];
      var before := RunDaemon(start, front, boot, digest).value;
      DaemonIsBothRuns(start, front, boot, digest, before);
      CacheTakesStep(before, step, boot, digest, start, CacheSteps(start, front, boot, digest),
                     CacheStepOf(before, step, boot));
      WorkersTakeStep(WorkerSteps(start, front, boot, digest), WorkerStep(before.cache, step), boot, before.workers);
    }
  }

  /** Every publication hands the history the inventory of the records it publishes. */
  ghost predicate Genuine(steps: seq<Step>, digest: string -> HexDigest) {
    forall i :: 0 <= i < |steps| ==> GenuineStep(steps[i], digest)
  }

  ghost predicate GenuineStep(step: Step, digest: string -> HexDigest) {
    step.Publication? ==>
      IsInventory(step.inventory, step.update.snapshot.inventory.records, digest) && WellFormed(step.inventory)
  }

  ghost predicate GenuineCacheStep(step: CacheRuns.CacheStep, digest: string -> HexDigest) {
    CacheRuns.GenuineStep(step, digest) && (step.PublishStep? ==> WellFormed(step.inventory))
  }

  ghost predicate GenuineCache(steps: seq<CacheRuns.CacheStep>, digest: string -> HexDigest) {
    forall i :: 0 <= i < |steps| ==> GenuineCacheStep(steps[i], digest)
  }

  lemma GenuineStepOf(d: Daemon, step: Step, boot: string, digest: string -> HexDigest, more: seq<CacheRuns.CacheStep>)
    requires WorkerRuns.Enabled(d.workers, WorkerStep(d.cache, step)) && GenuineStep(step, digest)
    requires more == CacheStepOf(d, step, boot)
    ensures GenuineCache(more, digest)
  {
  }

  lemma GenuineConcat(a: seq<CacheRuns.CacheStep>, b: seq<CacheRuns.CacheStep>, digest: string -> HexDigest)
    requires GenuineCache(a, digest) && GenuineCache(b, digest)
    ensures GenuineCache(a + b, digest)
  {
  }

  lemma {:induction false} GenuineCacheSteps(start: CacheState, steps: seq<Step>, boot: string, digest: string -> HexDigest,
                                             all: seq<CacheRuns.CacheStep>)
    requires RunDaemon(start, steps, boot, digest).Some? && Genuine(steps, digest)
    requires all == CacheSteps(start, steps, boot, digest)
    ensures GenuineCache(all, digest)
  {
    if steps != [] {
      var n := |steps| - 1;
      assert forall i :: 0 <= i < n ==> steps[..n][i] == steps[i];
      var before := CacheSteps(start, steps[..n], boot, digest);
      var d := RunDaemon(start, steps[..n], boot, digest).value;
      var more := CacheStepOf(d, steps[n], boot);
      GenuineCacheSteps(start, steps[..n], boot, digest, before);
      assert GenuineStep(steps[n], digest);
      GenuineStepOf(d, steps[n], boot, digest, more);
      GenuineConcat(before, more, digest);
    }
  }

  lemma GenuineIsEnough(steps: seq<CacheRuns.CacheStep>, digest: string -> HexDigest)
    requires GenuineCache(steps, digest)
    ensures CacheRuns.Genuine(steps, digest)
    ensures forall i :: 0 <= i < |steps| && steps[i].PublishStep? ==> WellFormed(steps[i].inventory)
  {
    forall i | 0 <= i < |steps| ensures CacheRuns.GenuineStep(steps[i], digest) {
      assert GenuineCacheStep(steps[i], digest);
    }
    forall i | 0 <= i < |steps| && steps[i].PublishStep? ensures WellFormed(steps[i].inventory) {
      assert GenuineCacheStep(steps[i], digest);
    }
  }

  /** What the revisions promise of the cache's runs holds of the whole daemon, the served history included. */
  lemma EveryDaemonIsLabelled(u: Update, a: BootToken, b: BootToken, model: BootToken, token: BootToken,
                              steps: seq<Step>, boot: string, digest: string -> HexDigest, d: Daemon)
    requires RunDaemon(InitialCache(u, a, b, model, token), steps, boot, digest) == Some(d) && Genuine(steps, digest)
    ensures CacheRuns.Labelled(d.cache) && CacheRuns.Settled(d.cache, digest)
    ensures d.cache.history.nextSequence <= U64_MAX && d.cache.revision.sequence <= U64_MAX
            && d.cache.dockerRevision.sequence <= U64_MAX ==>
              var r := Response(d.cache.history, d.cache.core.mode, d.cache.snapshot.modelRevision,
                                Current(d.cache.dockerRevision));
              HistoryWire.DaemonAdmits(r) && HistoryWire.SchemaAccepts(r) && HistoryWire.ApiAdmits(r)
  {
    var start := InitialCache(u, a, b, model, token);
    var cacheSteps := CacheSteps(start, steps, boot, digest);
    DaemonIsBothRuns(start, steps, boot, digest, d);
    GenuineCacheSteps(start, steps, boot, digest, cacheSteps);
    GenuineIsEnough(cacheSteps, digest);
    CacheRuns.InitialIsSound(u, a, b, model, token, digest);
    CacheRuns.EveryRunIsLabelled(start, cacheSteps, digest);
    CacheRuns.EveryRunIsSettled(start, cacheSteps, digest);
    if d.cache.history.nextSequence <= U64_MAX && d.cache.revision.sequence <= U64_MAX
       && d.cache.dockerRevision.sequence <= U64_MAX
    {
      CacheRuns.EveryServedHistoryIsAdmitted(u, a, b, model, token, cacheSteps, digest);
    }
  }
}
