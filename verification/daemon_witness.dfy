/** A run in which a Docker publication that only moves the clock changes the model revision. */
module DaemonWitness {
  import opened Prelude
  import opened RuntimeModel
  import opened Identity
  import opened ProviderSlots
  import opened Scheduler
  import opened History
  import opened Cache
  import opened DaemonRuns
  import WorkerRuns
  import WorkerBounds
  import CacheRuns

  /** A network collection that reports its slot fresh and nothing else. */
  const FRESH_NETWORK := ProviderCollection([CollectedState(NetworkInfrastructure, ProviderStateKind.Fresh)], [], [], [])

  /** The cache shows this update, whatever label it carries. */
  predicate Shows(c: CacheState, u: Update) {
    && c.snapshot.inventory == u.snapshot.inventory && c.snapshot.topology == u.snapshot.topology
    && c.snapshot.lastUpdated == u.snapshot.lastUpdated
    && c.health.dockerReachable == u.health.dockerReachable && c.health.message == u.health.message
  }

  lemma RepublishShows(c: CacheState, u: Update, digest: string -> HexDigest)
    requires Shows(c, u)
    ensures Shows(Republish(c, digest), u) && Republish(c, digest).core == c.core
  {
  }

  predicate Leads(d: Daemon, step: Step, boot: string, digest: string -> HexDigest, next: Daemon) {
    WorkerRuns.Enabled(d.workers, WorkerStep(d.cache, step)) && next == NextDaemon(d, step, boot, digest)
  }

  /** Docker, first generation, clocks at zero. */
  predicate Stage(d: Daemon, u: Update, slots: Slots, tasks: seq<WorkerRuns.Task>, guards: set<ProviderSlot>) {
    && d.cache.core == Core(Docker, 1, slots) && d.workers.core == Core(Docker, 1, slots) && Shows(d.cache, u)
    && d.workers.tasks == tasks && d.workers.guards == guards && d.workers.now == 0 && d.workers.clock == 0
  }

  function NetworkTask(phase: WorkerRuns.Phase): WorkerRuns.Task {
    WorkerRuns.Task(NetworkInfrastructure, Docker, 1, phase)
  }

  const HOST_TASK := WorkerRuns.Task(HostScoped, Docker, 1, WorkerRuns.Spawned)

  function StartedSlots(): Slots {
    StartSlots(SlotsOf(RESET_SLOT), [NetworkInfrastructure, HostScoped], Some(0))
  }

  lemma Published(start: CacheState, u: Update, inventory: Inventory, tokens: Tokens, boot: string,
                  digest: string -> HexDigest) returns (next: Daemon)
    requires start.core == STARTED && u.mode == Docker
    ensures Leads(Daemon(start, WorkerRuns.INITIAL), Publication(u, inventory, tokens), boot, digest, next)
    ensures Stage(next, u, SlotsOf(RESET_SLOT), [], {})
  {
    next := NextDaemon(Daemon(start, WorkerRuns.INITIAL), Publication(u, inventory, tokens), boot, digest);
    RepublishShows(Replace(start, u, tokens), u, digest);
  }

  lemma ClaimedBoth(d: Daemon, u: Update, boot: string, digest: string -> HexDigest) returns (next: Daemon)
    requires Stage(d, u, SlotsOf(RESET_SLOT), [], {})
    ensures Leads(d, ClaimTick(0, 0), boot, digest, next)
    ensures Stage(next, u, StartedSlots(), [NetworkTask(WorkerRuns.Spawned), HOST_TASK], {})
  {
    next := NextDaemon(d, ClaimTick(0, 0), boot, digest);
    WorkerBounds.FirstClaims();
    assert |d.workers.guards| == 0;
    RepublishShows(d.cache.(core := ClaimCore(d.cache.core, 0, 0, Some(0))), u, digest);
    assert [] + WorkerRuns.Spawn([NetworkInfrastructure, HostScoped], 1) == [NetworkTask(WorkerRuns.Spawned), HOST_TASK];
  }

  lemma GuardTaken(d: Daemon, u: Update, boot: string, digest: string -> HexDigest) returns (next: Daemon)
    requires Stage(d, u, StartedSlots(), [NetworkTask(WorkerRuns.Spawned), HOST_TASK], {})
    ensures Leads(d, TakeGuard(0), boot, digest, next)
    ensures Stage(next, u, StartedSlots(), [NetworkTask(WorkerRuns.Working), HOST_TASK], {NetworkInfrastructure})
  {
    next := NextDaemon(d, TakeGuard(0), boot, digest);
  }

  /** The collection saw the published snapshot, so the network slot becomes fresh. */
  lemma BecameFresh(d: Daemon, u: Update, boot: string, digest: string -> HexDigest) returns (next: Daemon)
    requires Stage(d, u, StartedSlots(), [NetworkTask(WorkerRuns.Working), HOST_TASK], {NetworkInfrastructure})
    ensures Leads(d, Outcome(0, u.snapshot, Collected(FRESH_NETWORK), 0, 0), boot, digest, next)
    ensures next.cache.core.mode == Docker && CacheRuns.NetworkFresh(next.cache.core.slots) && Shows(next.cache, u)
  {
    var step := Outcome(0, u.snapshot, Collected(FRESH_NETWORK), 0, 0);
    next := NextDaemon(d, step, boot, digest);
    RepublishShows(d.cache.(core := OutcomeCore(d.cache.core, NetworkInfrastructure, Docker, 1, Collected(FRESH_NETWORK),
                                                true, 0, Some(0), boot)), u, digest);
  }

  predicate Reaches(start: CacheState, steps: seq<Step>, boot: string, digest: string -> HexDigest, d: Daemon) {
    RunDaemon(start, steps, boot, digest) == Some(d)
  }

  lemma RunExtends(start: CacheState, steps: seq<Step>, step: Step, boot: string, digest: string -> HexDigest, d: Daemon,
                   next: Daemon)
    requires Reaches(start, steps, boot, digest, d) && Leads(d, step, boot, digest, next)
    ensures Reaches(start, steps + [step], boot, digest, next)
  {
    var more := steps + [step];
    assert more[..|more| - 1] == steps && more[|more| - 1] == step;
  }

  lemma GenuineMore(steps: seq<Step>, step: Step, digest: string -> HexDigest)
    requires Genuine(steps, digest) && GenuineStep(step, digest)
    ensures Genuine(steps + [step], digest)
  {
  }

  /** One more possible step of a genuine run. */
  lemma OneMore(start: CacheState, steps: seq<Step>, step: Step, boot: string, digest: string -> HexDigest, d: Daemon,
                next: Daemon) returns (more: seq<Step>)
    requires Reaches(start, steps, boot, digest, d) && Genuine(steps, digest)
    requires Leads(d, step, boot, digest, next) && GenuineStep(step, digest)
    ensures more == steps + [step] && Reaches(start, more, boot, digest, next) && Genuine(more, digest)
  {
    more := steps + [step];
    RunExtends(start, steps, step, boot, digest, d, next);
    GenuineMore(steps, step, digest);
  }

  lemma NoSteps(start: CacheState, boot: string, digest: string -> HexDigest)
    ensures Reaches(start, [], boot, digest, Daemon(start, WorkerRuns.INITIAL)) && Genuine([], digest)
  {
  }

  lemma ReachPublished(start: CacheState, u: Update, inventory: Inventory, tokens: Tokens, boot: string,
                       digest: string -> HexDigest) returns (steps: seq<Step>, d: Daemon)
    requires start.core == STARTED && u.mode == Docker
    requires IsInventory(inventory, u.snapshot.inventory.records, digest) && WellFormed(inventory)
    ensures Reaches(start, steps, boot, digest, d) && Genuine(steps, digest)
    ensures Stage(d, u, SlotsOf(RESET_SLOT), [], {})
  {
    d := Published(start, u, inventory, tokens, boot, digest);
    NoSteps(start, boot, digest);
    steps := OneMore(start, [], Publication(u, inventory, tokens), boot, digest, Daemon(start, WorkerRuns.INITIAL), d);
  }

  lemma ReachClaimed(start: CacheState, before: seq<Step>, s: Daemon, u: Update, boot: string, digest: string -> HexDigest)
    returns (steps: seq<Step>, d: Daemon)
    requires Reaches(start, before, boot, digest, s) && Genuine(before, digest)
    requires Stage(s, u, SlotsOf(RESET_SLOT), [], {})
    ensures Reaches(start, steps, boot, digest, d) && Genuine(steps, digest)
    ensures Stage(d, u, StartedSlots(), [NetworkTask(WorkerRuns.Spawned), HOST_TASK], {})
  {
    d := ClaimedBoth(s, u, boot, digest);
    steps := OneMore(start, before, ClaimTick(0, 0), boot, digest, s, d);
  }

  lemma ReachWorking(start: CacheState, before: seq<Step>, s: Daemon, u: Update, boot: string, digest: string -> HexDigest)
    returns (steps: seq<Step>, d: Daemon)
    requires Reaches(start, before, boot, digest, s) && Genuine(before, digest)
    requires Stage(s, u, StartedSlots(), [NetworkTask(WorkerRuns.Spawned), HOST_TASK], {})
    ensures Reaches(start, steps, boot, digest, d) && Genuine(steps, digest)
    ensures Stage(d, u, StartedSlots(), [NetworkTask(WorkerRuns.Working), HOST_TASK], {NetworkInfrastructure})
  {
    d := GuardTaken(s, u, boot, digest);
    steps := OneMore(start, before, TakeGuard(0), boot, digest, s, d);
  }

  lemma ReachFresh(start: CacheState, before: seq<Step>, s: Daemon, u: Update, boot: string, digest: string -> HexDigest)
    returns (steps: seq<Step>, d: Daemon)
    requires Reaches(start, before, boot, digest, s) && Genuine(before, digest)
    requires Stage(s, u, StartedSlots(), [NetworkTask(WorkerRuns.Working), HOST_TASK], {NetworkInfrastructure})
    ensures Reaches(start, steps, boot, digest, d) && Genuine(steps, digest)
    ensures d.cache.core.mode == Docker && CacheRuns.NetworkFresh(d.cache.core.slots) && Shows(d.cache, u)
  {
    d := BecameFresh(s, u, boot, digest);
    steps := OneMore(start, before, Outcome(0, u.snapshot, Collected(FRESH_NETWORK), 0, 0), boot, digest, s, d);
  }

  /** Publish Docker, claim, let the network worker collect against the published snapshot. */
  lemma FreshReached(start: CacheState, u: Update, inventory: Inventory, tokens: Tokens, boot: string,
                     digest: string -> HexDigest) returns (steps: seq<Step>, d: Daemon)
    requires start.core == STARTED && u.mode == Docker
    requires IsInventory(inventory, u.snapshot.inventory.records, digest) && WellFormed(inventory)
    ensures Reaches(start, steps, boot, digest, d) && Genuine(steps, digest)
    ensures d.cache.core.mode == Docker && CacheRuns.NetworkFresh(d.cache.core.slots) && Shows(d.cache, u)
  {
    steps, d := ReachPublished(start, u, inventory, tokens, boot, digest);
    steps, d := ReachClaimed(start, steps, d, u, boot, digest);
    steps, d := ReachWorking(start, steps, d, u, boot, digest);
    steps, d := ReachFresh(start, steps, d, u, boot, digest);
  }

  /** The update observed one millisecond later. */
  function Later(u: Update): Update {
    u.(snapshot := u.snapshot.(lastUpdated := u.snapshot.lastUpdated + 1))
  }

  /**
   Publish Docker, collect the network slot against that snapshot, and publish the same facts one millisecond later:
   only the clock moved, and the model revision changes.
   */
  lemma ClockAloneMovesRevision(u0: Update, a: BootToken, b: BootToken, model: BootToken, token: BootToken, u: Update,
                                inventory: Inventory, tokens: Tokens, boot: string, digest: string -> HexDigest)
    returns (steps: seq<Step>, before: Daemon, after: Daemon)
    requires u.mode == Docker && IsInventory(inventory, u.snapshot.inventory.records, digest) && WellFormed(inventory)
    ensures Reaches(InitialCache(u0, a, b, model, token), steps, boot, digest, before)
    ensures before.cache.core.mode == Docker && CacheRuns.OnlyClockMoves(before.cache, Later(u))
    ensures Reaches(InitialCache(u0, a, b, model, token), steps + [Publication(Later(u), inventory, tokens)], boot, digest,
                    after)
    ensures after.cache.snapshot.modelRevision != before.cache.snapshot.modelRevision
  {
    InitialIsServed(u0, a, b, model, token, digest);
    steps, before := FreshReached(InitialCache(u0, a, b, model, token), u, inventory, tokens, boot, digest);
    EveryDaemonIsLabelled(u0, a, b, model, token, steps, boot, digest, before);
    after := MovedOn(before, u, inventory, tokens, boot, digest);
    RunExtends(InitialCache(u0, a, b, model, token), steps, Publication(Later(u), inventory, tokens), boot, digest, before,
               after);
  }

  lemma MovedOn(before: Daemon, u: Update, inventory: Inventory, tokens: Tokens, boot: string, digest: string -> HexDigest)
    returns (after: Daemon)
    requires CacheRuns.Labelled(before.cache) && CacheRuns.Settled(before.cache, digest)
    requires u.mode == Docker && before.cache.core.mode == Docker && CacheRuns.NetworkFresh(before.cache.core.slots)
    requires Shows(before.cache, u) && IsInventory(inventory, u.snapshot.inventory.records, digest)
    ensures CacheRuns.OnlyClockMoves(before.cache, Later(u))
    ensures Leads(before, Publication(Later(u), inventory, tokens), boot, digest, after)
    ensures after.cache.snapshot.modelRevision != before.cache.snapshot.modelRevision
  {
    after := NextDaemon(before, Publication(Later(u), inventory, tokens), boot, digest);
    CacheRuns.ClockOnlyPublication(before.cache, Later(u), inventory, tokens, digest);
  }
}
