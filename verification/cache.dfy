/**
 The daemon's cache: the published snapshot, health and runtime map, the three opaque revisions that label them,
 and the steps that republish them together.
 */
module Cache {
  import opened Prelude
  import opened RuntimeModel
  import opened Identity
  import opened ProviderSlots
  import opened Scheduler
  import opened RuntimeMaps
  import opened History
  import opened HistoryWire
  import Decimal

  // ---------------------------------------------------------------- revisions

  /** An opaque per-process counter that advances when what it observes changes. */
  datatype Revision<T> = Revision(boot: BootToken, sequence: nat, lastObservable: Option<T>)

  function NewRevision<T>(boot: BootToken): Revision<T> {
    Revision(boot, 0, None)
  }

  function Assign<T(==)>(revision: Revision<T>, observable: T): Revision<T> {
    if revision.lastObservable == Some(observable) then revision
    else Revision(revision.boot, revision.sequence + 1, Some(observable))
  }

  function Current<T>(revision: Revision<T>): string {
    revision.boot + ['-'] + Decimal.Print(revision.sequence)
  }

  /** One process's tokens tell its sequences apart. */
  lemma SameTokenSameSequence<T>(a: Revision<T>, b: Revision<T>)
    requires a.boot == b.boot && Current(a) == Current(b)
    ensures a.sequence == b.sequence
  {
    Decimal.SameTextSameNumber(a.boot, a.sequence, b.sequence);
  }

  // ---------------------------------------------------------------- state

  /** The sanitized Docker inventory: the records the history compares, and the serialization of everything else. */
  datatype PublicInventory = PublicInventory(records: seq<ContainerRecord>, rest: string)

  /** A snapshot as far as its consumers see it: what is published of it, and the topology derived from it. */
  datatype Snapshot = Snapshot(
    inventory: PublicInventory, topology: Topology, lastUpdated: nat, modelRevision: string)

  datatype Health = Health(
    dockerReachable: bool, message: string, lastUpdated: nat, snapshotVersion: string, modelRevision: string)

  /** What routes can expose, without the fields that only say when it was observed. */
  datatype Observable = Observable(inventory: PublicInventory, mode: RuntimeMode, health: Health, runtimeMap: RuntimeMap)

  datatype CacheState = CacheState(
    core: Core,
    snapshot: Snapshot,
    health: Health,
    runtimeMap: RuntimeMap,
    findingsRevision: string,
    dockerRevision: Revision<(RuntimeMode, PublicInventory)>,
    integrityRevision: Revision<bool>,
    revision: Revision<Observable>,
    history: HistoryState)

  /** A completed read, Docker or mock fallback, before it is published. */
  datatype Update = Update(mode: RuntimeMode, snapshot: Snapshot, health: Health)

  /** The random tokens a publication may draw. */
  datatype Tokens = Tokens(integrity: BootToken, history: BootToken, epoch: BootToken)

  // ---------------------------------------------------------------- the steps on values

  function ObservableOf(c: CacheState): Observable {
    Observable(c.snapshot.inventory, c.core.mode,
               c.health.(lastUpdated := 0, snapshotVersion := "", modelRevision := ""), ClearVolatile(c.runtimeMap))
  }

  /** Label snapshot, health, map and findings with one revision of what they show. */
  function AssignRevision(c: CacheState): CacheState {
    var revision := Assign(c.revision, ObservableOf(c));
    var token := Current(revision);
    c.(revision := revision,
       snapshot := c.snapshot.(modelRevision := token),
       health := c.health.(modelRevision := token),
       runtimeMap := c.runtimeMap.(modelRevision := token),
       findingsRevision := token)
  }

  function RebuildRuntimeMap(c: CacheState, digest: string -> HexDigest): CacheState {
    var docker := Assign(c.dockerRevision, (c.core.mode, c.snapshot.inventory));
    var active := CollisionActive(c.snapshot.topology, c.core.mode, c.core.slots);
    var integrity := Assign(c.integrityRevision, active);
    c.(dockerRevision := docker, integrityRevision := integrity,
       runtimeMap := PublishedMap(c.snapshot.topology, c.snapshot.lastUpdated, c.core.mode, c.core.slots,
                                  Current(docker), Current(integrity), digest))
  }

  function Republish(c: CacheState, digest: string -> HexDigest): CacheState {
    AssignRevision(RebuildRuntimeMap(c, digest))
  }

  /** The evidence a provider pass is tied to: the published snapshot, its observation time included. */
  predicate SameCollectionEvidence(a: Snapshot, b: Snapshot) {
    a.inventory == b.inventory && a.lastUpdated == b.lastUpdated
  }

  /** The state a publication starts from, before anything derived is rebuilt. */
  function Replace(c: CacheState, u: Update, tokens: Tokens): CacheState {
    var same := c.core.mode == u.mode;
    c.(core := PublishCore(c.core, u.mode, SameCollectionEvidence(c.snapshot, u.snapshot)),
       snapshot := u.snapshot, health := u.health,
       integrityRevision := if same then c.integrityRevision else NewRevision(tokens.integrity),
       history := if same then c.history else NewHistory(tokens.history))
  }

  /** `inventory` is the history's reading of the published records. */
  function PublishCache(c: CacheState, u: Update, inventory: Inventory, tokens: Tokens, digest: string -> HexDigest)
    : CacheState
  {
    var next := Republish(Replace(c, u, tokens), digest);
    if u.mode == Docker then next.(history := Observe(next.history, inventory, u.snapshot.lastUpdated, tokens.epoch))
    else next
  }

  function ClaimCache(c: CacheState, now: nat, active: nat, wall: Option<nat>, digest: string -> HexDigest): CacheState {
    if Claimed(c.core.slots, now, active) == [] then c
    else Republish(c.(core := ClaimCore(c.core, now, active, wall)), digest)
  }

  datatype Delivery = Delivery(
    slot: ProviderSlot, observed: Snapshot, mode: RuntimeMode, generation: nat, outcome: Outcome, completedAt: nat,
    wall: Option<nat>, boot: string)

  function DeliverCache(c: CacheState, d: Delivery, digest: string -> HexDigest): CacheState {
    if c.core.mode != d.mode || c.core.generation != d.generation then c
    else
      Republish(c.(core := OutcomeCore(c.core, d.slot, d.mode, d.generation, d.outcome,
                                       SameCollectionEvidence(c.snapshot, d.observed), d.completedAt, d.wall, d.boot)),
                digest)
  }

  // ---------------------------------------------------------------- the cache updated in place

  class DaemonCache {
    var mode: RuntimeMode
    var sourceGeneration: nat
    var slots: Slots
    var snapshot: Snapshot
    var health: Health
    var runtimeMap: RuntimeMap
    var findingsRevision: string
    var dockerRevision: Revision<(RuntimeMode, PublicInventory)>
    var integrityRevision: Revision<bool>
    var revision: Revision<Observable>
    var history: ObservedHistoryCache

    constructor (u: Update, docker: BootToken, integrity: BootToken, model: BootToken, token: BootToken)
      requires u.mode == Mock
      ensures fresh(history)
      ensures State() == InitialCache(u, docker, integrity, model, token)
    {
      mode, sourceGeneration, slots := Mock, 0, SlotsOf(UNTOUCHED_SLOT);
      snapshot, health := u.snapshot, u.health;
      runtimeMap := EmptyMap(u.snapshot.lastUpdated);
      findingsRevision := "";
      dockerRevision := Assign(NewRevision(docker), (Mock, u.snapshot.inventory));
      integrityRevision, revision := NewRevision(integrity), NewRevision(model);
      history := new ObservedHistoryCache(token);
      new;
      AssignModelRevision();
    }

    function State(): CacheState
      reads this, history
    {
      CacheState(Core(mode, sourceGeneration, slots), snapshot, health, runtimeMap, findingsRevision, dockerRevision,
                 integrityRevision, revision, history.State())
    }

    /** `assign` of the publication revision, on what the cache would expose now. */
    method AssignModelRevision()
      modifies this
      ensures history == old(history) && State() == AssignRevision(old(State()))
    {
      var observable := Observable(snapshot.inventory, mode,
                                   health.(lastUpdated := 0, snapshotVersion := "", modelRevision := ""),
                                   ClearVolatile(runtimeMap));
      if revision.lastObservable != Some(observable) {
        revision := Revision(revision.boot, revision.sequence + 1, Some(observable));
      }
      var token := Current(revision);
      snapshot := snapshot.(modelRevision := token);
      health := health.(modelRevision := token);
      runtimeMap := runtimeMap.(modelRevision := token);
      findingsRevision := runtimeMap.modelRevision;
    }

    method Rebuild(digest: string -> HexDigest)
      modifies this
      ensures history == old(history) && State() == RebuildRuntimeMap(old(State()), digest)
    {
      dockerRevision := Assign(dockerRevision, (mode, snapshot.inventory));
      runtimeMap := RuntimeMapFor(snapshot.topology, snapshot.lastUpdated, mode, slots, Current(dockerRevision), digest);
      var active := mode == Docker && DuplicateIds(runtimeMap.nodes) != {};
      integrityRevision := Assign(integrityRevision, active);
      if active {
        runtimeMap := WithCollisionFact(runtimeMap, Current(integrityRevision), snapshot.lastUpdated);
      }
    }

    method MoveSlots(u: Update)
      modifies this`mode, this`sourceGeneration, this`slots
      ensures Core(mode, sourceGeneration, slots)
              == PublishCore(Core(old(mode), old(sourceGeneration), old(slots)), u.mode,
                             SameCollectionEvidence(snapshot, u.snapshot))
    {
      if mode != u.mode {
        sourceGeneration := sourceGeneration + 1;
        slots := SlotsOf(RESET_SLOT);
      } else if !SameCollectionEvidence(snapshot, u.snapshot) {
        slots := StaleNetwork(slots);
      }
      mode := u.mode;
    }

    method ResetSource(u: Update, tokens: Tokens)
      modifies this`integrityRevision, this`history
      ensures history == old(history) || fresh(history)
      ensures history.State() == if mode == u.mode then old(history.State()) else NewHistory(tokens.history)
      ensures integrityRevision == if mode == u.mode then old(integrityRevision) else NewRevision(tokens.integrity)
    {
      if mode != u.mode {
        integrityRevision := NewRevision(tokens.integrity);
        history := new ObservedHistoryCache(tokens.history);
      }
    }

    /** Keep or reset what belongs to the source, then take the new snapshot. */
    method TakeUpdate(u: Update, tokens: Tokens)
      modifies this
      ensures history == old(history) || fresh(history)
      ensures State() == Replace(old(State()), u, tokens)
    {
      ResetSource(u, tokens);
      MoveSlots(u);
      snapshot, health := u.snapshot, u.health;
    }

    method RepublishMap(digest: string -> HexDigest)
      modifies this
      ensures history == old(history) && State() == Republish(old(State()), digest)
    {
      Rebuild(digest);
      AssignModelRevision();
    }

    method ObserveHistory(inventory: Inventory, at: nat, token: BootToken)
      modifies history
      ensures State() == old(State()).(history := Observe(old(State()).history, inventory, at, token))
    {
      history.ObservePublishedSnapshot(inventory, at, token);
    }

    /** Publish a completed read; the records' inventory is worked out here and returned for the specification. */
    method PublishSnapshot(u: Update, tokens: Tokens, digest: string -> HexDigest) returns (inventory: Inventory)
      modifies this, history
      ensures IsInventory(inventory, u.snapshot.inventory.records, digest) && WellFormed(inventory)
      ensures history == old(history) || fresh(history)
      ensures State() == PublishCache(old(State()), u, inventory, tokens, digest)
    {
      inventory := ObservedContainerInventory(u.snapshot.inventory.records, digest);
      TakeUpdate(u, tokens);
      RepublishMap(digest);
      if u.mode == Docker {
        ObserveHistory(inventory, u.snapshot.lastUpdated, tokens.epoch);
      }
    }

    method ClaimDue(now: nat, active: nat, wall: Option<nat>, digest: string -> HexDigest)
      returns (due: seq<ProviderSlot>)
      modifies this
      ensures history == old(history)
      ensures due == Claimed(old(slots), now, active)
      ensures State() == ClaimCache(old(State()), now, active, wall, digest)
    {
      var started;
      started, due := ClaimDueSlots(slots, now, active, wall);
      slots := started;
      if due != [] {
        assert State() == old(State()).(core := ClaimCore(old(State()).core, now, active, wall));
        RepublishMap(digest);
      } else {
        NothingStarted(old(slots), wall);
      }
    }

    method ApplyProviderSlotOutcome(d: Delivery, digest: string -> HexDigest)
      modifies this
      ensures history == old(history)
      ensures State() == DeliverCache(old(State()), d, digest)
    {
      if mode != d.mode || sourceGeneration != d.generation {
        return;
      }
      var sameEvidence := SameCollectionEvidence(snapshot, d.observed);
      slots := slots[d.slot := ApplyOutcome(slots[d.slot], d.outcome, sameEvidence, d.completedAt, d.wall, d.boot)];
      RepublishMap(digest);
    }
  }

  lemma NothingStarted(slots: Slots, wall: Option<nat>)
    ensures StartSlots(slots, [], wall) == slots
  {
    assert forall slot: ProviderSlot :: StartSlots(slots, [], wall)[slot] == slots[slot];
  }

  function EmptyMap(at: nat): RuntimeMap {
    RuntimeMap([], [], [], at, ProviderStatesFor(SlotsOf(UNTOUCHED_SLOT)), "")
  }

  /** The mock cache a process starts with. */
  function InitialCache(u: Update, docker: BootToken, integrity: BootToken, model: BootToken, token: BootToken): CacheState
  {
    AssignRevision(CacheState(STARTED, u.snapshot, u.health, EmptyMap(u.snapshot.lastUpdated), "",
                              Assign(NewRevision(docker), (Mock, u.snapshot.inventory)), NewRevision(integrity),
                              NewRevision(model), NewHistory(token)))
  }
}
