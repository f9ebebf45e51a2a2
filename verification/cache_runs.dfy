/** Whole runs of the cache: what the opaque revisions say about what was published. */
module CacheRuns {
  import opened Prelude
  import opened RuntimeModel
  import opened Identity
  import opened ProviderSlots
  import opened Scheduler
  import opened RuntimeMaps
  import opened History
  import opened HistoryWire
  import opened Cache
  import Sorting
  import HistoryRuns
  import Decimal

  datatype CacheStep =
    | PublishStep(update: Update, inventory: Inventory, tokens: Tokens)
    | ClaimStep(now: nat, active: nat, wall: Option<nat>)
    | DeliverStep(delivery: Delivery)

  function NextCache(c: CacheState, step: CacheStep, digest: string -> HexDigest): CacheState {
    match step
    case PublishStep(update, inventory, tokens) => PublishCache(c, update, inventory, tokens, digest)
    case ClaimStep(now, active, wall) => ClaimCache(c, now, active, wall, digest)
    case DeliverStep(delivery) => DeliverCache(c, delivery, digest)
  }

  function RunCache(c: CacheState, steps: seq<CacheStep>, digest: string -> HexDigest): CacheState {
    if steps == [] then c
    else NextCache(RunCache(c, steps[..|steps| - 1], digest), steps[|steps| - 1], digest)
  }

  /** Publications hand the history the inventory of the records they publish. */
  ghost predicate Genuine(steps: seq<CacheStep>, digest: string -> HexDigest) {
    forall i :: 0 <= i < |steps| ==> GenuineStep(steps[i], digest)
  }

  ghost predicate GenuineStep(step: CacheStep, digest: string -> HexDigest) {
    step.PublishStep? ==> IsInventory(step.inventory, step.update.snapshot.inventory.records, digest)
  }

  // ---------------------------------------------------------------- labels

  /** Every envelope carries the current revision, and the revision remembers exactly what is shown. */
  predicate Labelled(c: CacheState) {
    && c.revision.lastObservable == Some(ObservableOf(c))
    && c.snapshot.modelRevision == Current(c.revision)
    && c.health.modelRevision == Current(c.revision)
    && c.runtimeMap.modelRevision == Current(c.revision)
    && c.findingsRevision == Current(c.revision)
  }

  lemma AssignLabels(c: CacheState)
    ensures Labelled(AssignRevision(c))
    ensures ObservableOf(AssignRevision(c)) == ObservableOf(c)
    ensures AssignRevision(c).revision == Assign(c.revision, ObservableOf(c))
  {
  }

  /** A step leaves the revision alone exactly when what routes can expose is unchanged; otherwise it counts one up. */
  lemma StepAssigns(c: CacheState, step: CacheStep, digest: string -> HexDigest)
    requires Labelled(c)
    ensures var next := NextCache(c, step, digest);
            Labelled(next) && next.revision == Assign(c.revision, ObservableOf(next))
  {
    match step
    case PublishStep(u, inventory, tokens) =>
      AssignLabels(RebuildRuntimeMap(Replace(c, u, tokens), digest));
      var next := Republish(Replace(c, u, tokens), digest);
      var observed := Observe(next.history, inventory, u.snapshot.lastUpdated, tokens.epoch);
      assert ObservableOf(next.(history := observed)) == ObservableOf(next);
    case ClaimStep(now, active, wall) =>
      AssignLabels(RebuildRuntimeMap(c.(core := ClaimCore(c.core, now, active, wall)), digest));
    case DeliverStep(d) =>
      AssignLabels(RebuildRuntimeMap(c.(core := OutcomeCore(c.core, d.slot, d.mode, d.generation, d.outcome,
                                       SameCollectionEvidence(c.snapshot, d.observed), d.completedAt, d.wall, d.boot)),
                                     digest));
  }

  lemma {:induction false} EveryRunIsLabelled(c: CacheState, steps: seq<CacheStep>, digest: string -> HexDigest)
    requires Labelled(c)
    ensures Labelled(RunCache(c, steps, digest))
    ensures RunCache(c, steps, digest).revision.boot == c.revision.boot
  {
    if steps != [] {
      EveryRunIsLabelled(c, steps[..|steps| - 1], digest);
      StepAssigns(RunCache(c, steps[..|steps| - 1], digest), steps[|steps| - 1], digest);
    }
  }

  lemma InitialIsSound(u: Update, a: BootToken, b: BootToken, model: BootToken, d: BootToken, digest: string -> HexDigest)
    ensures Labelled(InitialCache(u, a, b, model, d)) && Settled(InitialCache(u, a, b, model, d), digest)
  {
    AssignLabels(CacheState(STARTED, u.snapshot, u.health, EmptyMap(u.snapshot.lastUpdated), "",
                            Assign(NewRevision(a), (Mock, u.snapshot.inventory)), NewRevision(b),
                            NewRevision(model), NewHistory(d)));
  }

  /** Snapshot, health, map and findings always carry the same revision, from the first mock cache on. */
  lemma OneRevisionEverywhere(u: Update, a: BootToken, b: BootToken, model: BootToken, d: BootToken,
                              steps: seq<CacheStep>, digest: string -> HexDigest)
    ensures var c := RunCache(InitialCache(u, a, b, model, d), steps, digest);
            && c.snapshot.modelRevision == c.health.modelRevision == c.runtimeMap.modelRevision == c.findingsRevision
            && c.snapshot.modelRevision == Current(c.revision)
  {
    InitialIsSound(u, a, b, model, d, digest);
    EveryRunIsLabelled(InitialCache(u, a, b, model, d), steps, digest);
  }

  /** An unchanged observable never advances the revision, and a changed one always does. */
  lemma RevisionAdvancesExactly(c: CacheState, step: CacheStep, digest: string -> HexDigest)
    requires Labelled(c)
    ensures var next := NextCache(c, step, digest);
            && (next.snapshot.modelRevision == c.snapshot.modelRevision <==> ObservableOf(next) == ObservableOf(c))
            && (ObservableOf(next) != ObservableOf(c) ==> next.revision.sequence == c.revision.sequence + 1)
  {
    StepAssigns(c, step, digest);
    var next := NextCache(c, step, digest);
    if next.snapshot.modelRevision == c.snapshot.modelRevision {
      SameTokenSameSequence(next.revision, c.revision);
    }
  }

  /** What a client sees of one moment: the revision in force, its text, and what is exposed. */
  datatype View = View(revision: Revision<Observable>, token: string, shown: Observable)

  function ViewOf(c: CacheState): View {
    View(c.revision, c.snapshot.modelRevision, ObservableOf(c))
  }

  /** The revision in force is labelled, and is the earlier one assigned what is shown now. */
  predicate Succeeds(a: View, b: View) {
    b.token == Current(b.revision) && b.revision == Assign(a.revision, b.shown)
  }

  predicate Sound(v: View) {
    v.token == Current(v.revision) && v.revision.lastObservable == Some(v.shown)
  }

  ghost predicate Succession(views: seq<View>) {
    && views != [] && Sound(views[0])
    && forall k :: 0 < k < |views| ==> Succeeds(views[k - 1], views[k])
  }

  lemma {:induction false} SuccessionHolds(views: seq<View>, i: nat, j: nat)
    requires Succession(views) && i <= j < |views|
    ensures Sound(views[j])
    ensures views[i].revision.boot == views[j].revision.boot
    ensures views[i].revision.sequence <= views[j].revision.sequence
    ensures views[i].revision.sequence == views[j].revision.sequence ==> views[i].shown == views[j].shown
    decreases j
  {
    if i < j {
      SuccessionHolds(views, i, j - 1);
      assert Succeeds(views[j - 1], views[j]);
    } else if i > 0 {
      SuccessionHolds(views, i - 1, i - 1);
      assert Succeeds(views[i - 1], views[i]);
    }
  }

  /** The view after every number of steps. */
  function Views(c: CacheState, steps: seq<CacheStep>, digest: string -> HexDigest): (views: seq<View>)
    ensures |views| == |steps| + 1
  {
    if steps == [] then [ViewOf(c)]
    else Views(c, steps[..|steps| - 1], digest) + [ViewOf(RunCache(c, steps, digest))]
  }

  /** Position `i` is the view after the first `i` steps. */
  lemma {:induction false} ViewsAreMoments(c: CacheState, steps: seq<CacheStep>, digest: string -> HexDigest, i: nat,
                                           reached: CacheState)
    requires i <= |steps| && reached == RunCache(c, steps[..i], digest)
    ensures Views(c, steps, digest)[i] == ViewOf(reached)
  {
    if i == |steps| {
      assert steps[..i] == steps;
    } else {
      assert steps[..|steps| - 1][..i] == steps[..i];
      ViewsAreMoments(c, steps[..|steps| - 1], digest, i, reached);
    }
  }

  lemma {:induction false} ViewsSucceed(c: CacheState, steps: seq<CacheStep>, digest: string -> HexDigest)
    requires Labelled(c)
    ensures Succession(Views(c, steps, digest))
    ensures Views(c, steps, digest)[|steps|] == ViewOf(RunCache(c, steps, digest))
  {
    if steps != [] {
      var front := steps[..|steps| - 1];
      ViewsSucceed(c, front, digest);
      EveryRunIsLabelled(c, front, digest);
      LastSucceeds(c, steps, digest);
      ExtendSuccession(Views(c, front, digest), ViewOf(RunCache(c, steps, digest)));
    }
  }

  lemma LastSucceeds(c: CacheState, steps: seq<CacheStep>, digest: string -> HexDigest)
    requires steps != [] && Labelled(RunCache(c, steps[..|steps| - 1], digest))
    ensures Succeeds(ViewOf(RunCache(c, steps[..|steps| - 1], digest)), ViewOf(RunCache(c, steps, digest)))
  {
    StepAssigns(RunCache(c, steps[..|steps| - 1], digest), steps[|steps| - 1], digest);
  }

  lemma ExtendSuccession(views: seq<View>, v: View)
    requires Succession(views) && Succeeds(views[|views| - 1], v)
    ensures Succession(views + [v])
  {
    var all := views + [v];
    forall k | 0 < k < |all| ensures Succeeds(all[k - 1], all[k]) {
      assert k < |views| ==> Succeeds(views[k - 1], views[k]);
    }
  }

  /** Two moments of one process that carry the same revision expose the same thing. */
  lemma EqualRevisionsEqualObservables(c: CacheState, steps: seq<CacheStep>, digest: string -> HexDigest, i: nat, j: nat)
    requires Labelled(c) && i <= j <= |steps|
    requires Views(c, steps, digest)[i].token == Views(c, steps, digest)[j].token
    ensures Views(c, steps, digest)[i].shown == Views(c, steps, digest)[j].shown
  {
    ViewsSucceed(c, steps, digest);
    var views := Views(c, steps, digest);
    SuccessionHolds(views, i, i);
    SuccessionHolds(views, i, j);
    SameTokenSameSequence(views[i].revision, views[j].revision);
  }

  // ---------------------------------------------------------------- the Docker token

  /** What the Docker token stands for. */
  function DockerShown(c: CacheState): (RuntimeMode, PublicInventory) {
    (c.core.mode, c.snapshot.inventory)
  }

  predicate DockerLabelled(c: CacheState) {
    c.dockerRevision.lastObservable == Some(DockerShown(c))
  }

  lemma RepublishKeepsShown(c: CacheState, digest: string -> HexDigest)
    ensures var next := Republish(c, digest);
            DockerShown(next) == DockerShown(c) && next.dockerRevision == Assign(c.dockerRevision, DockerShown(c))
  {
  }

  /** A step moves the Docker token exactly when mode or inventory change, and then by one. */
  lemma DockerTokenAdvancesExactly(c: CacheState, step: CacheStep, digest: string -> HexDigest, next: CacheState)
    requires DockerLabelled(c) && next == NextCache(c, step, digest)
    ensures DockerLabelled(next) && next.dockerRevision == Assign(c.dockerRevision, DockerShown(next))
    ensures Current(next.dockerRevision) == Current(c.dockerRevision) <==> DockerShown(next) == DockerShown(c)
  {
    match step {
      case PublishStep(u, inventory, tokens) => RepublishKeepsShown(Replace(c, u, tokens), digest);
      case ClaimStep(now, active, wall) =>
        RepublishKeepsShown(c.(core := ClaimCore(c.core, now, active, wall)), digest);
      case DeliverStep(d) =>
        RepublishKeepsShown(c.(core := OutcomeCore(c.core, d.slot, d.mode, d.generation, d.outcome,
                                         SameCollectionEvidence(c.snapshot, d.observed), d.completedAt, d.wall, d.boot)),
                            digest);
    }
    if Current(next.dockerRevision) == Current(c.dockerRevision) {
      SameTokenSameSequence(next.dockerRevision, c.dockerRevision);
    }
  }

  lemma {:induction false} DockerTokensGrow(c: CacheState, steps: seq<CacheStep>, digest: string -> HexDigest,
                                            d: CacheState)
    requires DockerLabelled(c) && d == RunCache(c, steps, digest)
    ensures DockerLabelled(d) && d.dockerRevision.boot == c.dockerRevision.boot
    ensures c.dockerRevision.sequence <= d.dockerRevision.sequence
    ensures c.dockerRevision.sequence == d.dockerRevision.sequence ==> DockerShown(c) == DockerShown(d)
  {
    if steps != [] {
      var before := RunCache(c, steps[..|steps| - 1], digest);
      DockerTokensGrow(c, steps[..|steps| - 1], digest, before);
      DockerTokenAdvancesExactly(before, steps[|steps| - 1], digest, d);
    }
  }

  /**
   Two moments of one process with equal Docker tokens, the first reached from the first mock cache and the second
   from there by any further steps, source flips included, show the same mode and inventory.
   */
  lemma EqualDockerTokensEqualInventories(u: Update, a: BootToken, b: BootToken, model: BootToken, token: BootToken,
                                          steps: seq<CacheStep>, more: seq<CacheStep>, digest: string -> HexDigest,
                                          c: CacheState, d: CacheState)
    requires c == RunCache(InitialCache(u, a, b, model, token), steps, digest)
    requires d == RunCache(c, more, digest) && Current(c.dockerRevision) == Current(d.dockerRevision)
    ensures c.core.mode == d.core.mode && c.snapshot.inventory == d.snapshot.inventory
  {
    DockerTokensGrow(InitialCache(u, a, b, model, token), steps, digest, c);
    DockerTokensGrow(c, more, digest, d);
    SameTokenSameSequence(c.dockerRevision, d.dockerRevision);
  }

  // ---------------------------------------------------------------- a publication that only moves the clock

  /** In Docker mode the derived state belongs to the published snapshot and the current slots. */
  ghost predicate Settled(c: CacheState, digest: string -> HexDigest) {
    c.core.mode == Docker ==>
      && c.dockerRevision.lastObservable == Some((Docker, c.snapshot.inventory))
      && c.integrityRevision.lastObservable == Some(CollisionActive(c.snapshot.topology, Docker, c.core.slots))
      && ClearVolatile(c.runtimeMap) == ClearVolatile(DerivedMap(c, digest))
      && c.history.baseline.Some?
      && IsInventory(c.history.baseline.value, c.snapshot.inventory.records, digest)
  }

  function DerivedMap(c: CacheState, digest: string -> HexDigest): RuntimeMap {
    PublishedMap(c.snapshot.topology, c.snapshot.lastUpdated, c.core.mode, c.core.slots, Current(c.dockerRevision),
                 Current(c.integrityRevision), digest)
  }

  lemma RepublishSettles(c: CacheState, digest: string -> HexDigest)
    ensures var next := Republish(c, digest);
            && next.dockerRevision.lastObservable == Some((c.core.mode, c.snapshot.inventory))
            && next.integrityRevision.lastObservable
               == Some(CollisionActive(c.snapshot.topology, c.core.mode, c.core.slots))
            && ClearVolatile(next.runtimeMap) == ClearVolatile(DerivedMap(next, digest))
            && next.core == c.core && next.history == c.history && next.snapshot.inventory == c.snapshot.inventory
            && next.snapshot.topology == c.snapshot.topology
  {
  }

  lemma ObserveSetsBaseline(h: HistoryState, inventory: Inventory, at: nat, token: BootToken)
    ensures Observe(h, inventory, at, token).baseline == Some(inventory)
  {
    if !Rebaselines(h, at) && h.baseline.Some? {
      var seen := h.(lastObservedAtMs := Some(at), baseline := Some(inventory));
      PushKeepsBaseline(seen, Changes(h.baseline.value, inventory), at);
    }
  }

  lemma {:induction false} PushKeepsBaseline(h: HistoryState, changes: seq<Change>, at: nat)
    ensures PushAll(h, changes, at).baseline == h.baseline
  {
    if changes != [] {
      PushKeepsBaseline(h, changes[..|changes| - 1], at);
    }
  }

  lemma StepSettles(c: CacheState, step: CacheStep, digest: string -> HexDigest)
    requires Settled(c, digest) && GenuineStep(step, digest)
    ensures Settled(NextCache(c, step, digest), digest)
  {
    match step
    case PublishStep(u, inventory, tokens) =>
      RepublishSettles(Replace(c, u, tokens), digest);
      var next := Republish(Replace(c, u, tokens), digest);
      ObserveSetsBaseline(next.history, inventory, u.snapshot.lastUpdated, tokens.epoch);
    case ClaimStep(now, active, wall) =>
      RepublishSettles(c.(core := ClaimCore(c.core, now, active, wall)), digest);
    case DeliverStep(d) =>
      RepublishSettles(c.(core := OutcomeCore(c.core, d.slot, d.mode, d.generation, d.outcome,
                                    SameCollectionEvidence(c.snapshot, d.observed), d.completedAt, d.wall, d.boot)),
                       digest);
  }

  lemma {:induction false} EveryRunIsSettled(c: CacheState, steps: seq<CacheStep>, digest: string -> HexDigest)
    requires Settled(c, digest) && Genuine(steps, digest)
    ensures Settled(RunCache(c, steps, digest), digest)
  {
    if steps != [] {
      var n := |steps| - 1;
      assert forall i :: 0 <= i < n ==> steps[..n][i] == steps[i];
      EveryRunIsSettled(c, steps[..n], digest);
      StepSettles(RunCache(c, steps[..n], digest), steps[n], digest);
    }
  }

  /** The same facts observed at another time. */
  predicate OnlyClockMoves(c: CacheState, u: Update) {
    && u.mode == Docker
    && u.snapshot.inventory == c.snapshot.inventory && u.snapshot.topology == c.snapshot.topology
    && u.health.dockerReachable == c.health.dockerReachable && u.health.message == c.health.message
  }

  /** Staleness is not part of what nodes, relationships or reports a slot contributes. */
  lemma {:induction false} SameRetainedSameParts(order: seq<ProviderSlot>, a: Slots, b: Slots)
    requires forall slot: ProviderSlot :: RetainedCollection(a[slot].observation) == RetainedCollection(b[slot].observation)
    ensures CombinedNodes(order, a) == CombinedNodes(order, b)
    ensures CombinedReports(order, a) == CombinedReports(order, b)
  {
    if order != [] {
      SameRetainedSameParts(order[..|order| - 1], a, b);
      var slot := order[|order| - 1];
      assert RetainedCollection(a[slot].observation) == RetainedCollection(b[slot].observation);
    }
  }

  predicate NetworkFresh(slots: Slots) {
    slots[NetworkInfrastructure].observation.Fresh?
  }

  lemma StaleNotices(slot: ProviderSlot, slots: Slots)
    ensures |SlotNotices(StaleNetwork(slots)[slot])|
            == |SlotNotices(slots[slot])| + (if slot == NetworkInfrastructure && NetworkFresh(slots) then 1 else 0)
  {
  }

  lemma {:induction false} StaleAddsNotice(order: seq<ProviderSlot>, slots: Slots)
    requires Distinct(order)
    ensures |CombinedNotices(order, StaleNetwork(slots))|
            == |CombinedNotices(order, slots)| + (if NetworkInfrastructure in order && NetworkFresh(slots) then 1 else 0)
  {
    if order != [] {
      var n := |order| - 1;
      StaleAddsNotice(order[..n], slots);
      StaleNotices(order[n], slots);
      assert order == order[..n] + [order[n]];
      assert order[n] !in order[..n];
    }
  }

  lemma StaleShows(topology: Topology, slots: Slots)
    ensures CombinedNodes(STATIC_PROVIDER_SLOTS, StaleNetwork(slots)) == CombinedNodes(STATIC_PROVIDER_SLOTS, slots)
    ensures NetworkFresh(slots) ==>
              |MapDiagnostics(topology, StaleNetwork(slots))| == |MapDiagnostics(topology, slots)| + 1
    ensures !NetworkFresh(slots) ==> StaleNetwork(slots) == slots
  {
    StaticSlotsAreAll(NetworkInfrastructure);
    var stale := StaleNetwork(slots);
    assert forall slot: ProviderSlot :: RetainedCollection(stale[slot].observation) == RetainedCollection(slots[slot].observation);
    SameRetainedSameParts(STATIC_PROVIDER_SLOTS, stale, slots);
    StaleAddsNotice(STATIC_PROVIDER_SLOTS, slots);
    if !NetworkFresh(slots) {
      assert forall slot: ProviderSlot :: stale[slot] == slots[slot];
    }
  }

  lemma NoChange(inventory: Inventory)
    ensures Changes(inventory, inventory) == []
  {
    NoDepartures(Sorting.SortedKeys(inventory.containers.Keys), inventory);
    NoArrivals(Sorting.SortedKeys(inventory.containers.Keys), inventory);
  }

  lemma {:induction false} NoDepartures(keys: seq<string>, inventory: Inventory)
    ensures Departures(keys, inventory, inventory) == []
  {
    if keys != [] {
      NoDepartures(keys[..|keys| - 1], inventory);
    }
  }

  lemma {:induction false} NoArrivals(keys: seq<string>, inventory: Inventory)
    ensures Arrivals(keys, inventory, inventory) == []
  {
    if keys != [] {
      NoArrivals(keys[..|keys| - 1], inventory);
    }
  }

  /** The derived map of the state before and after a publication that only moves the clock. */
  lemma ClockMovesMap(c: CacheState, u: Update, digest: string -> HexDigest)
    requires Settled(c, digest) && c.core.mode == Docker && OnlyClockMoves(c, u)
    ensures var sameTime := u.snapshot.lastUpdated == c.snapshot.lastUpdated;
            var slots := if sameTime then c.core.slots else StaleNetwork(c.core.slots);
            && CollisionActive(u.snapshot.topology, Docker, slots) == CollisionActive(c.snapshot.topology, Docker, c.core.slots)
            && var moved := PublishedMap(u.snapshot.topology, u.snapshot.lastUpdated, Docker, slots,
                                         Current(c.dockerRevision), Current(c.integrityRevision), digest);
               ClearVolatile(moved) == ClearVolatile(c.runtimeMap) <==> sameTime || !NetworkFresh(c.core.slots)
  {
    var t := c.snapshot.topology;
    StaleShows(t, c.core.slots);
    PublishedMapIgnoresTime(t, c.snapshot.lastUpdated, u.snapshot.lastUpdated, Docker, c.core.slots,
                            Current(c.dockerRevision), Current(c.integrityRevision), digest);
    DiagnosticsShown(t, u.snapshot.lastUpdated, StaleNetwork(c.core.slots), Current(c.dockerRevision),
                     Current(c.integrityRevision), digest);
    DiagnosticsShown(t, c.snapshot.lastUpdated, c.core.slots, Current(c.dockerRevision), Current(c.integrityRevision), digest);
  }

  lemma DiagnosticsShown(t: Topology, at: nat, slots: Slots, token: string, integrity: string, digest: string -> HexDigest)
    ensures ClearVolatile(PublishedMap(t, at, Docker, slots, token, integrity, digest)).diagnostics
            == MapDiagnostics(t, slots)
  {
  }

  /**
   A Docker publication that only moves the clock leaves the Docker token and the collision token alone, and a
   usable clock leaves the history events alone. The model revision stays exactly when the network slot is not
   fresh, or the clock did not move after all: the timestamp counts as collection evidence, so it makes a fresh
   network slot stale.
   */
  lemma ClockOnlyPublication(c: CacheState, u: Update, inventory: Inventory, tokens: Tokens, digest: string -> HexDigest)
    requires Labelled(c) && Settled(c, digest) && c.core.mode == Docker && OnlyClockMoves(c, u)
    requires IsInventory(inventory, u.snapshot.inventory.records, digest)
    ensures var next := PublishCache(c, u, inventory, tokens, digest);
            && Current(next.dockerRevision) == Current(c.dockerRevision)
            && Current(next.integrityRevision) == Current(c.integrityRevision)
            && (!Rebaselines(c.history, u.snapshot.lastUpdated) ==> next.history.events == c.history.events)
            && (next.snapshot.modelRevision == c.snapshot.modelRevision
                <==> !NetworkFresh(c.core.slots) || u.snapshot.lastUpdated == c.snapshot.lastUpdated)
  {
    var next := PublishCache(c, u, inventory, tokens, digest);
    ClockMovesMap(c, u, digest);
    RevisionAdvancesExactly(c, PublishStep(u, inventory, tokens), digest);
    ClockOnlyObservable(c, u, inventory, tokens, digest);
    InventoryIsCanonical(c.snapshot.inventory.records, u.snapshot.inventory.records, digest, c.history.baseline.value, inventory);
    NoChange(inventory);
  }

  /** What such a publication exposes, and the revisions it carries over. */
  lemma ClockOnlyObservable(c: CacheState, u: Update, inventory: Inventory, tokens: Tokens, digest: string -> HexDigest)
    requires Labelled(c) && Settled(c, digest) && c.core.mode == Docker && OnlyClockMoves(c, u)
    ensures var next := PublishCache(c, u, inventory, tokens, digest);
            && next.dockerRevision == c.dockerRevision && next.integrityRevision == c.integrityRevision
            && (ObservableOf(next) == ObservableOf(c) <==> ClearVolatile(next.runtimeMap) == ClearVolatile(c.runtimeMap))
            && ClearVolatile(next.runtimeMap)
               == ClearVolatile(PublishedMap(u.snapshot.topology, u.snapshot.lastUpdated, Docker,
                                             if u.snapshot.lastUpdated == c.snapshot.lastUpdated then c.core.slots
                                             else StaleNetwork(c.core.slots),
                                             Current(c.dockerRevision), Current(c.integrityRevision), digest))
  {
    ClockMovesMap(c, u, digest);
  }

  /** The same after any run of a process that started with a mock cache and is in Docker mode now. */
  lemma ReachableClockOnlyPublication(start: Update, a: BootToken, b: BootToken, model: BootToken, d: BootToken,
                                      steps: seq<CacheStep>, u: Update, inventory: Inventory, tokens: Tokens,
                                      digest: string -> HexDigest)
    requires Genuine(steps, digest) && IsInventory(inventory, u.snapshot.inventory.records, digest)
    requires var c := RunCache(InitialCache(start, a, b, model, d), steps, digest);
             c.core.mode == Docker && OnlyClockMoves(c, u)
    ensures var c := RunCache(InitialCache(start, a, b, model, d), steps, digest);
            var next := PublishCache(c, u, inventory, tokens, digest);
            && Current(next.dockerRevision) == Current(c.dockerRevision)
            && Current(next.integrityRevision) == Current(c.integrityRevision)
            && (!Rebaselines(c.history, u.snapshot.lastUpdated) ==> next.history.events == c.history.events)
            && (next.snapshot.modelRevision == c.snapshot.modelRevision
                <==> !NetworkFresh(c.core.slots) || u.snapshot.lastUpdated == c.snapshot.lastUpdated)
  {
    InitialIsSound(start, a, b, model, d, digest);
    EveryRunIsLabelled(InitialCache(start, a, b, model, d), steps, digest);
    EveryRunIsSettled(InitialCache(start, a, b, model, d), steps, digest);
    ClockOnlyPublication(RunCache(InitialCache(start, a, b, model, d), steps, digest), u, inventory, tokens, digest);
  }

  // ---------------------------------------------------------------- the history a cache serves

  /** The publications of a run, as its history sees them. */
  function Publications(steps: seq<CacheStep>): seq<HistoryRuns.Publication> {
    if steps == [] then []
    else
      var front, step := Publications(steps[..|steps| - 1]), steps[|steps| - 1];
      if step.PublishStep? then
        front + [PublicationOf(step)]
      else front
  }

  function PublicationOf(step: CacheStep): HistoryRuns.Publication
    requires step.PublishStep?
  {
    HistoryRuns.Publication(step.update.mode, step.inventory, step.update.snapshot.lastUpdated, step.tokens.history,
                            step.tokens.epoch)
  }

  function ServedBy(c: CacheState): HistoryRuns.Served {
    HistoryRuns.Served(c.core.mode, c.history)
  }

  lemma StepHistory(c: CacheState, step: CacheStep, digest: string -> HexDigest)
    ensures ServedBy(NextCache(c, step, digest))
            == if step.PublishStep? then HistoryRuns.Publish(ServedBy(c), PublicationOf(step)) else ServedBy(c)
  {
  }

  lemma {:induction false} CacheHistoryIsRun(c: CacheState, steps: seq<CacheStep>, digest: string -> HexDigest)
    ensures ServedBy(RunCache(c, steps, digest)) == HistoryRuns.Run(ServedBy(c), Publications(steps))
  {
    if steps != [] {
      var n := |steps| - 1;
      CacheHistoryIsRun(c, steps[..n], digest);
      StepHistory(RunCache(c, steps[..n], digest), steps[n], digest);
      if steps[n].PublishStep? {
        var all := Publications(steps);
        assert all[..|all| - 1] == Publications(steps[..n]);
      }
    }
  }

  lemma {:induction false} PublicationsAreObserved(steps: seq<CacheStep>)
    requires forall i :: 0 <= i < |steps| && steps[i].PublishStep? ==> WellFormed(steps[i].inventory)
    ensures HistoryRuns.Observed(Publications(steps))
  {
    if steps != [] {
      var n := |steps| - 1;
      assert forall i :: 0 <= i < n ==> steps[..n][i] == steps[i];
      PublicationsAreObserved(steps[..n]);
    }
  }

  lemma TokenFits<T>(revision: Revision<T>)
    requires revision.sequence <= U64_MAX
    ensures 1 <= |Current(revision)| <= 64
  {
    var digits := Decimal.Print(revision.sequence);
    Decimal.ValueOfPrint(revision.sequence);
    if revision.sequence > 0 {
      Decimal.PrintHasNoLeadingZero(revision.sequence);
      SequenceLength(digits);
    }
  }

  /**
   The history response of every reachable cache is admitted by the daemon's conversion and by the API, as long as
   no counter has overflowed, at which point the daemon stops.
   */
  lemma EveryServedHistoryIsAdmitted(start: Update, a: BootToken, b: BootToken, model: BootToken, d: BootToken,
                                     steps: seq<CacheStep>, digest: string -> HexDigest)
    requires forall i :: 0 <= i < |steps| && steps[i].PublishStep? ==> WellFormed(steps[i].inventory)
    requires var c := RunCache(InitialCache(start, a, b, model, d), steps, digest);
             c.history.nextSequence <= U64_MAX && c.revision.sequence <= U64_MAX && c.dockerRevision.sequence <= U64_MAX
    ensures var c := RunCache(InitialCache(start, a, b, model, d), steps, digest);
            var r := Response(c.history, c.core.mode, c.snapshot.modelRevision, Current(c.dockerRevision));
            DaemonAdmits(r) && SchemaAccepts(r) && ApiAdmits(r) && r.baselineEstablished == c.core.mode.Docker?
  {
    var initial := InitialCache(start, a, b, model, d);
    var c := RunCache(initial, steps, digest);
    OneRevisionEverywhere(start, a, b, model, d, steps, digest);
    TokenFits(c.revision);
    TokenFits(c.dockerRevision);
    CacheHistoryIsRun(initial, steps, digest);
    PublicationsAreObserved(steps);
    HistoryRuns.EveryServedHistoryIsAdmitted(d, Publications(steps), c.snapshot.modelRevision, Current(c.dockerRevision));
  }
}
