/** What the model revision and the collision token stand for, field by field. */
module CacheRecords {
  import opened Prelude
  import opened RuntimeModel
  import opened Identity
  import opened ProviderSlots
  import opened Scheduler
  import opened RuntimeMaps
  import opened MapContents
  import opened History
  import opened HistoryWire
  import opened Cache
  import opened CacheRuns
  import Decimal

  // ---------------------------------------------------------------- the model revision

  predicate SameEvidence(a: EvidenceRef, b: EvidenceRef) {
    && a.version == b.version && a.id == b.id && a.provider == b.provider && a.kind == b.kind
    && a.assertionKind == b.assertionKind && a.subjectRef == b.subjectRef && a.providerRevision == b.providerRevision
    && a.providerSlot == b.providerSlot && a.freshness == b.freshness
  }

  /** Two relationships that differ at most in when their evidence was collected. */
  predicate SameEdge(a: RuntimeEdge, b: RuntimeEdge) {
    && a.source == b.source && a.target == b.target && a.relationship == b.relationship && a.metadata == b.metadata
    && |a.evidenceRefs| == |b.evidenceRefs|
    && forall i :: 0 <= i < |a.evidenceRefs| ==> SameEvidence(a.evidenceRefs[i], b.evidenceRefs[i])
  }

  predicate SameEdges(a: seq<RuntimeEdge>, b: seq<RuntimeEdge>) {
    |a| == |b| && forall i :: 0 <= i < |a| ==> SameEdge(a[i], b[i])
  }

  /** Two caches show the same, apart from when it was observed and under which revisions. */
  predicate ShowsTheSame(c: CacheState, d: CacheState) {
    && c.core.mode == d.core.mode && c.snapshot.inventory == d.snapshot.inventory
    && c.health.dockerReachable == d.health.dockerReachable && c.health.message == d.health.message
    && c.runtimeMap.nodes == d.runtimeMap.nodes && c.runtimeMap.diagnostics == d.runtimeMap.diagnostics
    && c.runtimeMap.providerStates == d.runtimeMap.providerStates
    && SameEdges(c.runtimeMap.edges, d.runtimeMap.edges)
  }

  function Timeless(edge: RuntimeEdge): RuntimeEdge {
    edge.(evidenceRefs := ClearCollectedAt(edge.evidenceRefs))
  }

  lemma TimelessIs(a: RuntimeEdge, b: RuntimeEdge)
    ensures Timeless(a) == Timeless(b) <==> SameEdge(a, b)
  {
    if Timeless(a) == Timeless(b) {
      forall i | 0 <= i < |a.evidenceRefs| ensures SameEvidence(a.evidenceRefs[i], b.evidenceRefs[i]) {
        assert ClearCollectedAt(a.evidenceRefs)[i] == ClearCollectedAt(b.evidenceRefs)[i];
      }
    }
    if SameEdge(a, b) {
      var x, y := ClearCollectedAt(a.evidenceRefs), ClearCollectedAt(b.evidenceRefs);
      forall i | 0 <= i < |x| ensures x[i] == y[i] {
        assert SameEvidence(a.evidenceRefs[i], b.evidenceRefs[i]);
      }
      assert x == y;
    }
  }

  lemma {:induction false} ClearedAt(edges: seq<RuntimeEdge>)
    ensures |ClearEdgeTimes(edges)| == |edges|
    ensures forall i :: 0 <= i < |edges| ==> ClearEdgeTimes(edges)[i] == Timeless(edges[i])
  {
    if edges != [] {
      var front := edges[..|edges| - 1];
      ClearedAt(front);
      assert forall i :: 0 <= i < |front| ==> front[i] == edges[i];
    }
  }

  lemma ClearedIs(a: seq<RuntimeEdge>, b: seq<RuntimeEdge>)
    ensures ClearEdgeTimes(a) == ClearEdgeTimes(b) <==> SameEdges(a, b)
  {
    var x, y := ClearEdgeTimes(a), ClearEdgeTimes(b);
    ClearedAt(a);
    ClearedAt(b);
    if x == y {
      forall i | 0 <= i < |a| ensures SameEdge(a[i], b[i]) {
        TimelessIs(a[i], b[i]);
        assert x[i] == y[i];
      }
    }
    if SameEdges(a, b) {
      forall i | 0 <= i < |x| ensures x[i] == y[i] {
        TimelessIs(a[i], b[i]);
        assert SameEdge(a[i], b[i]);
      }
    }
  }

  lemma ObservableExactly(c: CacheState, d: CacheState)
    ensures ObservableOf(c) == ObservableOf(d) <==> ShowsTheSame(c, d)
  {
    ClearedIs(c.runtimeMap.edges, d.runtimeMap.edges);
  }

  /** A step keeps the model revision exactly when the cache shows the same afterwards. */
  lemma RevisionStandsForContents(c: CacheState, step: CacheStep, digest: string -> HexDigest, next: CacheState)
    requires Labelled(c) && next == NextCache(c, step, digest)
    ensures next.snapshot.modelRevision == c.snapshot.modelRevision <==> ShowsTheSame(c, next)
  {
    RevisionAdvancesExactly(c, step, digest);
    ObservableExactly(c, next);
  }

  lemma MomentsAre(c: CacheState, steps: seq<CacheStep>, digest: string -> HexDigest, d: CacheState)
    requires d == RunCache(c, steps, digest)
    ensures Views(c, steps, digest)[0] == ViewOf(c) && Views(c, steps, digest)[|steps|] == ViewOf(d)
  {
    assert steps[..0] == [] && steps[..|steps|] == steps;
    ViewsAreMoments(c, steps, digest, 0, c);
    ViewsAreMoments(c, steps, digest, |steps|, d);
  }

  /** However far apart, two moments of one process under one model revision show the same. */
  lemma EqualRevisionsShowTheSame(c: CacheState, steps: seq<CacheStep>, digest: string -> HexDigest, d: CacheState)
    requires Labelled(c) && d == RunCache(c, steps, digest)
    requires c.snapshot.modelRevision == d.snapshot.modelRevision
    ensures ShowsTheSame(c, d)
  {
    MomentsAre(c, steps, digest, d);
    EqualRevisionsEqualObservables(c, steps, digest, 0, |steps|);
    ObservableExactly(c, d);
  }

  // ---------------------------------------------------------------- the collision token

  ghost predicate Collides(c: CacheState) {
    c.core.mode == Docker && exists id :: Shared(c.snapshot.topology, c.core.slots, id)
  }

  lemma RepublishTracks(c: CacheState, digest: string -> HexDigest)
    ensures var next := Republish(c, digest);
            && next.integrityRevision == Assign(c.integrityRevision, CollisionActive(c.snapshot.topology, c.core.mode, c.core.slots))
            && next.core == c.core && next.snapshot.topology == c.snapshot.topology
  {
  }

  predicate Tracks(c: CacheState, next: CacheState) {
    next.integrityRevision
    == Assign(c.integrityRevision, CollisionActive(next.snapshot.topology, next.core.mode, next.core.slots))
  }

  lemma PublishTracks(c: CacheState, u: Update, inventory: Inventory, tokens: Tokens, digest: string -> HexDigest)
    requires c.core.mode == u.mode
    ensures Tracks(c, PublishCache(c, u, inventory, tokens, digest))
  {
    RepublishTracks(Replace(c, u, tokens), digest);
  }

  lemma UnchangedTracks(c: CacheState, digest: string -> HexDigest)
    requires Settled(c, digest) && c.core.mode == Docker
    ensures Tracks(c, c)
  {
  }

  lemma ClaimTracks(c: CacheState, now: nat, active: nat, wall: Option<nat>, digest: string -> HexDigest)
    requires Settled(c, digest) && c.core.mode == Docker
    ensures Tracks(c, ClaimCache(c, now, active, wall, digest))
  {
    UnchangedTracks(c, digest);
    RepublishTracks(c.(core := ClaimCore(c.core, now, active, wall)), digest);
  }

  lemma DeliveryTracks(c: CacheState, d: Delivery, digest: string -> HexDigest)
    requires Settled(c, digest) && c.core.mode == Docker
    ensures Tracks(c, DeliverCache(c, d, digest))
  {
    UnchangedTracks(c, digest);
    RepublishTracks(c.(core := OutcomeCore(c.core, d.slot, d.mode, d.generation, d.outcome,
                                           SameCollectionEvidence(c.snapshot, d.observed), d.completedAt, d.wall, d.boot)),
                    digest);
  }

  lemma StepTracks(c: CacheState, step: CacheStep, digest: string -> HexDigest, next: CacheState)
    requires Settled(c, digest) && c.core.mode == Docker && next == NextCache(c, step, digest)
    requires step.PublishStep? ==> step.update.mode == Docker
    ensures Tracks(c, next)
  {
    match step
    case PublishStep(u, inventory, tokens) => PublishTracks(c, u, inventory, tokens, digest);
    case ClaimStep(now, active, wall) => ClaimTracks(c, now, active, wall, digest);
    case DeliverStep(d) => DeliveryTracks(c, d, digest);
  }

  lemma SourceStays(c: CacheState, step: CacheStep, digest: string -> HexDigest, next: CacheState)
    requires next == NextCache(c, step, digest) && step.PublishStep?
    ensures next.core.mode == step.update.mode
  {
  }

  /** While Docker stays the source, the collision token moves exactly when shared identities appear or go. */
  lemma CollisionTokenAdvancesExactly(c: CacheState, step: CacheStep, digest: string -> HexDigest, next: CacheState)
    requires Settled(c, digest) && c.core.mode == Docker && next == NextCache(c, step, digest) && next.core.mode == Docker
    ensures Current(next.integrityRevision) == Current(c.integrityRevision) <==> (Collides(next) <==> Collides(c))
  {
    if step.PublishStep? {
      SourceStays(c, step, digest, next);
    }
    StepTracks(c, step, digest, next);
    ActiveIs(c.snapshot.topology, Docker, c.core.slots);
    ActiveIs(next.snapshot.topology, Docker, next.core.slots);
    if Current(next.integrityRevision) == Current(c.integrityRevision) {
      SameTokenSameSequence(next.integrityRevision, c.integrityRevision);
    }
  }

  // ---------------------------------------------------------------- what a source flip starts over

  /** A publication from the other source starts the history and the collision token over, any other keeps their tokens. */
  lemma FlipStartsOver(c: CacheState, u: Update, inventory: Inventory, tokens: Tokens, digest: string -> HexDigest)
    ensures var next := PublishCache(c, u, inventory, tokens, digest);
            if u.mode == c.core.mode then next.integrityRevision.boot == c.integrityRevision.boot
            else
              && next.integrityRevision.boot == tokens.integrity && next.integrityRevision.sequence == 1
              && next.history.events == [] && next.history.nextSequence == 0
              && next.history.boot == (if u.mode == Docker && u.snapshot.lastUpdated > 9_007_199_254_740_991 then tokens.epoch
                                       else tokens.history)
  {
    RepublishTracks(Replace(c, u, tokens), digest);
  }

  lemma DockerHasBaseline(c: CacheState, step: CacheStep, digest: string -> HexDigest, next: CacheState)
    requires next == NextCache(c, step, digest) && (c.history.baseline.Some? <==> c.core.mode == Docker)
    ensures next.history.baseline.Some? <==> next.core.mode == Docker
  {
    if step.PublishStep? {
      ObservedHasBaseline(Replace(c, step.update, step.tokens).history, step.inventory, step.update.snapshot.lastUpdated,
                          step.tokens.epoch);
    }
  }

  lemma {:induction false} PushKeepsBaseline(h: HistoryState, changes: seq<Change>, at: nat)
    ensures PushAll(h, changes, at).baseline == h.baseline
  {
    if changes != [] {
      PushKeepsBaseline(h, changes[..|changes| - 1], at);
    }
  }

  lemma ObservedHasBaseline(h: HistoryState, current: Inventory, at: nat, boot: BootToken)
    ensures Observe(h, current, at, boot).baseline == Some(current)
  {
    if h.baseline.Some? {
      PushKeepsBaseline(h.(lastObservedAtMs := Some(at), baseline := Some(current)), Changes(h.baseline.value, current), at);
    }
  }

  lemma {:induction false} BaselineFollowsSource(c: CacheState, steps: seq<CacheStep>, digest: string -> HexDigest, d: CacheState)
    requires (c.history.baseline.Some? <==> c.core.mode == Docker) && d == RunCache(c, steps, digest)
    ensures d.history.baseline.Some? <==> d.core.mode == Docker
  {
    if steps != [] {
      var front := steps[..|steps| - 1];
      var before := RunCache(c, front, digest);
      BaselineFollowsSource(c, front, digest, before);
      DockerHasBaseline(before, steps[|steps| - 1], digest, d);
    }
  }

  predicate Shows(r: HistoryResponse, mode: RuntimeMode, model: string, observed: string, events: seq<ChangeEvent>) {
    && r.source == mode && (r.baselineEstablished <==> mode == Docker)
    && (mode == Docker ==>
          && r.currentModelRevision == Some(model) && r.observedRevision == Some(observed) && |r.events| == |events|
          && forall i :: 0 <= i < |r.events| ==> r.events[i] == events[|r.events| - 1 - i])
    && (mode == Mock ==> r.currentModelRevision.None? && r.observedRevision.None? && r.events == [])
  }

  lemma ResponseShows(h: HistoryState, mode: RuntimeMode, model: string, observed: string)
    requires h.baseline.Some? <==> mode == Docker
    ensures Shows(Response(h, mode, model, observed), mode, model, observed, h.events)
  {
  }

  /**
   In every run the served history is there exactly in Docker mode; it names the model revision of everything served and the
   token of the Docker evidence, and lists the retained events newest first.
   */
  lemma HistoryServedExactly(c: CacheState, steps: seq<CacheStep>, digest: string -> HexDigest, d: CacheState)
    requires (c.history.baseline.Some? <==> c.core.mode == Docker) && d == RunCache(c, steps, digest)
    ensures Shows(Response(d.history, d.core.mode, d.snapshot.modelRevision, Current(d.dockerRevision)), d.core.mode,
                  d.snapshot.modelRevision, Current(d.dockerRevision), d.history.events)
  {
    BaselineFollowsSource(c, steps, digest, d);
    ResponseShows(d.history, d.core.mode, d.snapshot.modelRevision, Current(d.dockerRevision));
  }

  // ---------------------------------------------------------------- tokens

  lemma TokenParts(a: string, m: nat, b: string, n: nat)
    requires |a| == |b| && a + ['-'] + Decimal.Print(m) == b + ['-'] + Decimal.Print(n)
    ensures a == b && m == n
  {
    var s := a + ['-'] + Decimal.Print(m);
    assert s[..|a|] == a && (b + ['-'] + Decimal.Print(n))[..|b|] == b;
    Decimal.SameTextSameNumber(a, m, n);
  }

  /** A token names one process and one number of it, in the cache as for a slot. */
  lemma TokensTellApart<T>(a: Revision<T>, b: Revision<T>, x: SlotDataRevision, y: SlotDataRevision)
    requires |x.boot| == |y.boot|
    ensures Current(a) == Current(b) <==> a.boot == b.boot && a.sequence == b.sequence
    ensures PublicRevision(x) == PublicRevision(y) <==> x == y
  {
    if Current(a) == Current(b) {
      TokenParts(a.boot, a.sequence, b.boot, b.sequence);
    }
    if PublicRevision(x) == PublicRevision(y) {
      TokenParts(x.boot, x.sequence, y.boot, y.sequence);
    }
  }
}
