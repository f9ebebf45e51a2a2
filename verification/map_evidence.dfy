/** Every published map's provider evidence against the public state of the slot it names. */
module MapEvidence {
  import opened Prelude
  import opened RuntimeModel
  import opened Identity
  import opened ProviderSlots
  import opened Evidence
  import opened Scheduler
  import opened RuntimeMaps
  import opened WorkerRuns

  /** Evidence that names a slot attests its own relationship, at that slot's public freshness. */
  ghost predicate EvidenceHonest(slots: Slots, edge: RuntimeEdge, e: EvidenceRef) {
    e.providerSlot.Some? ==>
      && BindsEvidence(e.providerSlot.value)
      && FreshnessOfState(ProjectSlot(e.providerSlot.value, slots[e.providerSlot.value]).state) == Some(e.freshness)
      && AttestsEdge(edge, e)
  }

  ghost predicate EdgeHonest(slots: Slots, edge: RuntimeEdge) {
    && (forall e :: e in edge.evidenceRefs ==> EvidenceHonest(slots, edge, e))
    && (forall slot: ProviderSlot :: BindsEvidence(slot) ==> MarkerKey(slot) !in edge.metadata)
  }

  lemma AttestsIgnoresMarkers(edge: RuntimeEdge, bound: RuntimeEdge, e: EvidenceRef)
    requires AttestsEdge(edge, e)
    requires bound.source == edge.source && bound.target == edge.target && bound.relationship == edge.relationship
    ensures AttestsEdge(bound, e)
  {
  }

  lemma BoundEdgeHonest(slot: ProviderSlot, edge: RuntimeEdge, slots: Slots, clock: nat, digest: string -> HexDigest)
    requires BindsEvidence(slot) && OwnEdge(slot, edge) && SlotCoherent(slot, slots[slot], clock)
    requires RetainedCollection(slots[slot].observation).Some?
    ensures EdgeHonest(slots, BindEdge(slot, edge, slots[slot], digest))
  {
    var bound := BindEdge(slot, edge, slots[slot], digest);
    BoundEdgeEvidence(slot, edge, slots[slot], clock, digest);
    MarkerNeverSurvives(slot, edge, slots[slot], digest);
    forall e | e in bound.evidenceRefs ensures EvidenceHonest(slots, bound, e) {
      assert bound.evidenceRefs == [e];
      assert e.providerSlot == Some(slot);
      AttestsIgnoresMarkers(edge, bound, e);
    }
  }

  lemma PlainEdgeHonest(slot: ProviderSlot, edge: RuntimeEdge, slots: Slots)
    requires !BindsEvidence(slot) && OwnEdge(slot, edge)
    ensures EdgeHonest(slots, edge)
  {
  }

  lemma SlotEdgesHonest(slot: ProviderSlot, slots: Slots, clock: nat, digest: string -> HexDigest, edge: RuntimeEdge)
    requires SlotCoherent(slot, slots[slot], clock) && edge in SlotEdges(slot, slots[slot], digest)
    ensures EdgeHonest(slots, edge)
  {
    var collected := RetainedCollection(slots[slot].observation).value.edges;
    assert OwnEdges(slot, collected);
    var i :| 0 <= i < |SlotEdges(slot, slots[slot], digest)| && SlotEdges(slot, slots[slot], digest)[i] == edge;
    assert OwnEdge(slot, collected[i]);
    if BindsEvidence(slot) {
      BoundEdgeHonest(slot, collected[i], slots, clock, digest);
    } else {
      PlainEdgeHonest(slot, edge, slots);
    }
  }

  lemma {:induction false} CombinedEdgesHonest(order: seq<ProviderSlot>, slots: Slots, clock: nat,
                                               digest: string -> HexDigest, edge: RuntimeEdge)
    requires forall slot: ProviderSlot :: SlotCoherent(slot, slots[slot], clock)
    requires edge in CombinedEdges(order, slots, digest)
    ensures EdgeHonest(slots, edge)
  {
    var n := |order| - 1;
    if edge in CombinedEdges(order[..n], slots, digest) {
      CombinedEdgesHonest(order[..n], slots, clock, digest, edge);
    } else {
      SlotEdgesHonest(order[n], slots, clock, digest, edge);
    }
  }

  lemma {:induction false} DockerEdgesHonest(facts: seq<DockerFact>, at: nat, token: string, digest: string -> HexDigest,
                                             slots: Slots, edge: RuntimeEdge)
    requires edge in DockerEdges(facts, at, token, digest)
    ensures EdgeHonest(slots, edge)
  {
    var n := |facts| - 1;
    if edge in DockerEdges(facts[..n], at, token, digest) {
      DockerEdgesHonest(facts[..n], at, token, digest, slots, edge);
    } else {
      assert edge == DockerEdge(facts[n], at, token, digest);
    }
  }

  lemma {:induction false} WithoutEvidenceHas(edges: seq<RuntimeEdge>, edge: RuntimeEdge) returns (from: RuntimeEdge)
    requires edge in WithoutEvidence(edges)
    ensures from in edges && edge == from.(evidenceRefs := [])
  {
    var n := |edges| - 1;
    if edge in WithoutEvidence(edges[..n]) {
      from := WithoutEvidenceHas(edges[..n], edge);
    } else {
      from := edges[n];
    }
  }

  /** The source edge of every published relationship, before sample topology loses its evidence. */
  lemma MapEdgeOrigin(topology: Topology, at: nat, mode: RuntimeMode, slots: Slots, token: string,
                      digest: string -> HexDigest, edge: RuntimeEdge) returns (from: RuntimeEdge)
    requires edge in MapEdges(topology, at, mode, slots, token, digest)
    ensures from in CombinedEdges(STATIC_PROVIDER_SLOTS, slots, digest) || from in DockerEdges(topology.facts, at, token, digest)
    ensures edge == if mode == Docker then from else from.(evidenceRefs := [])
  {
    var provider := ProviderEdges(mode, slots, digest);
    var edges := provider + DockerEdges(topology.facts, at, token, digest);
    var nodes := CombinedNodes(STATIC_PROVIDER_SLOTS, slots);
    FilterMembers(CombinedEdges(STATIC_PROVIDER_SLOTS, slots, digest), (e: RuntimeEdge) => HostGate(mode, nodes, e));
    FilterMembers(if mode == Docker then edges else WithoutEvidence(edges), Routed(MapNodes(topology, slots)));
    if mode == Docker {
      from := edge;
    } else {
      from := WithoutEvidenceHas(edges, edge);
    }
  }

  /**
   In the map of any coherent cache, provider evidence carries exactly its slot's public freshness and attests its
   relationship, sample topology carries none, and no private marker is left anywhere.
   */
  lemma PublishedMapIsHonest(topology: Topology, at: nat, c: Core, clock: nat, token: string, integrity: string,
                             digest: string -> HexDigest, edge: RuntimeEdge)
    requires CoreCoherent(c, clock)
    requires edge in PublishedMap(topology, at, c.mode, c.slots, token, integrity, digest).edges
    ensures EdgeHonest(c.slots, edge)
    ensures c.mode == Mock ==> edge.evidenceRefs == []
  {
    if edge in MapEdges(topology, at, c.mode, c.slots, token, digest) {
      var from := MapEdgeOrigin(topology, at, c.mode, c.slots, token, digest, edge);
      if from in CombinedEdges(STATIC_PROVIDER_SLOTS, c.slots, digest) {
        CombinedEdgesHonest(STATIC_PROVIDER_SLOTS, c.slots, clock, digest, from);
      } else {
        DockerEdgesHonest(topology.facts, at, token, digest, c.slots, from);
      }
    } else {
      assert edge == CollisionEdge(at, integrity);
    }
  }

  /** The same in every reachable state of the daemon, whatever was collected and whenever it came in. */
  lemma EveryReachableMapIsHonest(steps: seq<Step>, boot: string, topology: Topology, at: nat, token: string,
                                  integrity: string, digest: string -> HexDigest, edge: RuntimeEdge)
    requires After(steps, boot).Some?
    requires var c := After(steps, boot).value.core;
             edge in PublishedMap(topology, at, c.mode, c.slots, token, integrity, digest).edges
    ensures EdgeHonest(After(steps, boot).value.core.slots, edge)
    ensures After(steps, boot).value.core.mode == Mock ==> edge.evidenceRefs == []
  {
    EveryRunIsCoherent(steps, boot);
    var s := After(steps, boot).value;
    PublishedMapIsHonest(topology, at, s.core, s.clock, token, integrity, digest, edge);
  }

  /**
   In every reachable state a retained relationship of a binding slot carries one piece of evidence if it was
   correctly marked and the slot is not disabled, and none otherwise; its freshness is the slot's public state.
   */
  lemma EveryReachableBindingIsExact(steps: seq<Step>, boot: string, slot: ProviderSlot, edge: RuntimeEdge,
                                     digest: string -> HexDigest)
    requires After(steps, boot).Some? && BindsEvidence(slot)
    requires RetainedCollection(After(steps, boot).value.core.slots[slot].observation).Some?
    ensures var state := After(steps, boot).value.core.slots[slot];
            var bound := BindEdge(slot, edge, state, digest);
            var kind := ProjectSlot(slot, state).state;
            && |bound.evidenceRefs| == (if MarkedKind(slot, edge).Some? && !kind.Disabled? then 1 else 0)
            && (bound.evidenceRefs != [] ==> FreshnessOfState(kind) == Some(bound.evidenceRefs[0].freshness))
  {
    EveryRunIsCoherent(steps, boot);
    var s := After(steps, boot).value;
    BoundEdgeEvidence(slot, edge, s.core.slots[slot], s.clock, digest);
  }
}
