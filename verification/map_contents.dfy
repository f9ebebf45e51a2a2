/** What a published map holds: exactly which nodes, relationships and diagnostics, and nothing else. */
module MapContents {
  import opened Prelude
  import opened RuntimeModel
  import opened Identity
  import opened ProviderSlots
  import opened Evidence
  import opened Scheduler
  import opened RuntimeMaps

  // ---------------------------------------------------------------- what the slots retain

  function NodesFrom(slots: Slots, slot: ProviderSlot): seq<RuntimeNode> {
    match RetainedCollection(slots[slot].observation)
    case None => []
    case Some(collection) => collection.nodes
  }

  predicate RetainsEdge(slots: Slots, slot: ProviderSlot, edge: RuntimeEdge) {
    RetainedCollection(slots[slot].observation).Some? && edge in RetainedCollection(slots[slot].observation).value.edges
  }

  predicate RetainsReport(slots: Slots, slot: ProviderSlot, text: string) {
    RetainedCollection(slots[slot].observation).Some? && text in RetainedCollection(slots[slot].observation).value.diagnostics
  }

  /** All retained nodes, slot by slot. */
  function NodesInOrder(slots: Slots): seq<RuntimeNode> {
    NodesFrom(slots, NetworkInfrastructure) + NodesFrom(slots, HostScoped) + NodesFrom(slots, Tmux) + NodesFrom(slots, Cron)
    + NodesFrom(slots, Systemd) + NodesFrom(slots, PythonProcesses) + NodesFrom(slots, NativeProcesses)
    + NodesFrom(slots, ProjectNpm)
  }

  lemma NodesAppend(order: seq<ProviderSlot>, slot: ProviderSlot, slots: Slots)
    ensures CombinedNodes(order + [slot], slots) == CombinedNodes(order, slots) + NodesFrom(slots, slot)
  {
    assert (order + [slot])[..|order|] == order;
  }

  lemma TwoMoreNodes(order: seq<ProviderSlot>, a: ProviderSlot, b: ProviderSlot, slots: Slots, all: seq<ProviderSlot>,
                     before: seq<RuntimeNode>)
    requires all == order + [a, b] && before == CombinedNodes(order, slots)
    ensures CombinedNodes(all, slots) == before + NodesFrom(slots, a) + NodesFrom(slots, b)
  {
    NodesAppend(order, a, slots);
    NodesAppend(order + [a], b, slots);
    assert order + [a] + [b] == all;
  }

  lemma TwoNodes(a: ProviderSlot, b: ProviderSlot, slots: Slots, all: seq<ProviderSlot>)
    requires all == [a, b]
    ensures CombinedNodes(all, slots) == NodesFrom(slots, a) + NodesFrom(slots, b)
  {
    assert all == [] + [a, b];
    TwoMoreNodes([], a, b, slots, all, []);
    assert [] + NodesFrom(slots, a) == NodesFrom(slots, a);
  }

  lemma EightInOrder(a: ProviderSlot, b: ProviderSlot, c: ProviderSlot, d: ProviderSlot, e: ProviderSlot, f: ProviderSlot,
                     g: ProviderSlot, h: ProviderSlot, slots: Slots, two: seq<ProviderSlot>, four: seq<ProviderSlot>,
                     six: seq<ProviderSlot>, all: seq<ProviderSlot>)
    requires two == [a, b] && four == two + [c, d] && six == four + [e, f] && all == six + [g, h]
    ensures CombinedNodes(all, slots)
            == NodesFrom(slots, a) + NodesFrom(slots, b) + NodesFrom(slots, c) + NodesFrom(slots, d)
               + NodesFrom(slots, e) + NodesFrom(slots, f) + NodesFrom(slots, g) + NodesFrom(slots, h)
  {
    var x := NodesFrom(slots, a) + NodesFrom(slots, b);
    var y := x + NodesFrom(slots, c) + NodesFrom(slots, d);
    var z := y + NodesFrom(slots, e) + NodesFrom(slots, f);
    TwoNodes(a, b, slots, two);
    TwoMoreNodes(two, c, d, slots, four, x);
    TwoMoreNodes(four, e, f, slots, six, y);
    TwoMoreNodes(six, g, h, slots, all, z);
  }

  lemma CombinedInOrder(slots: Slots)
    ensures CombinedNodes(STATIC_PROVIDER_SLOTS, slots) == NodesInOrder(slots)
  {
    var two := [NetworkInfrastructure, HostScoped];
    var four := two + [Tmux, Cron];
    var six := four + [Systemd, PythonProcesses];
    assert STATIC_PROVIDER_SLOTS == six + [NativeProcesses, ProjectNpm];
    EightInOrder(NetworkInfrastructure, HostScoped, Tmux, Cron, Systemd, PythonProcesses, NativeProcesses, ProjectNpm, slots,
                 two, four, six, STATIC_PROVIDER_SLOTS);
  }

  lemma {:induction false} CombinedEdgeHas(order: seq<ProviderSlot>, slots: Slots, digest: string -> HexDigest, edge: RuntimeEdge)
    ensures edge in CombinedEdges(order, slots, digest)
            <==> exists slot :: slot in order && edge in SlotEdges(slot, slots[slot], digest)
  {
    if order != [] {
      var n := |order| - 1;
      CombinedEdgeHas(order[..n], slots, digest, edge);
      assert order == order[..n] + [order[n]];
    }
  }

  /** A retained relationship as it is published: bound to its evidence, if its slot binds any. */
  function Published(slots: Slots, slot: ProviderSlot, edge: RuntimeEdge, digest: string -> HexDigest): RuntimeEdge {
    if BindsEvidence(slot) then BindEdge(slot, edge, slots[slot], digest) else edge
  }

  lemma SlotEdgeHas(slots: Slots, slot: ProviderSlot, digest: string -> HexDigest, edge: RuntimeEdge)
    ensures edge in SlotEdges(slot, slots[slot], digest)
            <==> exists from :: RetainsEdge(slots, slot, from) && edge == Published(slots, slot, from, digest)
  {
    var all := SlotEdges(slot, slots[slot], digest);
    var retained := RetainedCollection(slots[slot].observation);
    if edge in all {
      var i :| 0 <= i < |all| && all[i] == edge;
      assert RetainsEdge(slots, slot, retained.value.edges[i]);
    }
    if from :| RetainsEdge(slots, slot, from) && edge == Published(slots, slot, from, digest) {
      var i :| 0 <= i < |retained.value.edges| && retained.value.edges[i] == from;
      assert all[i] == edge;
    }
  }

  // ---------------------------------------------------------------- the local host

  /** How many retained nodes carry an identity. */
  function RetainedCount(slots: Slots, id: string): nat {
    |Filter(NodesInOrder(slots), WithId(id))|
  }

  ghost predicate RetainsNode(slots: Slots, id: string, provider: NodeProvider, kind: NodeKind) {
    exists n :: n in NodesInOrder(slots) && n.id == id && n.provider == provider && n.kind == kind
  }

  /** The canonical host: one retained node has the identity, and it is a host's. */
  ghost predicate LocalHost(slots: Slots) {
    RetainedCount(slots, "host_local") == 1 && RetainsNode(slots, "host_local", HostProvider, Host)
  }

  /**
   A scheduled job runs on the local host only if that is unambiguous, a tmux session only in Docker mode and if its
   own identity is unambiguous too.
   */
  ghost predicate HostRule(mode: RuntimeMode, slots: Slots, edge: RuntimeEdge) {
    edge.target == "host_local" && edge.relationship == RunsOn ==>
      && ("scheduled_job_" <= edge.source ==> LocalHost(slots))
      && ("tmux_session_" <= edge.source ==>
            && mode == Docker && LocalHost(slots)
            && RetainedCount(slots, edge.source) == 1 && RetainsNode(slots, edge.source, TmuxProvider, TmuxSession))
  }

  lemma OneIsTheNode(nodes: seq<RuntimeNode>, id: string, provider: NodeProvider, kind: NodeKind)
    ensures var named := Filter(nodes, WithId(id));
            (|named| == 1 && named[0].provider == provider && named[0].kind == kind)
            <==> |named| == 1 && exists n :: n in nodes && n.id == id && n.provider == provider && n.kind == kind
  {
    var named := Filter(nodes, WithId(id));
    FilterMembers(nodes, WithId(id));
    if |named| == 1 {
      assert named[0] in named;
      if n :| n in nodes && n.id == id && n.provider == provider && n.kind == kind {
        assert n in named;
      }
    }
  }

  lemma PrefixesDiffer(source: string, a: string, b: string)
    requires a == "scheduled_job_" && b == "tmux_session_"
    ensures !(a <= source && b <= source)
  {
    assert a[0] != b[0];
  }

  lemma GateIsRule(mode: RuntimeMode, slots: Slots, edge: RuntimeEdge, nodes: seq<RuntimeNode>)
    requires nodes == NodesInOrder(slots)
    ensures HostGate(mode, nodes, edge) <==> HostRule(mode, slots, edge)
  {
    OneIsTheNode(nodes, "host_local", HostProvider, Host);
    OneIsTheNode(nodes, edge.source, TmuxProvider, TmuxSession);
    PrefixesDiffer(edge.source, "scheduled_job_", "tmux_session_");
  }

  // ---------------------------------------------------------------- relationships

  /** A retained relationship as published, if the host rule lets it through. */
  ghost predicate FromSlot(mode: RuntimeMode, slots: Slots, digest: string -> HexDigest, edge: RuntimeEdge) {
    HostRule(mode, slots, edge)
    && exists slot: ProviderSlot, from :: RetainsEdge(slots, slot, from) && edge == Published(slots, slot, from, digest)
  }

  /** A relationship says what a Docker fact says, with one piece of fresh Docker evidence of its kind, if it has one. */
  predicate StatesFact(edge: RuntimeEdge, fact: DockerFact, at: nat, token: string) {
    && edge.source == fact.source && edge.target == fact.target && edge.relationship == fact.relationship
    && edge.metadata == map[]
    && match fact.kind
       case None => edge.evidenceRefs == []
       case Some(kind) =>
         && |edge.evidenceRefs| == 1
         && var e := edge.evidenceRefs[0];
            && e.version == 1 && e.provider == DockerEvidence && e.kind == kind && e.assertionKind == Observed
            && e.subjectRef == fact.source && e.collectedAt == at && e.providerRevision == token
            && e.providerSlot.None? && e.freshness == FreshEvidence
  }

  /** Evidence identifiers are made of the kind's name and the digest of both ends. */
  predicate NamesItsEnds(edge: RuntimeEdge, fact: DockerFact, digest: string -> HexDigest) {
    |edge.evidenceRefs| == 1 && fact.kind.Some? ==>
      edge.evidenceRefs[0].id
      == "docker_evidence_" + KindName(fact.kind.value) + "_" + Component(digest, fact.source + US + fact.target)
  }

  predicate DockerKind(kind: EvidenceKind) {
    || kind.DockerNetworkMembership? || kind.DockerVolumeMount? || kind.DockerPortPublication?
    || kind.DockerUnspecifiedAddressPortPublication? || kind.DockerComposeDependsOn? || kind.DockerDaemonStateBindMount?
  }

  lemma NamesBeginApart(a: EvidenceKind, b: EvidenceKind)
    requires DockerKind(a) && DockerKind(b)
    ensures KindName(a) != "" && KindName(b) != "" && (KindName(a)[0] == KindName(b)[0] ==> a == b)
  {
  }

  /** Two Docker evidence identifiers are equal only for one kind and ends of one digest. */
  lemma DockerIdsTellApart(x: RuntimeEdge, f: DockerFact, y: RuntimeEdge, g: DockerFact, digest: string -> HexDigest)
    requires |x.evidenceRefs| == 1 && |y.evidenceRefs| == 1 && f.kind.Some? && g.kind.Some?
    requires DockerKind(f.kind.value) && DockerKind(g.kind.value) && NamesItsEnds(x, f, digest) && NamesItsEnds(y, g, digest)
    requires x.evidenceRefs[0].id == y.evidenceRefs[0].id
    ensures f.kind == g.kind && digest(f.source + US + f.target) == digest(g.source + US + g.target)
  {
    var a, b := KindName(f.kind.value), KindName(g.kind.value);
    NamesBeginApart(f.kind.value, g.kind.value);
    ComponentDigest(digest, "docker_evidence_" + a + "_", f.source + US + f.target, "docker_evidence_" + b + "_",
                    g.source + US + g.target);
    SecondPart("docker_evidence_", a, Component(digest, f.source + US + f.target), x.evidenceRefs[0].id);
    SecondPart("docker_evidence_", b, Component(digest, g.source + US + g.target), y.evidenceRefs[0].id);
  }

  lemma SecondPart(front: string, middle: string, rest: string, text: string)
    requires middle != "" && text == front + middle + "_" + rest
    ensures |text| > |front| && text[|front|] == middle[0]
  {
  }

  ghost predicate FromFact(topology: Topology, at: nat, token: string, digest: string -> HexDigest, edge: RuntimeEdge) {
    exists fact :: fact in topology.facts && StatesFact(edge, fact, at, token) && NamesItsEnds(edge, fact, digest)
  }

  lemma FactEdgeIs(fact: DockerFact, at: nat, token: string, digest: string -> HexDigest, edge: RuntimeEdge)
    ensures edge == DockerEdge(fact, at, token, digest)
            <==> StatesFact(edge, fact, at, token) && NamesItsEnds(edge, fact, digest)
  {
    var other := DockerEdge(fact, at, token, digest);
    if StatesFact(edge, fact, at, token) && NamesItsEnds(edge, fact, digest) {
      assert edge.evidenceRefs == other.evidenceRefs;
    }
  }

  lemma {:induction false} DockerEdgesHave(facts: seq<DockerFact>, at: nat, token: string, digest: string -> HexDigest,
                                           edge: RuntimeEdge)
    ensures edge in DockerEdges(facts, at, token, digest)
            <==> exists fact :: fact in facts && edge == DockerEdge(fact, at, token, digest)
  {
    if facts != [] {
      var n := |facts| - 1;
      DockerEdgesHave(facts[..n], at, token, digest, edge);
      assert facts == facts[..n] + [facts[n]];
    }
  }

  lemma {:induction false} WithoutEvidenceIs(edges: seq<RuntimeEdge>, edge: RuntimeEdge)
    ensures edge in WithoutEvidence(edges) <==> exists from :: from in edges && edge == from.(evidenceRefs := [])
  {
    if edges != [] {
      var n := |edges| - 1;
      WithoutEvidenceIs(edges[..n], edge);
      assert edges == edges[..n] + [edges[n]];
    }
  }

  /** A node of the map, before any aggregate fact is added, has this identity. */
  ghost predicate Named(topology: Topology, slots: Slots, id: string) {
    exists n :: (n in NodesInOrder(slots) || n in topology.nodes) && n.id == id
  }

  lemma HasNodeIs(topology: Topology, slots: Slots, id: string)
    ensures HasNode(MapNodes(topology, slots), id) <==> Named(topology, slots, id)
  {
    var nodes := MapNodes(topology, slots);
    CombinedInOrder(slots);
    if HasNode(nodes, id) {
      var i :| 0 <= i < |nodes| && nodes[i].id == id;
      assert nodes[i] in NodesInOrder(slots) || nodes[i] in topology.nodes;
    }
    if n :| (n in NodesInOrder(slots) || n in topology.nodes) && n.id == id {
      assert n in nodes;
    }
  }

  /** What a relationship was before sample topology loses its evidence. */
  ghost predicate Sourced(topology: Topology, at: nat, mode: RuntimeMode, slots: Slots, token: string,
                          digest: string -> HexDigest, edge: RuntimeEdge)
  {
    FromFact(topology, at, token, digest, edge) || FromSlot(mode, slots, digest, edge)
  }

  lemma ProviderEdgeIs(mode: RuntimeMode, slots: Slots, digest: string -> HexDigest, edge: RuntimeEdge)
    ensures edge in ProviderEdges(mode, slots, digest) <==> FromSlot(mode, slots, digest, edge)
  {
    var nodes := CombinedNodes(STATIC_PROVIDER_SLOTS, slots);
    CombinedInOrder(slots);
    FilterMembers(CombinedEdges(STATIC_PROVIDER_SLOTS, slots, digest), (e: RuntimeEdge) => HostGate(mode, nodes, e));
    GateIsRule(mode, slots, edge, nodes);
    CombinedEdgeHas(STATIC_PROVIDER_SLOTS, slots, digest, edge);
    forall slot: ProviderSlot ensures slot in STATIC_PROVIDER_SLOTS {
      StaticSlotsAreAll(slot);
    }
    forall slot: ProviderSlot
      ensures edge in SlotEdges(slot, slots[slot], digest)
              <==> exists from :: RetainsEdge(slots, slot, from) && edge == Published(slots, slot, from, digest)
    {
      SlotEdgeHas(slots, slot, digest, edge);
    }
  }

  lemma FactEdgesAre(topology: Topology, at: nat, token: string, digest: string -> HexDigest, edge: RuntimeEdge)
    ensures edge in DockerEdges(topology.facts, at, token, digest) <==> FromFact(topology, at, token, digest, edge)
  {
    DockerEdgesHave(topology.facts, at, token, digest, edge);
    forall fact | fact in topology.facts
      ensures edge == DockerEdge(fact, at, token, digest)
              <==> StatesFact(edge, fact, at, token) && NamesItsEnds(edge, fact, digest)
    {
      FactEdgeIs(fact, at, token, digest, edge);
    }
  }

  lemma SourcedIs(topology: Topology, at: nat, mode: RuntimeMode, slots: Slots, token: string, digest: string -> HexDigest,
                  edge: RuntimeEdge)
    ensures edge in ProviderEdges(mode, slots, digest) + DockerEdges(topology.facts, at, token, digest)
            <==> Sourced(topology, at, mode, slots, token, digest, edge)
  {
    ProviderEdgeIs(mode, slots, digest, edge);
    FactEdgesAre(topology, at, token, digest, edge);
  }

  /** A relationship of the map that is not the collision fact. */
  ghost predicate Ordinary(topology: Topology, at: nat, mode: RuntimeMode, slots: Slots, token: string,
                           digest: string -> HexDigest, edge: RuntimeEdge)
  {
    && Named(topology, slots, edge.source) && Named(topology, slots, edge.target)
    && if mode == Docker then Sourced(topology, at, mode, slots, token, digest, edge)
       else exists from :: Sourced(topology, at, mode, slots, token, digest, from) && edge == from.(evidenceRefs := [])
  }

  lemma MapEdgeIs(topology: Topology, at: nat, mode: RuntimeMode, slots: Slots, token: string, digest: string -> HexDigest,
                  edge: RuntimeEdge)
    ensures edge in MapEdges(topology, at, mode, slots, token, digest)
            <==> Ordinary(topology, at, mode, slots, token, digest, edge)
  {
    var edges := ProviderEdges(mode, slots, digest) + DockerEdges(topology.facts, at, token, digest);
    var shown := if mode == Docker then edges else WithoutEvidence(edges);
    FilterMembers(shown, Routed(MapNodes(topology, slots)));
    HasNodeIs(topology, slots, edge.source);
    HasNodeIs(topology, slots, edge.target);
    WithoutEvidenceIs(edges, edge);
    SourcedIs(topology, at, mode, slots, token, digest, edge);
    forall from ensures from in edges <==> Sourced(topology, at, mode, slots, token, digest, from) {
      SourcedIs(topology, at, mode, slots, token, digest, from);
    }
  }

  // ---------------------------------------------------------------- the collision fact

  /** Several nodes of the map share an identity. */
  ghost predicate Shared(topology: Topology, slots: Slots, id: string) {
    RetainedCount(slots, id) + |Filter(topology.nodes, WithId(id))| >= 2
  }

  lemma DuplicateIs(nodes: seq<RuntimeNode>, id: string)
    ensures id in DuplicateIds(nodes) <==> |Filter(nodes, WithId(id))| >= 2
  {
    if id in DuplicateIds(nodes) {
      var i, j :| 0 <= i < j < |nodes| && nodes[i].id == nodes[j].id == id;
      TwoFiltered(nodes, WithId(id), i, j);
    }
    if |Filter(nodes, WithId(id))| >= 2 {
      var i, j := FindTwo(nodes, WithId(id));
      assert nodes[i].id == nodes[j].id;
    }
  }

  lemma SharedIs(topology: Topology, slots: Slots, id: string)
    ensures id in DuplicateIds(MapNodes(topology, slots)) <==> Shared(topology, slots, id)
  {
    CombinedInOrder(slots);
    DuplicateIs(MapNodes(topology, slots), id);
    FilterConcat(NodesInOrder(slots), topology.nodes, WithId(id));
  }

  /** The collision is stated: in Docker mode, under a usable token, when no node uses the reserved identities. */
  ghost predicate CollisionShown(topology: Topology, mode: RuntimeMode, slots: Slots, integrity: string) {
    && mode == Docker && (exists id :: Shared(topology, slots, id)) && integrity != ""
    && !Named(topology, slots, ReservedId(IntegrityScopeId)) && !Named(topology, slots, ReservedId(CollisionRiskId))
  }

  predicate StatesCollision(edge: RuntimeEdge, at: nat, integrity: string) {
    && edge.source == ReservedId(IntegrityScopeId) && edge.target == ReservedId(CollisionRiskId)
    && edge.relationship == RelatedTo && edge.metadata == map[] && |edge.evidenceRefs| == 1
    && var e := edge.evidenceRefs[0];
       && e.version == 7 && e.id == "dockermap_evidence_runtime_identity_collision" && e.provider == DockermapEvidence
       && e.kind == RuntimeIdentityCollision && e.assertionKind == Observed && e.subjectRef == edge.source
       && e.collectedAt == at && e.providerRevision == integrity && e.providerSlot.None? && e.freshness == FreshEvidence
  }

  lemma CollisionEdgeIs(edge: RuntimeEdge, at: nat, integrity: string)
    ensures edge == CollisionEdge(at, integrity) <==> StatesCollision(edge, at, integrity)
  {
    if StatesCollision(edge, at, integrity) {
      assert edge.evidenceRefs == CollisionEdge(at, integrity).evidenceRefs;
    }
  }

  lemma ActiveIs(topology: Topology, mode: RuntimeMode, slots: Slots)
    ensures CollisionActive(topology, mode, slots) <==> mode == Docker && exists id :: Shared(topology, slots, id)
  {
    var duplicates := DuplicateIds(MapNodes(topology, slots));
    if id :| id in duplicates {
      SharedIs(topology, slots, id);
    }
    if id :| Shared(topology, slots, id) {
      SharedIs(topology, slots, id);
      assert id in duplicates;
    }
  }

  lemma ShownIs(topology: Topology, at: nat, mode: RuntimeMode, slots: Slots, token: string, integrity: string,
                digest: string -> HexDigest)
    ensures var m := RuntimeMapFor(topology, at, mode, slots, token, digest);
            PublishedMap(topology, at, mode, slots, token, integrity, digest)
            == if !CollisionShown(topology, mode, slots, integrity) then m
               else m.(nodes := m.nodes + [IntegrityNode(ReservedId(IntegrityScopeId), IntegrityScope, "Runtime identity integrity"),
                                           IntegrityNode(ReservedId(CollisionRiskId), HostRisk, "Duplicate runtime topology identity")],
                       edges := m.edges + [CollisionEdge(at, integrity)])
  {
    ActiveIs(topology, mode, slots);
    HasNodeIs(topology, slots, ReservedId(IntegrityScopeId));
    HasNodeIs(topology, slots, ReservedId(CollisionRiskId));
  }

  // ---------------------------------------------------------------- the whole map

  /**
   A relationship is in the published map exactly when both its ends name published nodes and it states a Docker fact
   or is a retained relationship of some slot that passes the host rule, or it is the collision fact.
   */
  lemma PublishedEdgesExactly(topology: Topology, at: nat, mode: RuntimeMode, slots: Slots, token: string, integrity: string,
                              digest: string -> HexDigest, edge: RuntimeEdge)
    ensures edge in PublishedMap(topology, at, mode, slots, token, integrity, digest).edges
            <==> || Ordinary(topology, at, mode, slots, token, digest, edge)
                 || (CollisionShown(topology, mode, slots, integrity) && StatesCollision(edge, at, integrity))
  {
    ShownIs(topology, at, mode, slots, token, integrity, digest);
    MapEdgeIs(topology, at, mode, slots, token, digest, edge);
    CollisionEdgeIs(edge, at, integrity);
  }

  /** The two nodes of the collision fact. */
  predicate StatesIntegrity(n: RuntimeNode, id: string, kind: NodeKind, text: string) {
    && n.id == id && n.provider == OtherProvider("other") && n.kind == kind && n.nodeLabel == text && n.status.None?
    && n.layer == Some("advisory") && n.metadata == map[] && n.service.None? && n.package.None?
  }

  /** The nodes are those the slots retain, slot by slot, then Docker's, then the two of a stated collision. */
  lemma PublishedNodesExactly(topology: Topology, at: nat, mode: RuntimeMode, slots: Slots, token: string, integrity: string,
                              digest: string -> HexDigest)
    ensures var nodes := PublishedMap(topology, at, mode, slots, token, integrity, digest).nodes;
            var base := NodesInOrder(slots) + topology.nodes;
            if !CollisionShown(topology, mode, slots, integrity) then nodes == base
            else
              && |nodes| == |base| + 2 && nodes[..|base|] == base
              && StatesIntegrity(nodes[|base|], ReservedId(IntegrityScopeId), IntegrityScope, "Runtime identity integrity")
              && StatesIntegrity(nodes[|base| + 1], ReservedId(CollisionRiskId), HostRisk, "Duplicate runtime topology identity")
  {
    CombinedInOrder(slots);
    ShownIs(topology, at, mode, slots, token, integrity, digest);
  }

  // ---------------------------------------------------------------- diagnostics

  /** What is said of a slot that is not fresh. */
  predicate Says(state: SlotState, notice: Notice) {
    match notice
    case StaleWhileCollecting => state.observation.Collecting? && state.observation.retained.Some?
    case NothingWhileCollecting => state.observation == SlotObservation.Collecting(None)
    case StaleAfterFailure => state.observation.Degraded? && state.observation.retained.Some?
    case NothingAfterFailure => state.observation == Degraded(None)
    case StaleAfterTimeout => state.observation.TimedOut? && state.observation.retained.Some?
    case NothingAfterTimeout => state.observation == SlotObservation.TimedOut(None)
    case NotYetCollected => state.observation.Unavailable?
  }

  lemma {:induction false} CombinedReportsHave(order: seq<ProviderSlot>, slots: Slots, d: Diagnostic)
    ensures d in CombinedReports(order, slots)
            <==> d.Reported? && exists slot :: slot in order && RetainsReport(slots, slot, d.text)
  {
    if order != [] {
      var n := |order| - 1;
      CombinedReportsHave(order[..n], slots, d);
      assert order == order[..n] + [order[n]];
      SlotReportsHave(slots, order[n], d);
    }
  }

  lemma SlotReportsHave(slots: Slots, slot: ProviderSlot, d: Diagnostic)
    ensures d in SlotReports(slots[slot]) <==> d.Reported? && RetainsReport(slots, slot, d.text)
  {
    var reports := SlotReports(slots[slot]);
    if d.Reported? && RetainsReport(slots, slot, d.text) {
      var texts := RetainedCollection(slots[slot].observation).value.diagnostics;
      var i :| 0 <= i < |texts| && texts[i] == d.text;
      assert reports[i] == d;
    }
  }

  lemma NoticesAre(state: SlotState, d: Diagnostic)
    ensures d in SlotNotices(state) <==> d.SlotNotice? && Says(state, d.notice)
  {
  }

  lemma {:induction false} CombinedNoticesHave(order: seq<ProviderSlot>, slots: Slots, d: Diagnostic)
    ensures d in CombinedNotices(order, slots)
            <==> d.SlotNotice? && exists slot :: slot in order && Says(slots[slot], d.notice)
  {
    if order != [] {
      var front, slot := order[..|order| - 1], order[|order| - 1];
      CombinedNoticesHave(front, slots, d);
      NoticesAre(slots[slot], d);
      assert order == front + [slot];
    }
  }

  lemma {:induction false} HowMany<T>(s: seq<T>, x: T)
    requires forall i :: 0 <= i < |s| ==> s[i] == x
    ensures multiset(s)[x] == |s|
  {
    if s != [] {
      HowMany(s[..|s| - 1], x);
      assert s == s[..|s| - 1] + [x];
    }
  }

  /** The identities several nodes share. */
  ghost predicate AreShared(topology: Topology, slots: Slots, ids: set<string>) {
    forall id :: id in ids <==> Shared(topology, slots, id)
  }

  lemma RemarksAre(topology: Topology, slots: Slots, shared: set<string>, remarks: seq<Diagnostic>)
    requires AreShared(topology, slots, shared)
    requires remarks == seq(|DuplicateIds(MapNodes(topology, slots))|, _ => DuplicateIdentity)
    ensures multiset(remarks)[DuplicateIdentity] == |shared|
    ensures forall d :: d in remarks ==> d.DuplicateIdentity?
  {
    var ids := DuplicateIds(MapNodes(topology, slots));
    forall id ensures id in ids <==> id in shared {
      SharedIs(topology, slots, id);
    }
    assert ids == shared;
    HowMany(remarks, DuplicateIdentity);
  }

  lemma DiagnosticsHave(topology: Topology, slots: Slots, d: Diagnostic)
    ensures d in CombinedReports(STATIC_PROVIDER_SLOTS, slots)
            <==> d.Reported? && exists slot: ProviderSlot :: RetainsReport(slots, slot, d.text)
    ensures d in CombinedNotices(STATIC_PROVIDER_SLOTS, slots)
            <==> d.SlotNotice? && exists slot: ProviderSlot :: Says(slots[slot], d.notice)
  {
    forall slot: ProviderSlot ensures slot in STATIC_PROVIDER_SLOTS {
      StaticSlotsAreAll(slot);
    }
    CombinedReportsHave(STATIC_PROVIDER_SLOTS, slots, d);
    CombinedNoticesHave(STATIC_PROVIDER_SLOTS, slots, d);
  }

  /**
   The diagnostics are what the retained collections report, one notice for every slot that is not fresh, and one
   remark for every identity that several nodes share.
   */
  lemma PublishedDiagnosticsExactly(topology: Topology, at: nat, mode: RuntimeMode, slots: Slots, token: string,
                                    integrity: string, digest: string -> HexDigest, d: Diagnostic, shared: set<string>)
    requires AreShared(topology, slots, shared)
    ensures var all := PublishedMap(topology, at, mode, slots, token, integrity, digest).diagnostics;
            match d
            case Reported(text) => d in all <==> exists slot: ProviderSlot :: RetainsReport(slots, slot, text)
            case SlotNotice(notice) => d in all <==> exists slot: ProviderSlot :: Says(slots[slot], notice)
            case DuplicateIdentity => multiset(all)[d] == |shared|
  {
    var reports, notices := CombinedReports(STATIC_PROVIDER_SLOTS, slots), CombinedNotices(STATIC_PROVIDER_SLOTS, slots);
    var remarks := seq(|DuplicateIds(MapNodes(topology, slots))|, _ => DuplicateIdentity);
    DiagnosticsHave(topology, slots, d);
    RemarksAre(topology, slots, shared, remarks);
    DiagnosticsAre(topology, at, mode, slots, token, integrity, digest, reports, remarks, notices);
    InThree(reports, remarks, notices, d);
  }

  lemma DiagnosticsAre(topology: Topology, at: nat, mode: RuntimeMode, slots: Slots, token: string, integrity: string,
                       digest: string -> HexDigest, reports: seq<Diagnostic>, remarks: seq<Diagnostic>,
                       notices: seq<Diagnostic>)
    requires reports == CombinedReports(STATIC_PROVIDER_SLOTS, slots) && notices == CombinedNotices(STATIC_PROVIDER_SLOTS, slots)
    requires remarks == seq(|DuplicateIds(MapNodes(topology, slots))|, _ => DuplicateIdentity)
    ensures PublishedMap(topology, at, mode, slots, token, integrity, digest).diagnostics == reports + remarks + notices
  {
  }

  lemma InThree(a: seq<Diagnostic>, b: seq<Diagnostic>, c: seq<Diagnostic>, d: Diagnostic)
    ensures d in a + b + c <==> d in a || d in b || d in c
    ensures d !in a && d !in c ==> multiset(a + b + c)[d] == multiset(b)[d]
  {
    assert multiset(a + b + c) == multiset(a) + multiset(b) + multiset(c);
  }
}
