/**
 The published runtime map: retained provider collections in slot order, the relationships gated on the
 canonical host, Docker topology with its evidence, and the aggregate identity-collision fact.
 */
module RuntimeMaps {
  import opened Prelude
  import opened RuntimeModel
  import opened Identity
  import opened ProviderSlots
  import opened Evidence
  import opened Scheduler

  /** One relationship derived from Docker, and the kind of evidence it carries, if any. */
  datatype DockerFact = DockerFact(
    source: string, target: string, relationship: RelationshipKind, kind: Option<EvidenceKind>)

  datatype Topology = Topology(nodes: seq<RuntimeNode>, facts: seq<DockerFact>)

  datatype Notice =
    | StaleWhileCollecting | NothingWhileCollecting | StaleAfterFailure | NothingAfterFailure
    | StaleAfterTimeout | NothingAfterTimeout | NotYetCollected

  datatype Diagnostic = Reported(text: string) | DuplicateIdentity | SlotNotice(notice: Notice)

  datatype RuntimeMap = RuntimeMap(
    nodes: seq<RuntimeNode>,
    edges: seq<RuntimeEdge>,
    diagnostics: seq<Diagnostic>,
    lastUpdated: nat,
    providerStates: seq<ProviderState>,
    modelRevision: string)

  // ---------------------------------------------------------------- provider parts

  function SlotEdges(slot: ProviderSlot, state: SlotState, digest: string -> HexDigest): (edges: seq<RuntimeEdge>)
  {
    match RetainedCollection(state.observation)
    case None => []
    case Some(collection) =>
      if BindsEvidence(slot) then BindEdges(slot, collection.edges, state, digest) else collection.edges
  }

  function SlotNodes(state: SlotState): seq<RuntimeNode> {
    match RetainedCollection(state.observation)
    case None => []
    case Some(collection) => collection.nodes
  }

  function SlotReports(state: SlotState): seq<Diagnostic> {
    match RetainedCollection(state.observation)
    case None => []
    case Some(collection) =>
      seq(|collection.diagnostics|, i requires 0 <= i < |collection.diagnostics| => Reported(collection.diagnostics[i]))
  }

  function SlotNotices(state: SlotState): seq<Diagnostic> {
    var retained := RetainedCollection(state.observation).Some?;
    match state.observation
    case Fresh(_) => []
    case Collecting(_) => [SlotNotice(if retained then StaleWhileCollecting else NothingWhileCollecting)]
    case Degraded(_) => [SlotNotice(if retained then StaleAfterFailure else NothingAfterFailure)]
    case TimedOut(_) => [SlotNotice(if retained then StaleAfterTimeout else NothingAfterTimeout)]
    case Unavailable => [SlotNotice(NotYetCollected)]
  }

  function CombinedNodes(order: seq<ProviderSlot>, slots: Slots): seq<RuntimeNode> {
    if order == [] then [] else CombinedNodes(order[..|order| - 1], slots) + SlotNodes(slots[order[|order| - 1]])
  }

  function CombinedEdges(order: seq<ProviderSlot>, slots: Slots, digest: string -> HexDigest): seq<RuntimeEdge> {
    if order == [] then []
    else
      CombinedEdges(order[..|order| - 1], slots, digest)
      + SlotEdges(order[|order| - 1], slots[order[|order| - 1]], digest)
  }

  function CombinedReports(order: seq<ProviderSlot>, slots: Slots): seq<Diagnostic> {
    if order == [] then [] else CombinedReports(order[..|order| - 1], slots) + SlotReports(slots[order[|order| - 1]])
  }

  function CombinedNotices(order: seq<ProviderSlot>, slots: Slots): seq<Diagnostic> {
    if order == [] then [] else CombinedNotices(order[..|order| - 1], slots) + SlotNotices(slots[order[|order| - 1]])
  }

  // ---------------------------------------------------------------- relationships of the local host

  predicate HasCanonicalHost(nodes: seq<RuntimeNode>) {
    var hosts := Filter(nodes, WithId("host_local"));
    |hosts| == 1 && hosts[0].provider == HostProvider && hosts[0].kind == Host
  }

  predicate IsTmuxSource(nodes: seq<RuntimeNode>, id: string) {
    var named := Filter(nodes, WithId(id));
    |named| == 1 && named[0].provider == TmuxProvider && named[0].kind == TmuxSession
  }

  /** A scheduled job or tmux session runs on the local host only when the identities involved are unambiguous. */
  predicate HostGate(mode: RuntimeMode, nodes: seq<RuntimeNode>, edge: RuntimeEdge) {
    if edge.target != "host_local" || edge.relationship != RunsOn then true
    else if StartsWith(edge.source, "scheduled_job_") then HasCanonicalHost(nodes)
    else if StartsWith(edge.source, "tmux_session_") then
      mode == Docker && HasCanonicalHost(nodes) && IsTmuxSource(nodes, edge.source)
    else true
  }

  // ---------------------------------------------------------------- Docker part

  function KindName(kind: EvidenceKind): string {
    match kind
    case DockerNetworkMembership => "network-membership"
    case DockerVolumeMount => "volume-mount"
    case DockerPortPublication => "port-publication"
    case DockerUnspecifiedAddressPortPublication => "unspecified-address-port-publication"
    case DockerComposeDependsOn => "compose-depends-on"
    case _ => "daemon-state-bind-mount"
  }

  function DockerEdge(fact: DockerFact, at: nat, token: string, digest: string -> HexDigest): RuntimeEdge {
    RuntimeEdge(fact.source, fact.target, fact.relationship, map[],
                match fact.kind
                case None => []
                case Some(kind) =>
                  [EvidenceRef(1, "docker_evidence_" + KindName(kind) + "_" + Component(digest, fact.source + US + fact.target),
                               DockerEvidence, kind, Observed, fact.source, at, token, None, FreshEvidence)])
  }

  function DockerEdges(facts: seq<DockerFact>, at: nat, token: string, digest: string -> HexDigest): seq<RuntimeEdge> {
    if facts == [] then []
    else DockerEdges(facts[..|facts| - 1], at, token, digest) + [DockerEdge(facts[|facts| - 1], at, token, digest)]
  }

  predicate HasNode(nodes: seq<RuntimeNode>, id: string) {
    exists i :: 0 <= i < |nodes| && nodes[i].id == id
  }

  function Routed(nodes: seq<RuntimeNode>): RuntimeEdge -> bool {
    (edge: RuntimeEdge) => HasNode(nodes, edge.source) && HasNode(nodes, edge.target)
  }

  function WithoutEvidence(edges: seq<RuntimeEdge>): seq<RuntimeEdge> {
    if edges == [] then [] else WithoutEvidence(edges[..|edges| - 1]) + [edges[|edges| - 1].(evidenceRefs := [])]
  }

  function DuplicateIds(nodes: seq<RuntimeNode>): set<string> {
    set i, j | 0 <= i < j < |nodes| && nodes[i].id == nodes[j].id :: nodes[i].id
  }

  function ProviderEdges(mode: RuntimeMode, slots: Slots, digest: string -> HexDigest): seq<RuntimeEdge> {
    var nodes := CombinedNodes(STATIC_PROVIDER_SLOTS, slots);
    Filter(CombinedEdges(STATIC_PROVIDER_SLOTS, slots, digest), (edge: RuntimeEdge) => HostGate(mode, nodes, edge))
  }

  function MapNodes(topology: Topology, slots: Slots): seq<RuntimeNode> {
    CombinedNodes(STATIC_PROVIDER_SLOTS, slots) + topology.nodes
  }

  function MapDiagnostics(topology: Topology, slots: Slots): seq<Diagnostic> {
    CombinedReports(STATIC_PROVIDER_SLOTS, slots)
    + seq(|DuplicateIds(MapNodes(topology, slots))|, _ => DuplicateIdentity)
    + CombinedNotices(STATIC_PROVIDER_SLOTS, slots)
  }

  /** Relationships with an unpublished endpoint are dropped; sample topology never carries evidence. */
  function MapEdges(topology: Topology, at: nat, mode: RuntimeMode, slots: Slots, token: string,
                    digest: string -> HexDigest): seq<RuntimeEdge>
  {
    var edges := ProviderEdges(mode, slots, digest) + DockerEdges(topology.facts, at, token, digest);
    Filter(if mode == Docker then edges else WithoutEvidence(edges), Routed(MapNodes(topology, slots)))
  }

  /** `runtime_map_for_snapshot`, up to the order of nodes and edges. */
  function RuntimeMapFor(topology: Topology, at: nat, mode: RuntimeMode, slots: Slots, token: string,
                         digest: string -> HexDigest): RuntimeMap
  {
    RuntimeMap(MapNodes(topology, slots), MapEdges(topology, at, mode, slots, token, digest),
               MapDiagnostics(topology, slots), at, ProviderStatesFor(slots), "")
  }

  // ---------------------------------------------------------------- the collision fact

  function IntegrityNode(id: string, kind: NodeKind, text: string): RuntimeNode {
    RuntimeNode(id, OtherProvider("other"), kind, text, None, Some("advisory"), map[], None, None)
  }

  function CollisionEdge(at: nat, token: string): RuntimeEdge {
    RuntimeEdge(ReservedId(IntegrityScopeId), ReservedId(CollisionRiskId), RelatedTo, map[],
                [EvidenceRef(7, "dockermap_evidence_runtime_identity_collision", DockermapEvidence,
                             RuntimeIdentityCollision, Observed, ReservedId(IntegrityScopeId), at, token, None, FreshEvidence)])
  }

  /** Nodes that already use a reserved identity suppress the fact. */
  function WithCollisionFact(m: RuntimeMap, token: string, at: nat): RuntimeMap {
    if token == "" || HasNode(m.nodes, ReservedId(IntegrityScopeId)) || HasNode(m.nodes, ReservedId(CollisionRiskId)) then m
    else m.(nodes := m.nodes + [IntegrityNode(ReservedId(IntegrityScopeId), IntegrityScope, "Runtime identity integrity"),
                                IntegrityNode(ReservedId(CollisionRiskId), HostRisk, "Duplicate runtime topology identity")],
            edges := m.edges + [CollisionEdge(at, token)])
  }

  predicate CollisionActive(topology: Topology, mode: RuntimeMode, slots: Slots) {
    mode == Docker && DuplicateIds(MapNodes(topology, slots)) != {}
  }

  /** The complete map of one publication. */
  function PublishedMap(topology: Topology, at: nat, mode: RuntimeMode, slots: Slots, token: string, integrity: string,
                        digest: string -> HexDigest): RuntimeMap
  {
    var m := RuntimeMapFor(topology, at, mode, slots, token, digest);
    if CollisionActive(topology, mode, slots) then WithCollisionFact(m, integrity, at) else m
  }

  // ---------------------------------------------------------------- what observation time changes

  function ClearCollectedAt(refs: seq<EvidenceRef>): (r: seq<EvidenceRef>)
    ensures |r| == |refs| && forall i :: 0 <= i < |r| ==> r[i] == refs[i].(collectedAt := 0)
  {
    seq(|refs|, i requires 0 <= i < |refs| => refs[i].(collectedAt := 0))
  }

  function ClearEdgeTimes(edges: seq<RuntimeEdge>): seq<RuntimeEdge> {
    if edges == [] then []
    else
      var last := edges[|edges| - 1];
      ClearEdgeTimes(edges[..|edges| - 1]) + [last.(evidenceRefs := ClearCollectedAt(last.evidenceRefs))]
  }

  /** `clear_volatile_observation_markers` on a map. */
  function ClearVolatile(m: RuntimeMap): RuntimeMap {
    m.(lastUpdated := 0, modelRevision := "", edges := ClearEdgeTimes(m.edges))
  }

  lemma {:induction false} ClearConcat(a: seq<RuntimeEdge>, b: seq<RuntimeEdge>)
    ensures ClearEdgeTimes(a + b) == ClearEdgeTimes(a) + ClearEdgeTimes(b)
    decreases |b|
  {
    if b == [] {
      assert a + b == a;
    } else {
      assert (a + b)[..|a + b| - 1] == a + b[..|b| - 1];
      ClearConcat(a, b[..|b| - 1]);
    }
  }

  lemma {:induction false} ClearFilter(edges: seq<RuntimeEdge>, nodes: seq<RuntimeNode>)
    ensures ClearEdgeTimes(Filter(edges, Routed(nodes))) == Filter(ClearEdgeTimes(edges), Routed(nodes))
  {
    if edges != [] {
      var n := |edges| - 1;
      ClearFilter(edges[..n], nodes);
      var kept := Filter(edges[..n], Routed(nodes));
      var last := edges[n].(evidenceRefs := ClearCollectedAt(edges[n].evidenceRefs));
      FilterAppend(ClearEdgeTimes(edges[..n]), last, Routed(nodes));
      if Routed(nodes)(edges[n]) {
        assert (kept + [edges[n]])[..|kept|] == kept;
      } else {
        assert Filter(edges, Routed(nodes)) == kept;
      }
    }
  }

  lemma {:induction false} DockerEdgesIgnoreTime(facts: seq<DockerFact>, at: nat, later: nat, token: string,
                                                 digest: string -> HexDigest)
    ensures ClearEdgeTimes(DockerEdges(facts, at, token, digest)) == ClearEdgeTimes(DockerEdges(facts, later, token, digest))
  {
    if facts != [] {
      var n := |facts| - 1;
      DockerEdgesIgnoreTime(facts[..n], at, later, token, digest);
      var front, next := DockerEdges(facts[..n], at, token, digest), DockerEdges(facts[..n], later, token, digest);
      var x, y := DockerEdge(facts[n], at, token, digest), DockerEdge(facts[n], later, token, digest);
      ClearAppend(front, x);
      ClearAppend(next, y);
      assert ClearCollectedAt(x.evidenceRefs) == ClearCollectedAt(y.evidenceRefs);
    }
  }

  lemma ClearAppend(edges: seq<RuntimeEdge>, edge: RuntimeEdge)
    ensures ClearEdgeTimes(edges + [edge])
            == ClearEdgeTimes(edges) + [edge.(evidenceRefs := ClearCollectedAt(edge.evidenceRefs))]
  {
    assert (edges + [edge])[..|edges|] == edges;
  }

  lemma {:induction false} ClearWithoutEvidence(a: seq<RuntimeEdge>, b: seq<RuntimeEdge>)
    requires ClearEdgeTimes(a) == ClearEdgeTimes(b)
    ensures ClearEdgeTimes(WithoutEvidence(a)) == ClearEdgeTimes(WithoutEvidence(b))
  {
    if a != [] && b != [] {
      var m, n := |a| - 1, |b| - 1;
      var x, y := ClearEdgeTimes(a), ClearEdgeTimes(b);
      assert x[..|x| - 1] == ClearEdgeTimes(a[..m]) && y[..|y| - 1] == ClearEdgeTimes(b[..n]);
      assert x[|x| - 1] == y[|y| - 1];
      ClearWithoutEvidence(a[..m], b[..n]);
      ClearAppend(WithoutEvidence(a[..m]), a[m].(evidenceRefs := []));
      ClearAppend(WithoutEvidence(b[..n]), b[n].(evidenceRefs := []));
    }
  }

  lemma MapEdgesIgnoreTime(topology: Topology, at: nat, later: nat, mode: RuntimeMode, slots: Slots, token: string,
                           digest: string -> HexDigest)
    ensures ClearEdgeTimes(MapEdges(topology, at, mode, slots, token, digest))
            == ClearEdgeTimes(MapEdges(topology, later, mode, slots, token, digest))
  {
    var provider := ProviderEdges(mode, slots, digest);
    var a := provider + DockerEdges(topology.facts, at, token, digest);
    var b := provider + DockerEdges(topology.facts, later, token, digest);
    ClearConcat(provider, DockerEdges(topology.facts, at, token, digest));
    ClearConcat(provider, DockerEdges(topology.facts, later, token, digest));
    DockerEdgesIgnoreTime(topology.facts, at, later, token, digest);
    ClearWithoutEvidence(a, b);
    var x, y := if mode == Docker then a else WithoutEvidence(a), if mode == Docker then b else WithoutEvidence(b);
    ClearFilter(x, MapNodes(topology, slots));
    ClearFilter(y, MapNodes(topology, slots));
  }

  /** Publishing the same facts at another time changes nothing but the volatile markers. */
  lemma PublishedMapIgnoresTime(topology: Topology, at: nat, later: nat, mode: RuntimeMode, slots: Slots, token: string,
                                integrity: string, digest: string -> HexDigest)
    ensures ClearVolatile(PublishedMap(topology, at, mode, slots, token, integrity, digest))
            == ClearVolatile(PublishedMap(topology, later, mode, slots, token, integrity, digest))
  {
    MapEdgesIgnoreTime(topology, at, later, mode, slots, token, digest);
    var a := MapEdges(topology, at, mode, slots, token, digest);
    var b := MapEdges(topology, later, mode, slots, token, digest);
    var x, y := CollisionEdge(at, integrity), CollisionEdge(later, integrity);
    ClearAppend(a, x);
    ClearAppend(b, y);
    assert ClearCollectedAt(x.evidenceRefs) == ClearCollectedAt(y.evidenceRefs);
  }
}
