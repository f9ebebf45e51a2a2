/**
 The closed advisory rules over a published runtime map: which relationships each rule counts, which of them it
 can act on, and what a finding says.
 */
module FindingRules {
  import opened Prelude
  import opened RuntimeModel
  import opened Identity
  import opened Evidence
  import Decimal

  datatype Rule =
    | EvidenceNotCurrent
    | IdentityCollision
    | UnspecifiedAddressPort
    | RequiresTargetNotActive
    | PartOfTargetNotActive
    | DaemonStatePublishesPort
    | MutualDependency
    | DependencyNotActive
    | DaemonStateBindMount
    | InternalNetworkPort
    | MountMissingAtContainer

  datatype Finding = Finding(
    id: string, rule: Rule, subjectRef: string, targetRef: string, evidenceRefs: seq<EvidenceRef>)

  /** The nodes whose identity occurs once. */
  type NodeIndex = map<string, RuntimeNode>

  // ---------------------------------------------------------------- text classifiers

  function AsciiLower(s: string): (r: string)
    ensures |r| == |s|
  {
    seq(|s|, i requires 0 <= i < |s| =>
      if 'A' <= s[i] <= 'Z' then ((s[i] as int) - ('A' as int) + ('a' as int)) as char else s[i])
  }

  predicate StatusRunning(text: string) {
    var lower := AsciiLower(text);
    StartsWith(lower, "up") || lower == "running"
  }

  predicate StatusStoppedOrFailed(text: string) {
    var lower := AsciiLower(text);
    && !StatusRunning(text)
    && (StartsWith(lower, "exited") || lower == "stopped" || lower == "dead" || lower == "paused" || lower == "removing"
        || lower == "failed" || lower == "error")
  }

  const U16_MAX: nat := 65535

  predicate PortNumber(s: string) {
    && s != "" && Decimal.AllDigits(s)
    && var value := Decimal.ParseUnsigned(s, U16_MAX); value.Some? && value.value > 0
  }

  /** `host:private/protocol` with two nonzero ports and a known protocol. */
  predicate HostPublishedPort(port: string) {
    match Decimal.SplitOnce(port, ':')
    case None => false
    case Some((host, rest)) =>
      && PortNumber(host) && ':' !in rest
      && match Decimal.SplitOnce(rest, '/')
         case None => false
         case Some((inner, protocol)) =>
           PortNumber(inner) && (protocol == "tcp" || protocol == "udp" || protocol == "sctp")
  }

  // ---------------------------------------------------------------- nodes

  predicate IsContainer(node: RuntimeNode) {
    node.provider == DockerProvider && node.kind == Container
  }

  predicate IsSystemdService(node: RuntimeNode) {
    node.provider == SystemdProvider && node.kind == SystemdService
  }

  predicate IsInternalNetwork(node: RuntimeNode) {
    && node.provider == DockerProvider && node.kind == DockerNetwork
    && "internal" in node.metadata && node.metadata["internal"] == "true"
  }

  predicate IsListener(node: RuntimeNode) {
    node.provider == NetworkProvider && node.kind == NetworkListener
  }

  predicate PublishesPort(node: RuntimeNode) {
    "port" in node.metadata && HostPublishedPort(node.metadata["port"])
  }

  predicate IsDaemonStateRisk(node: RuntimeNode) {
    node.provider == DockerProvider && node.kind == HostRisk && node.id == ReservedId(DaemonStateRiskId) && node.metadata == map[]
  }

  predicate Bare(node: RuntimeNode, layer: string) {
    && node.status.None? && node.layer == Some(layer) && node.metadata == map[]
    && node.service.None? && node.package.None?
  }

  predicate IsUnspecifiedAddressRisk(node: RuntimeNode) {
    && node.id == ReservedId(UnspecifiedAddressRiskId) && node.provider == DockerProvider && node.kind == HostRisk
    && node.nodeLabel == "Unspecified-address Docker port publication" && Bare(node, "host")
  }

  predicate IsIntegrityScope(node: RuntimeNode) {
    && node.id == ReservedId(IntegrityScopeId) && node.provider == OtherProvider("other") && node.kind == IntegrityScope
    && node.nodeLabel == "Runtime identity integrity" && Bare(node, "advisory")
  }

  predicate IsCollisionRisk(node: RuntimeNode) {
    && node.id == ReservedId(CollisionRiskId) && node.provider == OtherProvider("other") && node.kind == HostRisk
    && node.nodeLabel == "Duplicate runtime topology identity" && Bare(node, "advisory")
  }

  // ---------------------------------------------------------------- evidence

  /** `has_valid_evidence_refs` for the kinds derived from Docker and for the collision fact. */
  predicate DockerAttests(edge: RuntimeEdge, e: EvidenceRef) {
    && e.id != "" && e.providerRevision != "" && e.subjectRef == edge.source
    && e.assertionKind == Observed && e.freshness == FreshEvidence && e.providerSlot.None?
    && match e.kind
       case DockerNetworkMembership =>
         && e.version == 1 && e.provider == DockerEvidence && edge.relationship == ConnectedTo
         && StartsWith(edge.source, "docker_container_") && StartsWith(edge.target, "docker_network_")
       case DockerDaemonStateBindMount =>
         && e.version == 1 && e.provider == DockerEvidence && edge.relationship == ExposesDaemonState
         && StartsWith(edge.source, "docker_container_") && edge.target == ReservedId(DaemonStateRiskId)
       case DockerVolumeMount =>
         && e.version == 1 && e.provider == DockerEvidence && edge.relationship == Mounts
         && StartsWith(edge.source, "docker_container_") && StartsWith(edge.target, "docker_volume_")
       case DockerPortPublication =>
         && e.version == 1 && e.provider == DockerEvidence && edge.relationship == Exposes
         && StartsWith(edge.source, "docker_container_") && StartsWith(edge.target, "network_listener_")
       case DockerUnspecifiedAddressPortPublication =>
         && e.version == 1 && e.provider == DockerEvidence && edge.relationship == Exposes
         && StartsWith(edge.source, "docker_container_") && edge.target == ReservedId(UnspecifiedAddressRiskId)
       case DockerComposeDependsOn =>
         && e.version == 1 && e.provider == DockerEvidence && edge.relationship == DependsOn
         && StartsWith(edge.source, "docker_container_") && StartsWith(edge.target, "docker_container_")
         && edge.source != edge.target
       case RuntimeIdentityCollision =>
         && e.version == 7 && e.provider == DockermapEvidence && edge.relationship == RelatedTo
         && edge.source == ReservedId(IntegrityScopeId) && edge.target == ReservedId(CollisionRiskId)
       case _ => false
  }

  predicate Attested(edge: RuntimeEdge) {
    forall i :: 0 <= i < |edge.evidenceRefs| ==>
                  AttestsEdge(edge, edge.evidenceRefs[i]) || DockerAttests(edge, edge.evidenceRefs[i])
  }

  /** One valid piece of evidence, and it is this kind. */
  predicate SoleEvidence(edge: RuntimeEdge, kind: EvidenceKind) {
    Attested(edge) && |edge.evidenceRefs| == 1 && edge.evidenceRefs[0].kind == kind
  }

  // ---------------------------------------------------------------- shapes and candidates

  predicate Ends(index: NodeIndex, edge: RuntimeEdge) {
    edge.source in index && edge.target in index
  }

  predicate DaemonStatePairShape(index: NodeIndex, edge: RuntimeEdge) {
    && edge.relationship == ExposesDaemonState && Ends(index, edge)
    && IsContainer(index[edge.source]) && IsDaemonStateRisk(index[edge.target])
  }

  predicate DaemonStateShape(index: NodeIndex, edge: RuntimeEdge) {
    edge.metadata == map[] && DaemonStatePairShape(index, edge)
  }

  predicate DaemonStateCandidate(index: NodeIndex, edge: RuntimeEdge) {
    DaemonStateShape(index, edge) && SoleEvidence(edge, DockerDaemonStateBindMount)
  }

  predicate MembershipShape(index: NodeIndex, edge: RuntimeEdge) {
    && edge.relationship == ConnectedTo && Ends(index, edge)
    && IsContainer(index[edge.source]) && IsInternalNetwork(index[edge.target])
  }

  predicate MembershipCandidate(index: NodeIndex, edge: RuntimeEdge) {
    MembershipShape(index, edge) && SoleEvidence(edge, DockerNetworkMembership)
  }

  predicate PortPairShape(index: NodeIndex, edge: RuntimeEdge) {
    && edge.relationship == Exposes && Ends(index, edge)
    && IsContainer(index[edge.source]) && IsListener(index[edge.target])
  }

  predicate PortCandidate(index: NodeIndex, edge: RuntimeEdge) {
    && PortPairShape(index, edge) && PublishesPort(index[edge.target])
    && SoleEvidence(edge, DockerPortPublication)
  }

  predicate BarePortCandidate(index: NodeIndex, edge: RuntimeEdge) {
    edge.metadata == map[] && PortCandidate(index, edge)
  }

  predicate UnspecifiedAddressShape(index: NodeIndex, edge: RuntimeEdge) {
    && edge.relationship == Exposes && Ends(index, edge)
    && IsContainer(index[edge.source]) && IsUnspecifiedAddressRisk(index[edge.target])
  }

  predicate ComposeDependencyCandidate(index: NodeIndex, edge: RuntimeEdge) {
    && edge.metadata == map[] && edge.relationship == DependsOn && edge.source != edge.target && Ends(index, edge)
    && IsContainer(index[edge.source]) && IsContainer(index[edge.target])
    && SoleEvidence(edge, DockerComposeDependsOn)
  }

  predicate RequiresCandidate(edge: RuntimeEdge) {
    && SoleEvidence(edge, SystemdRequires) && edge.relationship == Requires && edge.source != edge.target
    && edge.evidenceRefs[0].freshness == FreshEvidence
  }

  predicate PartOfCandidate(edge: RuntimeEdge) {
    && SoleEvidence(edge, SystemdPartOf) && edge.relationship == PartOf && edge.source != edge.target
    && edge.evidenceRefs[0].freshness == FreshEvidence
  }

  predicate NotCurrentCandidate(edge: RuntimeEdge) {
    && Attested(edge) && edge.source != edge.target && |edge.evidenceRefs| == 1
    && (|| (edge.relationship == Requires && edge.evidenceRefs[0].kind == SystemdRequires)
        || (edge.relationship == Wants && edge.evidenceRefs[0].kind == SystemdWants)
        || (edge.relationship == PartOf && edge.evidenceRefs[0].kind == SystemdPartOf))
    && edge.evidenceRefs[0].freshness != FreshEvidence
  }

  predicate CollisionCandidate(index: NodeIndex, edge: RuntimeEdge) {
    && edge.metadata == map[] && edge.relationship == RelatedTo && Ends(index, edge)
    && IsIntegrityScope(index[edge.source]) && IsCollisionRisk(index[edge.target])
    && SoleEvidence(edge, RuntimeIdentityCollision)
    && edge.evidenceRefs[0].id == "dockermap_evidence_runtime_identity_collision"
    && edge.evidenceRefs[0].providerRevision != Decimal.Print(edge.evidenceRefs[0].collectedAt)
  }

  predicate InactiveTarget(index: NodeIndex, edge: RuntimeEdge) {
    && Ends(index, edge) && IsSystemdService(index[edge.source]) && IsSystemdService(index[edge.target])
    && index[edge.source].status == Some("active")
    && (index[edge.target].status == Some("inactive") || index[edge.target].status == Some("failed"))
  }

  // ---------------------------------------------------------------- the rules

  /** The relationships that make a rule ambiguous when there is more than one of them. */
  predicate Counted(rule: Rule, index: NodeIndex, edge: RuntimeEdge) {
    match rule
    case EvidenceNotCurrent => NotCurrentCandidate(edge)
    case IdentityCollision => edge.source == ReservedId(IntegrityScopeId) && edge.target == ReservedId(CollisionRiskId)
    case UnspecifiedAddressPort => UnspecifiedAddressShape(index, edge)
    case RequiresTargetNotActive => RequiresCandidate(edge)
    case PartOfTargetNotActive => PartOfCandidate(edge)
    case DaemonStatePublishesPort => DaemonStatePairShape(index, edge)
    case MutualDependency => edge.relationship == DependsOn
    case DependencyNotActive => edge.relationship == DependsOn
    case DaemonStateBindMount => DaemonStateShape(index, edge)
    case InternalNetworkPort => MembershipShape(index, edge)
    case MountMissingAtContainer => false
  }

  /** Two of the rules count per container, the others per pair of ends. */
  predicate SameKey(rule: Rule, a: RuntimeEdge, b: RuntimeEdge) {
    a.source == b.source && (rule.UnspecifiedAddressPort? || rule.DaemonStatePublishesPort? || a.target == b.target)
  }

  /** The relationships a rule can act on, both ends known exactly once. */
  predicate Candidate(rule: Rule, index: NodeIndex, edge: RuntimeEdge) {
    match rule
    case EvidenceNotCurrent =>
      && NotCurrentCandidate(edge) && Ends(index, edge)
      && IsSystemdService(index[edge.source]) && IsSystemdService(index[edge.target])
    case IdentityCollision => CollisionCandidate(index, edge)
    case UnspecifiedAddressPort =>
      && edge.metadata == map[] && UnspecifiedAddressShape(index, edge)
      && SoleEvidence(edge, DockerUnspecifiedAddressPortPublication)
    case RequiresTargetNotActive => RequiresCandidate(edge) && InactiveTarget(index, edge)
    case PartOfTargetNotActive => PartOfCandidate(edge) && InactiveTarget(index, edge)
    case DaemonStatePublishesPort => DaemonStateCandidate(index, edge)
    case MutualDependency => ComposeDependencyCandidate(index, edge)
    case DependencyNotActive =>
      && ComposeDependencyCandidate(index, edge)
      && index[edge.source].status.Some? && StatusRunning(index[edge.source].status.value)
      && index[edge.target].status.Some? && StatusStoppedOrFailed(index[edge.target].status.value)
    case DaemonStateBindMount => DaemonStateCandidate(index, edge)
    case InternalNetworkPort => MembershipCandidate(index, edge)
    case MountMissingAtContainer => false
  }

  /** A rule only acts on what it counts, on known ends, with one piece of evidence. */
  lemma CandidateIsCounted(rule: Rule, index: NodeIndex, edge: RuntimeEdge)
    requires Candidate(rule, index, edge)
    requires forall id :: id in index ==> index[id].id == id
    ensures Counted(rule, index, edge) && Ends(index, edge) && |edge.evidenceRefs| == 1
  {
  }

  function Prefix(rule: Rule): string {
    match rule
    case EvidenceNotCurrent => "finding_runtime_declared_relationship_evidence_not_current_"
    case IdentityCollision => "finding_runtime_identity_collision_detected"
    case UnspecifiedAddressPort => "finding_docker_port_published_on_unspecified_address_"
    case RequiresTargetNotActive => "finding_systemd_requires_target_not_active_"
    case PartOfTargetNotActive => "finding_systemd_part_of_target_not_active_"
    case DaemonStatePublishesPort => "finding_docker_daemon_state_bind_mount_publishes_port_"
    case MutualDependency => "finding_docker_compose_mutual_dependency_"
    case DependencyNotActive => "finding_docker_compose_declared_target_not_active_"
    case DaemonStateBindMount => "finding_docker_daemon_state_bind_mount_"
    case InternalNetworkPort => "finding_docker_internal_network_member_publishes_port_"
    case MountMissingAtContainer => "finding_compose_declared_mount_missing_at_bound_container_"
  }

  /** What a rule concluded, before it is given its identifier. */
  datatype Draft = Draft(
    rule: Rule, source: string, target: string, port: Option<string>, evidenceRefs: seq<EvidenceRef>)

  function Seed(d: Draft): string {
    d.source + US + d.target + (match d.port { case None => "" case Some(port) => US + port })
  }

  function FindingId(d: Draft, digest: string -> HexDigest): string {
    if d.rule.IdentityCollision? then Prefix(d.rule) else Prefix(d.rule) + Component(digest, Seed(d))
  }

  function Render(d: Draft, digest: string -> HexDigest): Finding {
    Finding(FindingId(d, digest), d.rule, d.source, d.target, d.evidenceRefs)
  }

  ghost predicate IdsDiffer(findings: seq<Finding>) {
    forall i, j :: 0 <= i < j < |findings| ==> findings[i].id != findings[j].id
  }

  function HasId(id: string): Finding -> bool {
    (f: Finding) => f.id == id
  }

  lemma IdsStayApart(a: seq<Finding>, b: seq<Finding>)
    requires IdsDiffer(a) && multiset(a) == multiset(b)
    ensures IdsDiffer(b)
  {
    forall i, j | 0 <= i < j < |b| ensures b[i].id != b[j].id {
      FilterRearranged(a, b, HasId(b[i].id));
      AtMostOneHas(a, b[i].id);
      if b[i].id == b[j].id {
        TwoFiltered(b, HasId(b[i].id), i, j);
      }
    }
  }

  lemma {:induction false} AtMostOneHas(a: seq<Finding>, id: string)
    requires IdsDiffer(a)
    ensures |Filter(a, HasId(id))| <= 1
  {
    if a != [] {
      var n := |a| - 1;
      AtMostOneHas(a[..n], id);
      if a[n].id == id {
        FilterNone(a[..n], HasId(id));
      }
    }
  }
}
