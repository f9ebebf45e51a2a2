/** What each advisory rule asks for, read off nodes, relationships and evidence, and what its findings say. */
module FindingFacts {
  import opened Prelude
  import opened Sorting
  import opened RuntimeModel
  import opened Identity
  import opened Evidence
  import opened FindingRules
  import opened Findings
  import opened FindingTheorems
  import Decimal

  // ---------------------------------------------------------------- nodes

  /** The one node with this identity. */
  ghost predicate Known(nodes: seq<RuntimeNode>, id: string, n: RuntimeNode) {
    One(nodes, WithId(id), n)
  }

  lemma KnownIsIndexed(index: NodeIndex, nodes: seq<RuntimeNode>, id: string, n: RuntimeNode)
    requires IsIndex(index, nodes)
    ensures id in index && index[id] == n <==> Known(nodes, id, n)
  {
    assert IndexedAt(index, nodes, id);
    OneFiltered(nodes, WithId(id), n);
    var named := Filter(nodes, WithId(id));
    if |named| == 1 {
      assert named == [named[0]];
    }
  }

  predicate AContainer(n: RuntimeNode) {
    n.provider == DockerProvider && n.kind == Container
  }

  predicate AService(n: RuntimeNode) {
    n.provider == SystemdProvider && n.kind == SystemdService
  }

  predicate AnInternalNetwork(n: RuntimeNode) {
    && n.provider == DockerProvider && n.kind == DockerNetwork
    && "internal" in n.metadata && n.metadata["internal"] == "true"
  }

  predicate AListener(n: RuntimeNode) {
    n.provider == NetworkProvider && n.kind == NetworkListener
  }

  predicate DaemonStateRisk(n: RuntimeNode) {
    n.id == "host_risk_docker_daemon_state" && n.provider == DockerProvider && n.kind == HostRisk && n.metadata == map[]
  }

  predicate Plain(n: RuntimeNode, id: string, provider: NodeProvider, kind: NodeKind, text: string, layer: string) {
    && n.id == id && n.provider == provider && n.kind == kind && n.nodeLabel == text && n.layer == Some(layer)
    && n.status.None? && n.metadata == map[] && n.service.None? && n.package.None?
  }

  predicate AddressRisk(n: RuntimeNode) {
    Plain(n, "host_risk_docker_unspecified_address_port", DockerProvider, HostRisk,
          "Unspecified-address Docker port publication", "host")
  }

  predicate CollisionScope(n: RuntimeNode) {
    Plain(n, "runtime_integrity_scope", OtherProvider("other"), IntegrityScope, "Runtime identity integrity", "advisory")
  }

  predicate CollisionRisk(n: RuntimeNode) {
    Plain(n, "runtime_integrity_risk_identity_collision", OtherProvider("other"), HostRisk,
          "Duplicate runtime topology identity", "advisory")
  }

  lemma CollisionNodesAre(n: RuntimeNode)
    ensures IsIntegrityScope(n) <==> CollisionScope(n)
    ensures IsCollisionRisk(n) <==> CollisionRisk(n)
  {
  }

  // ---------------------------------------------------------------- texts

  predicate IsLetter(c: char, lower: char) {
    c == lower || ('a' <= lower <= 'z' && c as int + 32 == lower as int)
  }

  /** The text is this lower-case word, in any case. */
  predicate Reads(s: string, word: string) {
    |s| == |word| && forall i :: 0 <= i < |s| ==> IsLetter(s[i], word[i])
  }

  predicate Begins(s: string, word: string) {
    |word| <= |s| && Reads(s[..|word|], word)
  }

  predicate LowerWord(word: string) {
    forall i :: 0 <= i < |word| ==> 'a' <= word[i] <= 'z'
  }

  lemma ReadsIsLower(s: string, word: string)
    requires LowerWord(word)
    ensures AsciiLower(s) == word <==> Reads(s, word)
    ensures StartsWith(AsciiLower(s), word) <==> Begins(s, word)
  {
    var lower := AsciiLower(s);
    if AsciiLower(s) == word {
      forall i | 0 <= i < |s| ensures IsLetter(s[i], word[i]) {
        assert lower[i] == word[i];
      }
    }
    if Reads(s, word) {
      forall i | 0 <= i < |s| ensures lower[i] == word[i] {
        assert IsLetter(s[i], word[i]);
      }
    }
    if StartsWith(lower, word) {
      forall i | 0 <= i < |word| ensures IsLetter(s[..|word|][i], word[i]) {
        assert lower[i] == word[i];
      }
    }
    if Begins(s, word) {
      forall i | 0 <= i < |word| ensures lower[i] == word[i] {
        assert IsLetter(s[..|word|][i], word[i]);
      }
      assert lower[..|word|] == word;
    }
  }

  predicate Runs(status: string) {
    Begins(status, "up") || Reads(status, "running")
  }

  predicate Stopped(status: string) {
    && !Runs(status)
    && (Begins(status, "exited") || Reads(status, "stopped") || Reads(status, "dead") || Reads(status, "paused")
        || Reads(status, "removing") || Reads(status, "failed") || Reads(status, "error"))
  }

  lemma RunsIs(status: string)
    ensures StatusRunning(status) <==> Runs(status)
  {
    ReadsIsLower(status, "up");
    ReadsIsLower(status, "running");
  }

  lemma StoppedIs(status: string)
    ensures StatusStoppedOrFailed(status) <==> Stopped(status)
  {
    RunsIs(status);
    ReadsIsLower(status, "exited");
    ReadsIsLower(status, "stopped");
    ReadsIsLower(status, "dead");
    ReadsIsLower(status, "paused");
    MoreWords(status);
  }

  lemma MoreWords(status: string)
    ensures AsciiLower(status) == "removing" <==> Reads(status, "removing")
    ensures AsciiLower(status) == "failed" <==> Reads(status, "failed")
    ensures AsciiLower(status) == "error" <==> Reads(status, "error")
  {
    ReadsIsLower(status, "removing");
    ReadsIsLower(status, "failed");
    ReadsIsLower(status, "error");
  }

  /** A decimal port from 1 to 65535. */
  predicate IsPort(s: string) {
    s != "" && Decimal.AllDigits(s) && 1 <= Decimal.Value(s) <= 65535
  }

  /** A port published on the host, as `host:container/protocol`. */
  ghost predicate IsPublished(port: string) {
    exists host, inner, protocol :: PublishedAs(port, host, inner, protocol)
  }

  predicate PublishedAs(port: string, host: string, inner: string, protocol: string) {
    && port == host + [':'] + (inner + ['/'] + protocol) && IsPort(host) && IsPort(inner)
    && (protocol == "tcp" || protocol == "udp" || protocol == "sctp")
  }

  lemma PortIs(s: string)
    ensures PortNumber(s) <==> IsPort(s)
  {
  }

  lemma ProtocolAvoids(protocol: string, c: char)
    requires (protocol == "tcp" || protocol == "udp" || protocol == "sctp") && c == ':'
    ensures c !in protocol
  {
  }

  lemma PublishedBack(host: string, inner: string, protocol: string, rest: string, port: string)
    requires rest == inner + ['/'] + protocol && port == host + [':'] + rest && IsPort(host) && IsPort(inner)
    requires protocol == "tcp" || protocol == "udp" || protocol == "sctp"
    ensures HostPublishedPort(port)
  {
    Decimal.DigitsAvoid(host, ':');
    Decimal.DigitsAvoid(inner, '/');
    Decimal.DigitsAvoid(inner, ':');
    ProtocolAvoids(protocol, ':');
    Decimal.SplitOnceJoined(host, ':', rest);
    Decimal.SplitOnceJoined(inner, '/', protocol);
    PortIs(host);
    PortIs(inner);
  }

  lemma PublishedIs(port: string)
    ensures HostPublishedPort(port) <==> IsPublished(port)
  {
    if HostPublishedPort(port) {
      PublishedParts(port);
    }
    if host, inner, protocol :| PublishedAs(port, host, inner, protocol) {
      PublishedBack(host, inner, protocol, inner + ['/'] + protocol, port);
    }
  }

  lemma PublishedParts(port: string)
    requires HostPublishedPort(port)
    ensures IsPublished(port)
  {
    var (host, rest) := Decimal.SplitOnce(port, ':').value;
    var (inner, protocol) := Decimal.SplitOnce(rest, '/').value;
    PortIs(host);
    PortIs(inner);
    Decimal.SplitOnceParts(port, ':', host, rest);
    Decimal.SplitOnceParts(rest, '/', inner, protocol);
    assert host + [':'] + rest == host + [':'] + (inner + ['/'] + protocol);
    assert PublishedAs(port, host, inner, protocol);
  }

  // ---------------------------------------------------------------- evidence

  /** One piece of Docker evidence of this kind about a container, observed and fresh. */
  predicate DockerProof(edge: RuntimeEdge, kind: EvidenceKind) {
    && |edge.evidenceRefs| == 1 && "docker_container_" <= edge.source
    && var e := edge.evidenceRefs[0];
       && e.kind == kind && e.version == 1 && e.provider == DockerEvidence && e.assertionKind == Observed
       && e.freshness == FreshEvidence && e.providerSlot.None? && e.id != "" && e.providerRevision != ""
       && e.subjectRef == edge.source
  }

  /** One piece of systemd evidence of this kind between two services. */
  predicate ServiceProof(edge: RuntimeEdge, kind: EvidenceKind, relationship: RelationshipKind) {
    && |edge.evidenceRefs| == 1 && edge.relationship == relationship && edge.source != edge.target
    && "systemd_service_" <= edge.source && "systemd_service_" <= edge.target
    && var e := edge.evidenceRefs[0];
       && e.kind == kind && e.version == 2 && e.provider == SystemdEvidence && e.assertionKind == Declared
       && e.providerSlot == Some(Systemd) && e.id != "" && e.providerRevision != "" && e.subjectRef == edge.source
  }

  predicate IsFresh(edge: RuntimeEdge) {
    |edge.evidenceRefs| > 0 && edge.evidenceRefs[0].freshness == FreshEvidence
  }

  predicate NotCurrent(edge: RuntimeEdge) {
    && !IsFresh(edge)
    && (ServiceProof(edge, SystemdRequires, Requires) || ServiceProof(edge, SystemdWants, Wants)
        || ServiceProof(edge, SystemdPartOf, PartOf))
  }

  predicate CollisionProof(edge: RuntimeEdge) {
    && edge.source == "runtime_integrity_scope" && edge.target == "runtime_integrity_risk_identity_collision"
    && edge.relationship == RelatedTo && edge.metadata == map[] && |edge.evidenceRefs| == 1
    && var e := edge.evidenceRefs[0];
       && e.kind == RuntimeIdentityCollision && e.version == 7 && e.provider == DockermapEvidence
       && e.assertionKind == Observed && e.freshness == FreshEvidence && e.providerSlot.None?
       && e.id == "dockermap_evidence_runtime_identity_collision" && e.providerRevision != ""
       && e.providerRevision != Decimal.Print(e.collectedAt) && e.subjectRef == edge.source
  }

  // ---------------------------------------------------------------- relationships

  ghost predicate Between(nodes: seq<RuntimeNode>, edge: RuntimeEdge, n: RuntimeNode, m: RuntimeNode) {
    Known(nodes, edge.source, n) && Known(nodes, edge.target, m)
  }

  ghost predicate ExposesState(nodes: seq<RuntimeNode>, edge: RuntimeEdge) {
    edge.relationship == ExposesDaemonState && exists n, m :: Between(nodes, edge, n, m) && AContainer(n) && DaemonStateRisk(m)
  }

  ghost predicate StateMount(nodes: seq<RuntimeNode>, edge: RuntimeEdge) {
    && ExposesState(nodes, edge) && edge.metadata == map[] && edge.target == "host_risk_docker_daemon_state"
    && DockerProof(edge, DockerDaemonStateBindMount)
  }

  ghost predicate ExposesAddress(nodes: seq<RuntimeNode>, edge: RuntimeEdge) {
    edge.relationship == Exposes && exists n, m :: Between(nodes, edge, n, m) && AContainer(n) && AddressRisk(m)
  }

  ghost predicate OpenAddress(nodes: seq<RuntimeNode>, edge: RuntimeEdge) {
    && ExposesAddress(nodes, edge) && edge.metadata == map[]
    && edge.target == "host_risk_docker_unspecified_address_port"
    && DockerProof(edge, DockerUnspecifiedAddressPortPublication)
  }

  ghost predicate JoinsInternal(nodes: seq<RuntimeNode>, edge: RuntimeEdge) {
    edge.relationship == ConnectedTo && exists n, m :: Between(nodes, edge, n, m) && AContainer(n) && AnInternalNetwork(m)
  }

  ghost predicate InternalMember(nodes: seq<RuntimeNode>, edge: RuntimeEdge) {
    JoinsInternal(nodes, edge) && DockerProof(edge, DockerNetworkMembership) && "docker_network_" <= edge.target
  }

  ghost predicate HasListener(nodes: seq<RuntimeNode>, edge: RuntimeEdge) {
    edge.relationship == Exposes && exists n, m :: Between(nodes, edge, n, m) && AContainer(n) && AListener(m)
  }

  ghost predicate PublishesPorts(nodes: seq<RuntimeNode>, edge: RuntimeEdge) {
    && HasListener(nodes, edge) && DockerProof(edge, DockerPortPublication) && "network_listener_" <= edge.target
    && exists m :: Known(nodes, edge.target, m) && "port" in m.metadata && IsPublished(m.metadata["port"])
  }

  ghost predicate DeclaresDependency(nodes: seq<RuntimeNode>, edge: RuntimeEdge) {
    && edge.relationship == DependsOn && edge.metadata == map[] && edge.source != edge.target
    && DockerProof(edge, DockerComposeDependsOn) && "docker_container_" <= edge.target
    && exists n, m :: Between(nodes, edge, n, m) && AContainer(n) && AContainer(m)
  }

  ghost predicate StatusesAre(nodes: seq<RuntimeNode>, edge: RuntimeEdge, source: string -> bool, target: string -> bool) {
    exists n, m :: Between(nodes, edge, n, m) && n.status.Some? && m.status.Some? && source(n.status.value) && target(m.status.value)
  }

  predicate Active(status: string) {
    status == "active"
  }

  predicate Inactive(status: string) {
    status == "inactive" || status == "failed"
  }

  ghost predicate JoinsServices(nodes: seq<RuntimeNode>, edge: RuntimeEdge) {
    exists n, m :: Between(nodes, edge, n, m) && AService(n) && AService(m)
  }

  ghost predicate JoinsCollision(nodes: seq<RuntimeNode>, edge: RuntimeEdge) {
    exists n, m :: Between(nodes, edge, n, m) && CollisionScope(n) && CollisionRisk(m)
  }

  // ---------------------------------------------------------------- what the rules count and ask for

  /** The relationships of which a rule tolerates only one per key. */
  ghost predicate Counts(rule: Rule, nodes: seq<RuntimeNode>, edge: RuntimeEdge) {
    match rule
    case EvidenceNotCurrent => NotCurrent(edge)
    case IdentityCollision =>
      edge.source == "runtime_integrity_scope" && edge.target == "runtime_integrity_risk_identity_collision"
    case UnspecifiedAddressPort => ExposesAddress(nodes, edge)
    case RequiresTargetNotActive => ServiceProof(edge, SystemdRequires, Requires) && IsFresh(edge)
    case PartOfTargetNotActive => ServiceProof(edge, SystemdPartOf, PartOf) && IsFresh(edge)
    case DaemonStatePublishesPort => ExposesState(nodes, edge)
    case MutualDependency => edge.relationship == DependsOn
    case DependencyNotActive => edge.relationship == DependsOn
    case DaemonStateBindMount => ExposesState(nodes, edge) && edge.metadata == map[]
    case InternalNetworkPort => JoinsInternal(nodes, edge)
    case MountMissingAtContainer => false
  }

  /** Exposure rules count per container, the others per pair of ends. */
  predicate Shares(rule: Rule, a: RuntimeEdge, b: RuntimeEdge) {
    match rule
    case UnspecifiedAddressPort => a.source == b.source
    case DaemonStatePublishesPort => a.source == b.source
    case _ => a.source == b.source && a.target == b.target
  }

  /** What a rule asks of the relationship it acts on. */
  ghost predicate Asks(rule: Rule, nodes: seq<RuntimeNode>, edge: RuntimeEdge) {
    match rule
    case EvidenceNotCurrent => NotCurrent(edge) && JoinsServices(nodes, edge)
    case IdentityCollision =>
      CollisionProof(edge) && JoinsCollision(nodes, edge)
    case UnspecifiedAddressPort => OpenAddress(nodes, edge)
    case RequiresTargetNotActive =>
      && ServiceProof(edge, SystemdRequires, Requires) && IsFresh(edge) && JoinsServices(nodes, edge)
      && StatusesAre(nodes, edge, Active, Inactive)
    case PartOfTargetNotActive =>
      && ServiceProof(edge, SystemdPartOf, PartOf) && IsFresh(edge) && JoinsServices(nodes, edge)
      && StatusesAre(nodes, edge, Active, Inactive)
    case DaemonStatePublishesPort => StateMount(nodes, edge)
    case MutualDependency => DeclaresDependency(nodes, edge)
    case DependencyNotActive => DeclaresDependency(nodes, edge) && StatusesAre(nodes, edge, Runs, Stopped)
    case DaemonStateBindMount => StateMount(nodes, edge)
    case InternalNetworkPort => InternalMember(nodes, edge)
    case MountMissingAtContainer => false
  }

  lemma EndsAre(index: NodeIndex, nodes: seq<RuntimeNode>, edge: RuntimeEdge)
    requires IsIndex(index, nodes)
    ensures Ends(index, edge) ==> Between(nodes, edge, index[edge.source], index[edge.target])
    ensures forall n, m :: Between(nodes, edge, n, m) ==>
                             Ends(index, edge) && n == index[edge.source] && m == index[edge.target]
  {
    if Ends(index, edge) {
      KnownIsIndexed(index, nodes, edge.source, index[edge.source]);
      KnownIsIndexed(index, nodes, edge.target, index[edge.target]);
    }
    forall n, m | Between(nodes, edge, n, m)
      ensures Ends(index, edge) && n == index[edge.source] && m == index[edge.target]
    {
      KnownIsIndexed(index, nodes, edge.source, n);
      KnownIsIndexed(index, nodes, edge.target, m);
    }
  }

  lemma DockerProofIs(edge: RuntimeEdge, kind: EvidenceKind)
    requires kind.DockerNetworkMembership? || kind.DockerPortPublication? || kind.DockerComposeDependsOn?
             || kind.DockerDaemonStateBindMount? || kind.DockerUnspecifiedAddressPortPublication?
    ensures SoleEvidence(edge, kind) <==>
              && DockerProof(edge, kind)
              && match kind
                 case DockerNetworkMembership => edge.relationship == ConnectedTo && "docker_network_" <= edge.target
                 case DockerPortPublication => edge.relationship == Exposes && "network_listener_" <= edge.target
                 case DockerComposeDependsOn =>
                   edge.relationship == DependsOn && "docker_container_" <= edge.target && edge.source != edge.target
                 case DockerDaemonStateBindMount =>
                   edge.relationship == ExposesDaemonState && edge.target == "host_risk_docker_daemon_state"
                 case _ => edge.relationship == Exposes && edge.target == "host_risk_docker_unspecified_address_port"
  {
  }

  lemma ServiceProofIs(edge: RuntimeEdge)
    ensures SoleEvidence(edge, SystemdRequires) <==> ServiceProof(edge, SystemdRequires, Requires)
    ensures SoleEvidence(edge, SystemdWants) <==> ServiceProof(edge, SystemdWants, Wants)
    ensures SoleEvidence(edge, SystemdPartOf) <==> ServiceProof(edge, SystemdPartOf, PartOf)
  {
  }

  lemma NotCurrentIs(edge: RuntimeEdge)
    ensures NotCurrentCandidate(edge) <==> NotCurrent(edge)
    ensures RequiresCandidate(edge) <==> ServiceProof(edge, SystemdRequires, Requires) && IsFresh(edge)
    ensures PartOfCandidate(edge) <==> ServiceProof(edge, SystemdPartOf, PartOf) && IsFresh(edge)
  {
    ServiceProofIs(edge);
  }

  lemma DockerShapesAre(index: NodeIndex, nodes: seq<RuntimeNode>, edge: RuntimeEdge)
    requires IsIndex(index, nodes)
    ensures DaemonStatePairShape(index, edge) <==> ExposesState(nodes, edge)
    ensures UnspecifiedAddressShape(index, edge) <==> ExposesAddress(nodes, edge)
    ensures MembershipShape(index, edge) <==> JoinsInternal(nodes, edge)
    ensures PortPairShape(index, edge) <==> HasListener(nodes, edge)
  {
    RiskShapesAre(index, nodes, edge);
    NetworkShapesAre(index, nodes, edge);
  }

  lemma RiskShapesAre(index: NodeIndex, nodes: seq<RuntimeNode>, edge: RuntimeEdge)
    requires IsIndex(index, nodes)
    ensures DaemonStatePairShape(index, edge) <==> ExposesState(nodes, edge)
    ensures UnspecifiedAddressShape(index, edge) <==> ExposesAddress(nodes, edge)
  {
    EndsAre(index, nodes, edge);
  }

  lemma NetworkShapesAre(index: NodeIndex, nodes: seq<RuntimeNode>, edge: RuntimeEdge)
    requires IsIndex(index, nodes)
    ensures MembershipShape(index, edge) <==> JoinsInternal(nodes, edge)
    ensures PortPairShape(index, edge) <==> HasListener(nodes, edge)
  {
    EndsAre(index, nodes, edge);
  }

  lemma CountedIs(rule: Rule, index: NodeIndex, nodes: seq<RuntimeNode>, edge: RuntimeEdge)
    requires IsIndex(index, nodes)
    ensures Counted(rule, index, edge) <==> Counts(rule, nodes, edge)
  {
    if rule.EvidenceNotCurrent? || rule.RequiresTargetNotActive? || rule.PartOfTargetNotActive? {
      NotCurrentIs(edge);
    } else {
      DockerShapesAre(index, nodes, edge);
    }
  }

  lemma StateMountIs(index: NodeIndex, nodes: seq<RuntimeNode>, edge: RuntimeEdge)
    requires IsIndex(index, nodes)
    ensures DaemonStateCandidate(index, edge) <==> StateMount(nodes, edge)
  {
    DockerShapesAre(index, nodes, edge);
    DockerProofIs(edge, DockerDaemonStateBindMount);
  }

  lemma MemberIs(index: NodeIndex, nodes: seq<RuntimeNode>, edge: RuntimeEdge)
    requires IsIndex(index, nodes)
    ensures MembershipCandidate(index, edge) <==> InternalMember(nodes, edge)
  {
    DockerShapesAre(index, nodes, edge);
    DockerProofIs(edge, DockerNetworkMembership);
  }

  lemma PortCandidateIs(index: NodeIndex, nodes: seq<RuntimeNode>, edge: RuntimeEdge)
    requires IsIndex(index, nodes)
    ensures PortCandidate(index, edge) <==> PublishesPorts(nodes, edge)
  {
    DockerShapesAre(index, nodes, edge);
    DockerProofIs(edge, DockerPortPublication);
    if edge.target in index {
      KnownIsIndexed(index, nodes, edge.target, index[edge.target]);
      var m := index[edge.target];
      if "port" in m.metadata {
        PublishedIs(m.metadata["port"]);
      }
    }
    forall m | Known(nodes, edge.target, m) ensures edge.target in index && index[edge.target] == m {
      KnownIsIndexed(index, nodes, edge.target, m);
    }
  }

  lemma DependencyIs(index: NodeIndex, nodes: seq<RuntimeNode>, edge: RuntimeEdge)
    requires IsIndex(index, nodes)
    ensures ComposeDependencyCandidate(index, edge) <==> DeclaresDependency(nodes, edge)
  {
    EndsAre(index, nodes, edge);
    DockerProofIs(edge, DockerComposeDependsOn);
  }

  lemma AddressIs(index: NodeIndex, nodes: seq<RuntimeNode>, edge: RuntimeEdge)
    requires IsIndex(index, nodes)
    ensures (edge.metadata == map[] && UnspecifiedAddressShape(index, edge)
             && SoleEvidence(edge, DockerUnspecifiedAddressPortPublication)) <==> OpenAddress(nodes, edge)
  {
    DockerShapesAre(index, nodes, edge);
    DockerProofIs(edge, DockerUnspecifiedAddressPortPublication);
  }

  lemma CollisionIs(index: NodeIndex, nodes: seq<RuntimeNode>, edge: RuntimeEdge)
    requires IsIndex(index, nodes)
    ensures CollisionCandidate(index, edge) <==> Asks(IdentityCollision, nodes, edge)
  {
    CollisionEndsAre(index, nodes, edge);
    CollisionProofIs(edge);
    CollisionCandidateIs(index, edge);
  }

  lemma CollisionCandidateIs(index: NodeIndex, edge: RuntimeEdge)
    ensures CollisionCandidate(index, edge) <==>
              Ends(index, edge) && IsIntegrityScope(index[edge.source]) && IsCollisionRisk(index[edge.target])
              && CollisionMarks(edge)
  {
  }

  predicate CollisionMarks(edge: RuntimeEdge) {
    && edge.metadata == map[] && edge.relationship == RelatedTo && SoleEvidence(edge, RuntimeIdentityCollision)
    && edge.evidenceRefs[0].id == "dockermap_evidence_runtime_identity_collision"
    && edge.evidenceRefs[0].providerRevision != Decimal.Print(edge.evidenceRefs[0].collectedAt)
  }

  lemma CollisionEndsAre(index: NodeIndex, nodes: seq<RuntimeNode>, edge: RuntimeEdge)
    requires IsIndex(index, nodes)
    ensures (Ends(index, edge) && IsIntegrityScope(index[edge.source]) && IsCollisionRisk(index[edge.target]))
            <==> JoinsCollision(nodes, edge)
    ensures JoinsCollision(nodes, edge)
            ==> edge.source == ReservedId(IntegrityScopeId) && edge.target == ReservedId(CollisionRiskId)
  {
    EndsAre(index, nodes, edge);
    forall n ensures IsIntegrityScope(n) <==> CollisionScope(n) {
      CollisionNodesAre(n);
    }
    forall n ensures IsCollisionRisk(n) <==> CollisionRisk(n) {
      CollisionNodesAre(n);
    }
    IndexNamesItself(index, nodes);
  }

  lemma CollisionProofIs(edge: RuntimeEdge)
    ensures CollisionProof(edge) <==> CollisionMarks(edge)
  {
    if |edge.evidenceRefs| == 1 && edge.evidenceRefs[0].kind == RuntimeIdentityCollision {
      SoleIsAttested(edge, edge.evidenceRefs[0]);
      CollisionEvidenceIs(edge, edge.evidenceRefs[0]);
    }
  }

  lemma SoleIsAttested(edge: RuntimeEdge, e: EvidenceRef)
    requires edge.evidenceRefs == [e]
    ensures SoleEvidence(edge, e.kind) <==> AttestsEdge(edge, e) || DockerAttests(edge, e)
  {
  }

  lemma CollisionEvidenceIs(edge: RuntimeEdge, e: EvidenceRef)
    requires e.kind == RuntimeIdentityCollision
    ensures AttestsEdge(edge, e) || DockerAttests(edge, e) <==>
              && edge.source == "runtime_integrity_scope" && edge.target == "runtime_integrity_risk_identity_collision"
              && edge.relationship == RelatedTo && e.version == 7 && e.provider == DockermapEvidence
              && e.assertionKind == Observed && e.freshness == FreshEvidence && e.providerSlot.None?
              && e.id != "" && e.providerRevision != "" && e.subjectRef == edge.source
  {
  }

  lemma ServicesAre(index: NodeIndex, nodes: seq<RuntimeNode>, edge: RuntimeEdge)
    requires IsIndex(index, nodes)
    ensures (Ends(index, edge) && IsSystemdService(index[edge.source]) && IsSystemdService(index[edge.target]))
            <==> JoinsServices(nodes, edge)
    ensures InactiveTarget(index, edge) <==> JoinsServices(nodes, edge) && StatusesAre(nodes, edge, Active, Inactive)
  {
    EndsAre(index, nodes, edge);
  }

  lemma RunningAndStoppedAre(index: NodeIndex, nodes: seq<RuntimeNode>, edge: RuntimeEdge)
    requires IsIndex(index, nodes) && Ends(index, edge)
    ensures && index[edge.source].status.Some? && StatusRunning(index[edge.source].status.value)
            && index[edge.target].status.Some? && StatusStoppedOrFailed(index[edge.target].status.value)
            <==> StatusesAre(nodes, edge, Runs, Stopped)
  {
    EndsAre(index, nodes, edge);
    if index[edge.source].status.Some? {
      RunsIs(index[edge.source].status.value);
    }
    if index[edge.target].status.Some? {
      StoppedIs(index[edge.target].status.value);
    }
  }

  lemma CandidateIs(rule: Rule, index: NodeIndex, nodes: seq<RuntimeNode>, edge: RuntimeEdge)
    requires IsIndex(index, nodes)
    ensures Candidate(rule, index, edge) <==> Asks(rule, nodes, edge)
  {
    match rule
    case EvidenceNotCurrent => NotCurrentIs(edge); ServicesAre(index, nodes, edge);
    case IdentityCollision => CollisionIs(index, nodes, edge);
    case UnspecifiedAddressPort => AddressIs(index, nodes, edge);
    case RequiresTargetNotActive => NotCurrentIs(edge); ServicesAre(index, nodes, edge);
    case PartOfTargetNotActive => NotCurrentIs(edge); ServicesAre(index, nodes, edge);
    case DaemonStatePublishesPort => StateMountIs(index, nodes, edge);
    case MutualDependency => DependencyIs(index, nodes, edge);
    case DependencyNotActive =>
      DependencyIs(index, nodes, edge);
      EndsAre(index, nodes, edge);
      if Ends(index, edge) {
        RunningAndStoppedAre(index, nodes, edge);
      }
    case DaemonStateBindMount => StateMountIs(index, nodes, edge);
    case InternalNetworkPort => MemberIs(index, nodes, edge);
    case MountMissingAtContainer =>
  }

  // ---------------------------------------------------------------- what is reported

  /** The relationship is the only one the rule counts under its key. */
  ghost predicate Alone(rule: Rule, nodes: seq<RuntimeNode>, edges: seq<RuntimeEdge>, edge: RuntimeEdge) {
    exists i :: AloneAt(rule, nodes, edges, edge, i)
  }

  ghost predicate AloneAt(rule: Rule, nodes: seq<RuntimeNode>, edges: seq<RuntimeEdge>, edge: RuntimeEdge, i: nat) {
    && i < |edges| && edges[i] == edge && Counts(rule, nodes, edge)
    && forall j :: 0 <= j < |edges| && Counts(rule, nodes, edges[j]) && Shares(rule, edges[j], edge) ==> j == i
  }

  lemma AloneIs(rule: Rule, index: NodeIndex, nodes: seq<RuntimeNode>, edges: seq<RuntimeEdge>, edge: RuntimeEdge)
    requires IsIndex(index, nodes)
    ensures Alone(rule, nodes, edges, edge) <==> edge in edges && Lone(rule, edges, index, edge) && Counted(rule, index, edge)
  {
    var p := Rival(rule, index, edge);
    RivalIs(rule, index, nodes, edge);
    CountedIs(rule, index, nodes, edge);
    LoneIs(edges, p, edge);
    if edge in edges && Lone(rule, edges, index, edge) && Counted(rule, index, edge) {
      var i :| OneAt(edges, p, edge, i);
      assert AloneAt(rule, nodes, edges, edge, i);
    }
    if i :| AloneAt(rule, nodes, edges, edge, i) {
      assert OneAt(edges, p, edge, i);
    }
  }

  lemma RivalIs(rule: Rule, index: NodeIndex, nodes: seq<RuntimeNode>, edge: RuntimeEdge)
    requires IsIndex(index, nodes)
    ensures forall other :: Rival(rule, index, edge)(other) <==> Counts(rule, nodes, other) && Shares(rule, other, edge)
  {
    forall other ensures Rival(rule, index, edge)(other) <==> Counts(rule, nodes, other) && Shares(rule, other, edge) {
      CountedIs(rule, index, nodes, other);
    }
  }

  lemma LoneIs(edges: seq<RuntimeEdge>, p: RuntimeEdge -> bool, edge: RuntimeEdge)
    ensures (edge in edges && |Filter(edges, p)| == 1 && p(edge)) <==> One(edges, p, edge)
  {
    OneFiltered(edges, p, edge);
    FilterMembers(edges, p);
    var kept := Filter(edges, p);
    if edge in edges && |kept| == 1 && p(edge) {
      assert edge in kept;
      assert kept == [edge];
    }
    if One(edges, p, edge) {
      assert edge in kept;
    }
  }

  /** A finding of this rule about these ends, resting on this evidence. */
  ghost predicate Reports(findings: seq<Finding>, rule: Rule, source: string, target: string, refs: seq<EvidenceRef>) {
    exists f :: f in findings && Says(f, rule, source, target, refs)
  }

  predicate Says(f: Finding, rule: Rule, source: string, target: string, refs: seq<EvidenceRef>) {
    f.rule == rule && f.subjectRef == source && f.targetRef == target && f.evidenceRefs == refs
  }

  ghost predicate Drafted(edges: seq<RuntimeEdge>, index: NodeIndex, rule: Rule, source: string, target: string,
                          refs: seq<EvidenceRef>)
  {
    exists d, edge :: RestingDraft(edges, index, rule, source, target, refs, d, edge)
  }

  ghost predicate RestingDraft(edges: seq<RuntimeEdge>, index: NodeIndex, rule: Rule, source: string, target: string,
                            refs: seq<EvidenceRef>, d: Draft, edge: RuntimeEdge)
  {
    && edge in edges && d in DraftsFor(rule, edges, index, edge) && d.rule == rule && d.source == source && d.target == target
    && d.evidenceRefs == refs
  }

  lemma ReportsAreDrafted(edges: seq<RuntimeEdge>, index: NodeIndex, digest: string -> HexDigest, rule: Rule, source: string,
                          target: string, refs: seq<EvidenceRef>)
    requires rule in RULES
    ensures Reports(FindingsOf(edges, index, digest), rule, source, target, refs)
            <==> Drafted(edges, index, rule, source, target, refs)
  {
    var drafts := AllDrafts(RULES, edges, index);
    var rendered := Rendered(drafts, digest);
    SortMembers(rendered, FindingLe);
    if f :| f in rendered && Says(f, rule, source, target, refs) {
      RenderedIsDrafted(edges, index, digest, f, drafts, rendered);
    }
    if d, edge :| RestingDraft(edges, index, rule, source, target, refs, d, edge) {
      var f := DraftIsRendered(edges, index, digest, rule, d, edge, drafts, rendered);
      assert Says(f, rule, source, target, refs);
    }
  }

  lemma RenderedIsDrafted(edges: seq<RuntimeEdge>, index: NodeIndex, digest: string -> HexDigest, f: Finding,
                          drafts: seq<Draft>, rendered: seq<Finding>)
    requires drafts == AllDrafts(RULES, edges, index) && rendered == Rendered(drafts, digest) && f in rendered
    ensures Drafted(edges, index, f.rule, f.subjectRef, f.targetRef, f.evidenceRefs)
  {
    var i :| 0 <= i < |rendered| && rendered[i] == f;
    DraftIsDrafted(edges, index, drafts[i]);
  }

  lemma DraftIsDrafted(edges: seq<RuntimeEdge>, index: NodeIndex, d: Draft)
    requires d in AllDrafts(RULES, edges, index)
    ensures Drafted(edges, index, d.rule, d.source, d.target, d.evidenceRefs)
  {
    var drafter, edge := DraftOrigin(RULES, edges, index, d);
    DraftIsAboutEdge(drafter, edges, index, edge, d);
    assert RestingDraft(edges, index, d.rule, d.source, d.target, d.evidenceRefs, d, edge);
  }

  lemma DraftIsRendered(edges: seq<RuntimeEdge>, index: NodeIndex, digest: string -> HexDigest, rule: Rule, d: Draft,
                        edge: RuntimeEdge, drafts: seq<Draft>, rendered: seq<Finding>) returns (f: Finding)
    requires rule in RULES && edge in edges && d in DraftsFor(rule, edges, index, edge)
    requires drafts == AllDrafts(RULES, edges, index) && rendered == Rendered(drafts, digest)
    ensures f in rendered && f.rule == d.rule && f.subjectRef == d.source && f.targetRef == d.target
            && f.evidenceRefs == d.evidenceRefs
  {
    DraftMember(RULES, edges, index, d, rule, edge);
    var i :| 0 <= i < |drafts| && drafts[i] == d;
    f := rendered[i];
  }

  /** The relationship a single-relationship rule rests on. */
  ghost predicate RestsOn(rule: Rule, nodes: seq<RuntimeNode>, edges: seq<RuntimeEdge>, edge: RuntimeEdge, source: string,
                          target: string)
  {
    edge.source == source && edge.target == target && Alone(rule, nodes, edges, edge) && Asks(rule, nodes, edge)
  }

  lemma IndexNamesItself(index: NodeIndex, nodes: seq<RuntimeNode>)
    requires IsIndex(index, nodes)
    ensures forall id :: id in index ==> index[id].id == id
  {
    IndexedIdentity(index, nodes);
  }

  lemma ActsOn(rule: Rule, index: NodeIndex, nodes: seq<RuntimeNode>, edges: seq<RuntimeEdge>, edge: RuntimeEdge)
    requires IsIndex(index, nodes)
    ensures edge in edges && Lone(rule, edges, index, edge) && Candidate(rule, index, edge)
            <==> Alone(rule, nodes, edges, edge) && Asks(rule, nodes, edge)
    ensures Candidate(rule, index, edge) ==> |edge.evidenceRefs| == 1
  {
    IndexNamesItself(index, nodes);
    AloneIs(rule, index, nodes, edges, edge);
    CandidateIs(rule, index, nodes, edge);
    if Candidate(rule, index, edge) {
      CandidateIsCounted(rule, index, edge);
    }
  }

  lemma SingleDraft(rule: Rule, edges: seq<RuntimeEdge>, index: NodeIndex, edge: RuntimeEdge)
    requires SingleEdge(rule) && Lone(rule, edges, index, edge) && Candidate(rule, index, edge) && |edge.evidenceRefs| == 1
    ensures DraftsFor(rule, edges, index, edge) == [Draft(rule, edge.source, edge.target, None, edge.evidenceRefs)]
  {
    assert edge.evidenceRefs[..1] + [] == edge.evidenceRefs;
  }

  lemma SingleIsWarranted(nodes: seq<RuntimeNode>, edges: seq<RuntimeEdge>, index: NodeIndex, rule: Rule, source: string,
                          target: string, refs: seq<EvidenceRef>) returns (edge: RuntimeEdge)
    requires IsIndex(index, nodes) && SingleEdge(rule) && Drafted(edges, index, rule, source, target, refs)
    ensures RestsOn(rule, nodes, edges, edge, source, target) && refs == edge.evidenceRefs
  {
    var d;
    d, edge :| RestingDraft(edges, index, rule, source, target, refs, d, edge);
    ActsOn(rule, index, nodes, edges, edge);
    SingleDraft(rule, edges, index, edge);
  }

  lemma WarrantedIsSingle(nodes: seq<RuntimeNode>, edges: seq<RuntimeEdge>, index: NodeIndex, rule: Rule, source: string,
                          target: string, edge: RuntimeEdge)
    requires IsIndex(index, nodes) && SingleEdge(rule) && RestsOn(rule, nodes, edges, edge, source, target)
    ensures Drafted(edges, index, rule, source, target, edge.evidenceRefs)
  {
    ActsOn(rule, index, nodes, edges, edge);
    SingleDraft(rule, edges, index, edge);
    assert RestingDraft(edges, index, rule, source, target, edge.evidenceRefs, Draft(rule, source, target, None, edge.evidenceRefs), edge);
  }

  /** Each of the seven rules that rest on one relationship reports exactly what it asks for, with its evidence. */
  lemma SingleRulesReportExactly(nodes: seq<RuntimeNode>, edges: seq<RuntimeEdge>, index: NodeIndex,
                                 digest: string -> HexDigest, rule: Rule, source: string, target: string, refs: seq<EvidenceRef>)
    requires IsIndex(index, nodes) && rule in RULES && SingleEdge(rule)
    ensures Reports(FindingsOf(edges, index, digest), rule, source, target, refs)
            <==> exists edge :: RestsOn(rule, nodes, edges, edge, source, target) && refs == edge.evidenceRefs
  {
    ReportsAreDrafted(edges, index, digest, rule, source, target, refs);
    if Drafted(edges, index, rule, source, target, refs) {
      var edge := SingleIsWarranted(nodes, edges, index, rule, source, target, refs);
    }
    if edge :| RestsOn(rule, nodes, edges, edge, source, target) && refs == edge.evidenceRefs {
      WarrantedIsSingle(nodes, edges, index, rule, source, target, edge);
    }
  }
}
