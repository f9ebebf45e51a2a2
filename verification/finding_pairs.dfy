/** The three rules that need a second relationship, read off the relationships themselves. */
module FindingPairs {
  import opened Prelude
  import opened Sorting
  import opened RuntimeModel
  import opened Identity
  import opened Evidence
  import opened FindingRules
  import opened Findings
  import opened FindingTheorems
  import opened FindingFacts

  /** Both pieces of evidence were collected together. */
  predicate Together(a: RuntimeEdge, b: RuntimeEdge) {
    && |a.evidenceRefs| == 1 && |b.evidenceRefs| == 1
    && a.evidenceRefs[0].collectedAt == b.evidenceRefs[0].collectedAt
    && a.evidenceRefs[0].providerRevision == b.evidenceRefs[0].providerRevision
  }

  lemma TogetherIs(a: RuntimeEdge, b: RuntimeEdge)
    requires |a.evidenceRefs| == 1 && |b.evidenceRefs| == 1
    ensures SameObservation(a, b) <==> Together(a, b)
    ensures forall rule :: PairDraft(rule, a, Some(b)).evidenceRefs == a.evidenceRefs + b.evidenceRefs
  {
    assert a.evidenceRefs[..1] == a.evidenceRefs && b.evidenceRefs[..1] == b.evidenceRefs;
  }

  // ---------------------------------------------------------------- mutual dependencies

  /** Each of the two is the only dependency in its direction and a Compose declaration, and they belong together. */
  ghost predicate Mutual(nodes: seq<RuntimeNode>, edges: seq<RuntimeEdge>, a: string, b: string, there: RuntimeEdge,
                         back: RuntimeEdge)
  {
    && RestsOn(MutualDependency, nodes, edges, there, a, b) && RestsOn(MutualDependency, nodes, edges, back, b, a)
    && Together(there, back)
  }

  lemma MutualIsWarranted(nodes: seq<RuntimeNode>, edges: seq<RuntimeEdge>, index: NodeIndex, a: string, b: string,
                          refs: seq<EvidenceRef>) returns (there: RuntimeEdge, back: RuntimeEdge)
    requires IsIndex(index, nodes) && Drafted(edges, index, MutualDependency, a, b, refs)
    ensures Before(a, b) && Mutual(nodes, edges, a, b, there, back) && refs == there.evidenceRefs + back.evidenceRefs
  {
    var d;
    d, there :| RestingDraft(edges, index, MutualDependency, a, b, refs, d, there);
    back := ReverseIs(edges, index, there, d);
    ActsOn(MutualDependency, index, nodes, edges, there);
    ActsOn(MutualDependency, index, nodes, edges, back);
    TogetherIs(there, back);
  }

  /** What a mutual draft rests on: the lone reverse dependency. */
  lemma ReverseIs(edges: seq<RuntimeEdge>, index: NodeIndex, there: RuntimeEdge, d: Draft) returns (back: RuntimeEdge)
    requires there in edges && d in DraftsFor(MutualDependency, edges, index, there)
    ensures Lone(MutualDependency, edges, index, there) && Candidate(MutualDependency, index, there)
    ensures back in edges && back.source == there.target && back.target == there.source
    ensures Lone(MutualDependency, edges, index, back) && Candidate(MutualDependency, index, back)
    ensures SameObservation(there, back) && d == PairDraft(MutualDependency, there, Some(back))
    ensures Before(there.source, there.target)
  {
    var p := CandidateBetween(index, there.target, there.source);
    back := Partner(MutualDependency, edges, index, there).value;
    FilterMembers(edges, p);
    assert back in Filter(edges, p);
    DependencyRivals(MutualDependency, edges, index, back);
  }

  lemma WarrantedIsMutual(nodes: seq<RuntimeNode>, edges: seq<RuntimeEdge>, index: NodeIndex, a: string, b: string,
                          there: RuntimeEdge, back: RuntimeEdge)
    requires IsIndex(index, nodes) && Before(a, b) && Mutual(nodes, edges, a, b, there, back)
    ensures Drafted(edges, index, MutualDependency, a, b, there.evidenceRefs + back.evidenceRefs)
  {
    ActsOn(MutualDependency, index, nodes, edges, there);
    ActsOn(MutualDependency, index, nodes, edges, back);
    TogetherIs(there, back);
    DependencyRivals(MutualDependency, edges, index, back);
    MutualPartner(edges, index, there, back);
    PartneredDraft(MutualDependency, edges, index, there, back);
    var d := PairDraft(MutualDependency, there, Some(back));
    assert RestingDraft(edges, index, MutualDependency, a, b, there.evidenceRefs + back.evidenceRefs, d, there);
  }

  /** A mutual dependency is reported exactly for such a pair, under the identity that sorts first, with both proofs. */
  lemma MutualReportedExactly(nodes: seq<RuntimeNode>, edges: seq<RuntimeEdge>, index: NodeIndex, digest: string -> HexDigest,
                              a: string, b: string, refs: seq<EvidenceRef>)
    requires IsIndex(index, nodes)
    ensures Reports(FindingsOf(edges, index, digest), MutualDependency, a, b, refs)
            <==> LexLe(a, b) && a != b
                 && exists there, back :: Mutual(nodes, edges, a, b, there, back)
                                          && refs == there.evidenceRefs + back.evidenceRefs
  {
    ReportsAreDrafted(edges, index, digest, MutualDependency, a, b, refs);
    if Drafted(edges, index, MutualDependency, a, b, refs) {
      var there, back := MutualIsWarranted(nodes, edges, index, a, b, refs);
    }
    if LexLe(a, b) && a != b {
      if there, back :| Mutual(nodes, edges, a, b, there, back) && refs == there.evidenceRefs + back.evidenceRefs {
        WarrantedIsMutual(nodes, edges, index, a, b, there, back);
      }
    }
  }

  // ---------------------------------------------------------------- ports

  /** The relationship is the container's only one to a listener, or its only one to this listener. */
  ghost predicate OnlyPort(nodes: seq<RuntimeNode>, edges: seq<RuntimeEdge>, port: RuntimeEdge, perListener: bool) {
    exists i :: OnlyPortAt(nodes, edges, port, perListener, i)
  }

  ghost predicate OnlyPortAt(nodes: seq<RuntimeNode>, edges: seq<RuntimeEdge>, port: RuntimeEdge, perListener: bool, i: nat) {
    && i < |edges| && edges[i] == port && HasListener(nodes, port)
    && (forall j :: (0 <= j < |edges| && HasListener(nodes, edges[j]) && edges[j].source == port.source
                     && (perListener ==> edges[j].target == port.target)) ==> j == i)
  }

  lemma ListenersAre(index: NodeIndex, nodes: seq<RuntimeNode>, port: RuntimeEdge, perListener: bool, p: RuntimeEdge -> bool)
    requires IsIndex(index, nodes)
    requires p == if perListener then SamePort(index, port) else PortOf(index, port.source)
    ensures forall other :: p(other) <==> HasListener(nodes, other) && other.source == port.source
                                          && (perListener ==> other.target == port.target)
    ensures PortPairShape(index, port) <==> HasListener(nodes, port)
  {
    forall other
      ensures p(other) <==> HasListener(nodes, other) && other.source == port.source
                            && (perListener ==> other.target == port.target)
    {
      DockerShapesAre(index, nodes, other);
    }
    DockerShapesAre(index, nodes, port);
  }

  lemma OnlyPortIs(index: NodeIndex, nodes: seq<RuntimeNode>, edges: seq<RuntimeEdge>, port: RuntimeEdge, perListener: bool,
                   p: RuntimeEdge -> bool)
    requires IsIndex(index, nodes)
    requires p == if perListener then SamePort(index, port) else PortOf(index, port.source)
    ensures (port in edges && |Filter(edges, p)| == 1 && PortPairShape(index, port)) <==> OnlyPort(nodes, edges, port, perListener)
  {
    ListenersAre(index, nodes, port, perListener, p);
    LoneIs(edges, p, port);
    if i :| OneAt(edges, p, port, i) {
      assert OnlyPortAt(nodes, edges, port, perListener, i);
    }
    if i :| OnlyPortAt(nodes, edges, port, perListener, i) {
      assert OneAt(edges, p, port, i);
    }
  }

  // ---------------------------------------------------------------- daemon state and a published port

  ghost predicate Exposed(nodes: seq<RuntimeNode>, edges: seq<RuntimeEdge>, source: string, target: string,
                          state: RuntimeEdge, port: RuntimeEdge)
  {
    && RestsOn(DaemonStatePublishesPort, nodes, edges, state, source, target)
    && port.source == source && port.metadata == map[] && PublishesPorts(nodes, port) && OnlyPort(nodes, edges, port, false)
    && Together(state, port)
  }

  lemma PortProofIsOne(nodes: seq<RuntimeNode>, port: RuntimeEdge)
    requires PublishesPorts(nodes, port)
    ensures |port.evidenceRefs| == 1
  {
  }

  /** What such a draft rests on: the container's only port relationship. */
  lemma PortBehindIs(edges: seq<RuntimeEdge>, index: NodeIndex, state: RuntimeEdge, d: Draft) returns (port: RuntimeEdge)
    requires state in edges && d in DraftsFor(DaemonStatePublishesPort, edges, index, state)
    ensures Lone(DaemonStatePublishesPort, edges, index, state) && Candidate(DaemonStatePublishesPort, index, state)
    ensures port in edges && port.source == state.source && BarePortCandidate(index, port)
    ensures |Filter(edges, PortOf(index, state.source))| == 1
    ensures SameObservation(state, port) && d == PairDraft(DaemonStatePublishesPort, state, Some(port))
  {
    var p := BarePortOf(index, state.source);
    port := Partner(DaemonStatePublishesPort, edges, index, state).value;
    FilterMembers(edges, p);
    assert port in Filter(edges, p);
  }

  lemma ExposedIsWarranted(nodes: seq<RuntimeNode>, edges: seq<RuntimeEdge>, index: NodeIndex, source: string, target: string,
                           refs: seq<EvidenceRef>) returns (state: RuntimeEdge, port: RuntimeEdge)
    requires IsIndex(index, nodes) && Drafted(edges, index, DaemonStatePublishesPort, source, target, refs)
    ensures Exposed(nodes, edges, source, target, state, port) && refs == state.evidenceRefs + port.evidenceRefs
  {
    var d;
    d, state :| RestingDraft(edges, index, DaemonStatePublishesPort, source, target, refs, d, state);
    port := PortBehindIs(edges, index, state, d);
    ActsOn(DaemonStatePublishesPort, index, nodes, edges, state);
    PortCandidateIs(index, nodes, port);
    PortProofIsOne(nodes, port);
    TogetherIs(state, port);
    OnlyPortIs(index, nodes, edges, port, false, PortOf(index, port.source));
  }

  lemma WarrantedIsExposed(nodes: seq<RuntimeNode>, edges: seq<RuntimeEdge>, index: NodeIndex, source: string, target: string,
                           state: RuntimeEdge, port: RuntimeEdge)
    requires IsIndex(index, nodes) && Exposed(nodes, edges, source, target, state, port)
    ensures Drafted(edges, index, DaemonStatePublishesPort, source, target, state.evidenceRefs + port.evidenceRefs)
  {
    ActsOn(DaemonStatePublishesPort, index, nodes, edges, state);
    PortCandidateIs(index, nodes, port);
    TogetherIs(state, port);
    OnlyPortIs(index, nodes, edges, port, false, PortOf(index, port.source));
    PortPartner(edges, index, state, port);
    PartneredDraft(DaemonStatePublishesPort, edges, index, state, port);
    var d := PairDraft(DaemonStatePublishesPort, state, Some(port));
    assert RestingDraft(edges, index, DaemonStatePublishesPort, source, target, state.evidenceRefs + port.evidenceRefs, d, state);
  }

  /** Access to the daemon's state is reported with a published port exactly for such a pair, with both proofs. */
  lemma ExposedReportedExactly(nodes: seq<RuntimeNode>, edges: seq<RuntimeEdge>, index: NodeIndex, digest: string -> HexDigest,
                               source: string, target: string, refs: seq<EvidenceRef>)
    requires IsIndex(index, nodes)
    ensures Reports(FindingsOf(edges, index, digest), DaemonStatePublishesPort, source, target, refs)
            <==> exists state, port :: Exposed(nodes, edges, source, target, state, port)
                                       && refs == state.evidenceRefs + port.evidenceRefs
  {
    ReportsAreDrafted(edges, index, digest, DaemonStatePublishesPort, source, target, refs);
    if Drafted(edges, index, DaemonStatePublishesPort, source, target, refs) {
      var state, port := ExposedIsWarranted(nodes, edges, index, source, target, refs);
    }
    if state, port :| Exposed(nodes, edges, source, target, state, port) && refs == state.evidenceRefs + port.evidenceRefs {
      WarrantedIsExposed(nodes, edges, index, source, target, state, port);
    }
  }

  // ---------------------------------------------------------------- internal networks and published ports

  ghost predicate Leaks(nodes: seq<RuntimeNode>, edges: seq<RuntimeEdge>, source: string, network: string,
                        member: RuntimeEdge, port: RuntimeEdge)
  {
    && RestsOn(InternalNetworkPort, nodes, edges, member, source, network)
    && port.source == source && PublishesPorts(nodes, port) && OnlyPort(nodes, edges, port, true)
  }

  /** What such a draft rests on: a lone membership and the container's only relationship to this listener. */
  lemma LeakBehindIs(edges: seq<RuntimeEdge>, index: NodeIndex, member: RuntimeEdge, d: Draft) returns (port: RuntimeEdge)
    requires d in DraftsFor(InternalNetworkPort, edges, index, member)
    ensures Lone(InternalNetworkPort, edges, index, member) && Candidate(InternalNetworkPort, index, member)
    ensures port in edges && port.source == member.source && PortCandidate(index, port)
    ensures |Filter(edges, SamePort(index, port))| == 1 && d == PortDraft(member, port)
  {
    var p := LonePortOf(edges, index, member.source);
    var ports := Filter(edges, p);
    port := PortDraftOrigin(member, ports, d);
    FilterMembers(edges, p);
  }

  lemma LeakIsWarranted(nodes: seq<RuntimeNode>, edges: seq<RuntimeEdge>, index: NodeIndex, source: string, network: string,
                        refs: seq<EvidenceRef>) returns (member: RuntimeEdge, port: RuntimeEdge)
    requires IsIndex(index, nodes) && Drafted(edges, index, InternalNetworkPort, source, network, refs)
    ensures Leaks(nodes, edges, source, network, member, port) && refs == member.evidenceRefs + port.evidenceRefs
  {
    var d;
    d, member :| RestingDraft(edges, index, InternalNetworkPort, source, network, refs, d, member);
    port := LeakBehindIs(edges, index, member, d);
    ActsOn(InternalNetworkPort, index, nodes, edges, member);
    LeakPortIs(nodes, edges, index, port);
    PortDraftRefs(member, port);
  }

  lemma PortDraftRefs(member: RuntimeEdge, port: RuntimeEdge)
    requires |member.evidenceRefs| == 1 && |port.evidenceRefs| == 1
    ensures PortDraft(member, port).evidenceRefs == member.evidenceRefs + port.evidenceRefs
  {
    assert member.evidenceRefs[..1] == member.evidenceRefs && port.evidenceRefs[..1] == port.evidenceRefs;
  }

  lemma LeakPortIs(nodes: seq<RuntimeNode>, edges: seq<RuntimeEdge>, index: NodeIndex, port: RuntimeEdge)
    requires IsIndex(index, nodes)
    ensures (port in edges && PortCandidate(index, port) && |Filter(edges, SamePort(index, port))| == 1)
            <==> PublishesPorts(nodes, port) && OnlyPort(nodes, edges, port, true)
    ensures PublishesPorts(nodes, port) ==> |port.evidenceRefs| == 1
  {
    PortCandidateIs(index, nodes, port);
    OnlyPortIs(index, nodes, edges, port, true, SamePort(index, port));
  }

  lemma LeakDrafts(edges: seq<RuntimeEdge>, index: NodeIndex, member: RuntimeEdge, port: RuntimeEdge)
    requires member in edges && Lone(InternalNetworkPort, edges, index, member) && Candidate(InternalNetworkPort, index, member)
    requires port in edges && port.source == member.source && PortCandidate(index, port)
    requires |Filter(edges, SamePort(index, port))| == 1
    ensures PortDraft(member, port) in DraftsFor(InternalNetworkPort, edges, index, member)
  {
    LoneMembership(edges, index, member);
    PublishingDrafts(edges, index, member, port);
  }

  lemma WarrantedIsLeak(nodes: seq<RuntimeNode>, edges: seq<RuntimeEdge>, index: NodeIndex, source: string, network: string,
                        member: RuntimeEdge, port: RuntimeEdge)
    requires IsIndex(index, nodes) && Leaks(nodes, edges, source, network, member, port)
    ensures Drafted(edges, index, InternalNetworkPort, source, network, member.evidenceRefs + port.evidenceRefs)
  {
    ActsOn(InternalNetworkPort, index, nodes, edges, member);
    LeakPortIs(nodes, edges, index, port);
    PortDraftRefs(member, port);
    LeakDrafts(edges, index, member, port);
    assert RestingDraft(edges, index, InternalNetworkPort, source, network, member.evidenceRefs + port.evidenceRefs,
                        PortDraft(member, port), member);
  }

  /** A member of an internal network is reported with each listener it publishes to, exactly for such pairs. */
  lemma LeaksReportedExactly(nodes: seq<RuntimeNode>, edges: seq<RuntimeEdge>, index: NodeIndex, digest: string -> HexDigest,
                             source: string, network: string, refs: seq<EvidenceRef>)
    requires IsIndex(index, nodes)
    ensures Reports(FindingsOf(edges, index, digest), InternalNetworkPort, source, network, refs)
            <==> exists member, port :: Leaks(nodes, edges, source, network, member, port)
                                        && refs == member.evidenceRefs + port.evidenceRefs
  {
    ReportsAreDrafted(edges, index, digest, InternalNetworkPort, source, network, refs);
    if Drafted(edges, index, InternalNetworkPort, source, network, refs) {
      var member, port := LeakIsWarranted(nodes, edges, index, source, network, refs);
    }
    if member, port :| Leaks(nodes, edges, source, network, member, port) && refs == member.evidenceRefs + port.evidenceRefs {
      WarrantedIsLeak(nodes, edges, index, source, network, member, port);
    }
  }
}
