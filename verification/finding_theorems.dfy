/** What the derived findings satisfy: known subjects, distinct identifiers, and independence of arrival order. */
module FindingTheorems {
  import opened Prelude
  import opened Sorting
  import opened RuntimeModel
  import opened Identity
  import opened Evidence
  import opened FindingRules
  import opened Findings
  import Decimal

  // ---------------------------------------------------------------- where a draft comes from

  /** A draft of one relationship under one rule. */
  ghost predicate DraftedBy(rule: Rule, edges: seq<RuntimeEdge>, index: NodeIndex, d: Draft, edge: RuntimeEdge) {
    edge in edges && d in DraftsFor(rule, edges, index, edge)
  }

  lemma RuleDraftOrigin(rule: Rule, edges: seq<RuntimeEdge>, index: NodeIndex, todo: seq<RuntimeEdge>, d: Draft)
    returns (edge: RuntimeEdge)
    requires d in RuleDrafts(rule, edges, index, todo)
    ensures edge in todo && d in DraftsFor(rule, edges, index, edge)
  {
    edge := FlatMapOrigin(todo, DraftsUnder(rule, edges, index), d);
  }

  lemma DraftOrigin(rules: seq<Rule>, edges: seq<RuntimeEdge>, index: NodeIndex, d: Draft)
    returns (rule: Rule, edge: RuntimeEdge)
    requires d in AllDrafts(rules, edges, index)
    ensures rule in rules && DraftedBy(rule, edges, index, d, edge)
  {
    rule := FlatMapOrigin(rules, DraftsBy(edges, index), d);
    edge := RuleDraftOrigin(rule, edges, index, edges, d);
  }

  lemma DraftMember(rules: seq<Rule>, edges: seq<RuntimeEdge>, index: NodeIndex, d: Draft, rule: Rule, edge: RuntimeEdge)
    requires rule in rules && DraftedBy(rule, edges, index, d, edge)
    ensures d in AllDrafts(rules, edges, index)
  {
    FlatMapMember(edges, DraftsUnder(rule, edges, index), edge, d);
    FlatMapMember(rules, DraftsBy(edges, index), rule, d);
  }

  lemma {:induction false} PortDraftOrigin(edge: RuntimeEdge, ports: seq<RuntimeEdge>, d: Draft) returns (port: RuntimeEdge)
    requires d in PortDrafts(edge, ports)
    ensures port in ports && d == PortDraft(edge, port)
  {
    var n := |ports| - 1;
    if d in PortDrafts(edge, ports[..n]) {
      port := PortDraftOrigin(edge, ports[..n], d);
    } else {
      port := ports[n];
    }
  }

  lemma {:induction false} PortDraftMember(edge: RuntimeEdge, ports: seq<RuntimeEdge>, port: RuntimeEdge)
    requires port in ports
    ensures PortDraft(edge, port) in PortDrafts(edge, ports)
  {
    var n := |ports| - 1;
    assert ports == ports[..n] + [ports[n]];
    if port in ports[..n] {
      PortDraftMember(edge, ports[..n], port);
    }
  }

  /** Every draft of a relationship is about that relationship, which is a lone candidate. */
  lemma DraftIsAboutEdge(rule: Rule, edges: seq<RuntimeEdge>, index: NodeIndex, edge: RuntimeEdge, d: Draft)
    requires d in DraftsFor(rule, edges, index, edge)
    ensures Lone(rule, edges, index, edge) && Candidate(rule, index, edge)
    ensures d.rule == rule && d.source == edge.source && d.target == edge.target
    ensures d.port.Some? <==> rule == InternalNetworkPort
  {
    if rule == InternalNetworkPort {
      var port := PortDraftOrigin(edge, Filter(edges, LonePortOf(edges, index, edge.source)), d);
    }
  }

  // ---------------------------------------------------------------- subjects and targets

  /** Every finding's subject and target name a node that occurs exactly once. */
  lemma FindingsNameUniqueNodes(nodes: seq<RuntimeNode>, edges: seq<RuntimeEdge>, index: NodeIndex,
                                digest: string -> HexDigest, f: Finding)
    requires IsIndex(index, nodes) && f in FindingsOf(edges, index, digest)
    ensures |Filter(nodes, WithId(f.subjectRef))| == 1 && |Filter(nodes, WithId(f.targetRef))| == 1
    ensures |f.evidenceRefs| >= 1
  {
    var drafts := AllDrafts(RULES, edges, index);
    SortMembers(Rendered(drafts, digest), FindingLe);
    var i :| 0 <= i < |drafts| && Rendered(drafts, digest)[i] == f;
    var rule, edge := DraftOrigin(RULES, edges, index, drafts[i]);
    IndexedIdentity(index, nodes);
    DraftIsGrounded(rule, edges, index, edge, drafts[i]);
    assert IndexedAt(index, nodes, f.subjectRef) && IndexedAt(index, nodes, f.targetRef);
  }

  lemma DraftIsGrounded(rule: Rule, edges: seq<RuntimeEdge>, index: NodeIndex, edge: RuntimeEdge, d: Draft)
    requires d in DraftsFor(rule, edges, index, edge)
    requires forall id :: id in index ==> index[id].id == id
    ensures d.source in index && d.target in index && |d.evidenceRefs| >= 1
  {
    DraftIsAboutEdge(rule, edges, index, edge, d);
    CandidateIsCounted(rule, index, edge);
    if rule == InternalNetworkPort {
      var port := PortDraftOrigin(edge, Filter(edges, LonePortOf(edges, index, edge.source)), d);
    }
  }

  /** The rules that conclude from one relationship alone. */
  predicate SingleEdge(rule: Rule) {
    !rule.DaemonStatePublishesPort? && !rule.MutualDependency? && !rule.InternalNetworkPort?
  }

  ghost predicate Concludes(edges: seq<RuntimeEdge>, index: NodeIndex, rule: Rule, source: string, target: string) {
    exists d :: d in AllDrafts(RULES, edges, index) && d.rule == rule && d.source == source && d.target == target
  }

  ghost predicate LoneCandidate(edges: seq<RuntimeEdge>, index: NodeIndex, rule: Rule, source: string, target: string) {
    exists edge ::
      && edge in edges && edge.source == source && edge.target == target
      && Lone(rule, edges, index, edge) && Candidate(rule, index, edge)
  }

  /** A single-edge rule concludes about two ends exactly when the one relationship it counts there is a candidate. */
  lemma SingleEdgeRuleActsExactly(edges: seq<RuntimeEdge>, index: NodeIndex, rule: Rule, source: string, target: string)
    requires SingleEdge(rule) && rule in RULES
    ensures Concludes(edges, index, rule, source, target) <==> LoneCandidate(edges, index, rule, source, target)
  {
    if Concludes(edges, index, rule, source, target) {
      var d :| d in AllDrafts(RULES, edges, index) && d.rule == rule && d.source == source && d.target == target;
      var drafter, edge := DraftOrigin(RULES, edges, index, d);
      DraftIsAboutEdge(drafter, edges, index, edge, d);
      assert edge in edges && edge.source == source && edge.target == target;
    }
    if LoneCandidate(edges, index, rule, source, target) {
      var edge :| edge in edges && edge.source == source && edge.target == target
                  && Lone(rule, edges, index, edge) && Candidate(rule, index, edge);
      var d := PairDraft(rule, edge, None);
      assert d in DraftsFor(rule, edges, index, edge);
      DraftMember(RULES, edges, index, d, rule, edge);
    }
  }

  // ---------------------------------------------------------------- the rules about two relationships

  lemma Concluded(edges: seq<RuntimeEdge>, index: NodeIndex, rule: Rule, source: string, target: string)
    returns (d: Draft, edge: RuntimeEdge)
    requires Concludes(edges, index, rule, source, target)
    ensures d.rule == rule && d in DraftsFor(rule, edges, index, edge)
    ensures edge in edges && edge.source == source && edge.target == target
    ensures Lone(rule, edges, index, edge) && Candidate(rule, index, edge)
  {
    d :| d in AllDrafts(RULES, edges, index) && d.rule == rule && d.source == source && d.target == target;
    var drafter;
    drafter, edge := DraftOrigin(RULES, edges, index, d);
    DraftIsAboutEdge(drafter, edges, index, edge, d);
  }

  /** Exactly one dependency each way, both of them Compose candidates, from one observation. */
  ghost predicate MutualPair(edges: seq<RuntimeEdge>, index: NodeIndex, a: string, b: string) {
    && |Filter(edges, DependencyBetween(a, b))| == 1 && |Filter(edges, DependencyBetween(b, a))| == 1
    && exists there, back ::
         && there in edges && there.source == a && there.target == b && ComposeDependencyCandidate(index, there)
         && back in edges && back.source == b && back.target == a && ComposeDependencyCandidate(index, back)
         && SameObservation(there, back)
  }

  /** A mutual dependency is reported exactly for a mutual pair, and only with the smaller identity as its subject. */
  lemma MutualDependencyActsExactly(edges: seq<RuntimeEdge>, index: NodeIndex, a: string, b: string)
    ensures Concludes(edges, index, MutualDependency, a, b) <==> Before(a, b) && MutualPair(edges, index, a, b)
  {
    if Concludes(edges, index, MutualDependency, a, b) {
      var d, there := Concluded(edges, index, MutualDependency, a, b);
      DependencyRivals(MutualDependency, edges, index, there);
      var back := Filter(edges, CandidateBetween(index, b, a))[0];
      FilterMembers(edges, CandidateBetween(index, b, a));
      assert back in Filter(edges, CandidateBetween(index, b, a));
    }
    if Before(a, b) && MutualPair(edges, index, a, b) {
      var there, back :|
        && there in edges && there.source == a && there.target == b && ComposeDependencyCandidate(index, there)
        && back in edges && back.source == b && back.target == a && ComposeDependencyCandidate(index, back)
        && SameObservation(there, back);
      MutualPairConcludes(edges, index, there, back);
    }
  }

  lemma MutualPartner(edges: seq<RuntimeEdge>, index: NodeIndex, there: RuntimeEdge, back: RuntimeEdge)
    requires back in edges && ComposeDependencyCandidate(index, back)
    requires back.source == there.target && back.target == there.source
    requires |Filter(edges, DependencyBetween(there.target, there.source))| == 1
    ensures Partner(MutualDependency, edges, index, there) == Some(back)
  {
    OneDependencyOneCandidate(edges, index, back);
  }

  /** What a lone candidate with its partner leads to. */
  lemma PartneredDraft(rule: Rule, edges: seq<RuntimeEdge>, index: NodeIndex, edge: RuntimeEdge, partner: RuntimeEdge)
    requires rule.DaemonStatePublishesPort? || (rule.MutualDependency? && Before(edge.source, edge.target))
    requires Lone(rule, edges, index, edge) && Candidate(rule, index, edge)
    requires Partner(rule, edges, index, edge) == Some(partner) && SameObservation(edge, partner)
    ensures DraftsFor(rule, edges, index, edge) == [PairDraft(rule, edge, Some(partner))]
  {
  }

  lemma MutualPairConcludes(edges: seq<RuntimeEdge>, index: NodeIndex, there: RuntimeEdge, back: RuntimeEdge)
    requires there in edges && ComposeDependencyCandidate(index, there)
    requires back in edges && ComposeDependencyCandidate(index, back)
    requires back.source == there.target && back.target == there.source && Before(there.source, there.target)
    requires |Filter(edges, DependencyBetween(there.source, there.target))| == 1
    requires |Filter(edges, DependencyBetween(there.target, there.source))| == 1
    requires SameObservation(there, back)
    ensures Concludes(edges, index, MutualDependency, there.source, there.target)
  {
    DependencyRivals(MutualDependency, edges, index, there);
    MutualPartner(edges, index, there, back);
    PartneredDraft(MutualDependency, edges, index, there, back);
    DraftConcludes(edges, index, MutualDependency, there, PairDraft(MutualDependency, there, Some(back)));
  }

  lemma DraftConcludes(edges: seq<RuntimeEdge>, index: NodeIndex, rule: Rule, edge: RuntimeEdge, d: Draft)
    requires rule in RULES && edge in edges && d in DraftsFor(rule, edges, index, edge)
    ensures d in AllDrafts(RULES, edges, index)
    ensures Concludes(edges, index, rule, edge.source, edge.target)
  {
    DraftIsAboutEdge(rule, edges, index, edge, d);
    DraftMember(RULES, edges, index, d, rule, edge);
  }

  function DaemonStateOf(index: NodeIndex, source: string): RuntimeEdge -> bool {
    (other: RuntimeEdge) => DaemonStatePairShape(index, other) && other.source == source
  }

  /** One daemon-state and one port relationship of the container, both candidates, from one observation. */
  ghost predicate ExposedDaemonState(edges: seq<RuntimeEdge>, index: NodeIndex, source: string, target: string) {
    && |Filter(edges, DaemonStateOf(index, source))| == 1 && |Filter(edges, PortOf(index, source))| == 1
    && exists state, port ::
         && state in edges && state.source == source && state.target == target && DaemonStateCandidate(index, state)
         && port in edges && port.source == source && BarePortCandidate(index, port)
         && SameObservation(state, port)
  }

  /** Daemon-state access with a published port is reported exactly for such a pair. */
  lemma DaemonStatePublishesPortActsExactly(edges: seq<RuntimeEdge>, index: NodeIndex, source: string, target: string)
    ensures Concludes(edges, index, DaemonStatePublishesPort, source, target)
            <==> ExposedDaemonState(edges, index, source, target)
  {
    if Concludes(edges, index, DaemonStatePublishesPort, source, target) {
      var d, state := Concluded(edges, index, DaemonStatePublishesPort, source, target);
      LoneDaemonState(edges, index, state);
      var port := Filter(edges, BarePortOf(index, source))[0];
      FilterMembers(edges, BarePortOf(index, source));
      assert port in Filter(edges, BarePortOf(index, source));
    }
    if ExposedDaemonState(edges, index, source, target) {
      var state, port :|
        && state in edges && state.source == source && state.target == target && DaemonStateCandidate(index, state)
        && port in edges && port.source == source && BarePortCandidate(index, port)
        && SameObservation(state, port);
      ExposedConcludes(edges, index, state, port);
    }
  }

  lemma LoneDaemonState(edges: seq<RuntimeEdge>, index: NodeIndex, state: RuntimeEdge)
    ensures Lone(DaemonStatePublishesPort, edges, index, state) <==> |Filter(edges, DaemonStateOf(index, state.source))| == 1
  {
    SamePointwise(edges, Rival(DaemonStatePublishesPort, index, state), DaemonStateOf(index, state.source));
  }

  lemma PortPartner(edges: seq<RuntimeEdge>, index: NodeIndex, state: RuntimeEdge, port: RuntimeEdge)
    requires port in edges && port.source == state.source && BarePortCandidate(index, port)
    requires |Filter(edges, PortOf(index, state.source))| == 1
    ensures Partner(DaemonStatePublishesPort, edges, index, state) == Some(port)
  {
    FewerFiltered(edges, BarePortOf(index, state.source), PortOf(index, state.source));
    SoleFiltered(edges, BarePortOf(index, state.source), port);
  }

  lemma ExposedConcludes(edges: seq<RuntimeEdge>, index: NodeIndex, state: RuntimeEdge, port: RuntimeEdge)
    requires state in edges && DaemonStateCandidate(index, state)
    requires port in edges && port.source == state.source && BarePortCandidate(index, port)
    requires |Filter(edges, DaemonStateOf(index, state.source))| == 1 && |Filter(edges, PortOf(index, state.source))| == 1
    requires SameObservation(state, port)
    ensures Concludes(edges, index, DaemonStatePublishesPort, state.source, state.target)
  {
    LoneDaemonState(edges, index, state);
    PortPartner(edges, index, state, port);
    PartneredDraft(DaemonStatePublishesPort, edges, index, state, port);
    DraftConcludes(edges, index, DaemonStatePublishesPort, state, PairDraft(DaemonStatePublishesPort, state, Some(port)));
  }

  ghost predicate ConcludesPort(edges: seq<RuntimeEdge>, index: NodeIndex, source: string, network: string, listener: string) {
    exists d :: d in AllDrafts(RULES, edges, index) && PortStatement(d, source, network, listener)
  }

  predicate PortStatement(d: Draft, source: string, network: string, listener: string) {
    d.rule == InternalNetworkPort && d.source == source && d.target == network && d.port == Some(listener)
  }

  function MembershipBetween(index: NodeIndex, source: string, network: string): RuntimeEdge -> bool {
    (other: RuntimeEdge) => MembershipShape(index, other) && other.source == source && other.target == network
  }

  /** One membership of the internal network and one port relationship to the listener, both candidates. */
  ghost predicate PublishingMember(edges: seq<RuntimeEdge>, index: NodeIndex, source: string, network: string,
                                   listener: string)
  {
    && |Filter(edges, MembershipBetween(index, source, network))| == 1
    && exists member, port ::
         && member in edges && member.source == source && member.target == network && MembershipCandidate(index, member)
         && port in edges && port.source == source && port.target == listener && PortCandidate(index, port)
         && |Filter(edges, SamePort(index, port))| == 1
  }

  /** A publishing member of an internal network is reported per listener, exactly for such a pair. */
  lemma InternalNetworkPortActsExactly(edges: seq<RuntimeEdge>, index: NodeIndex, source: string, network: string,
                                       listener: string)
    ensures ConcludesPort(edges, index, source, network, listener)
            <==> PublishingMember(edges, index, source, network, listener)
  {
    if ConcludesPort(edges, index, source, network, listener) {
      var d :| d in AllDrafts(RULES, edges, index) && PortStatement(d, source, network, listener);
      PortConclusionIsPublishing(edges, index, d, source, network, listener);
    }
    if PublishingMember(edges, index, source, network, listener) {
      var member, port :|
        && member in edges && member.source == source && member.target == network && MembershipCandidate(index, member)
        && port in edges && port.source == source && port.target == listener && PortCandidate(index, port)
        && |Filter(edges, SamePort(index, port))| == 1;
      PublishingConcludes(edges, index, member, port);
    }
  }

  lemma PortConclusionIsPublishing(edges: seq<RuntimeEdge>, index: NodeIndex, d: Draft, source: string, network: string,
                                   listener: string)
    requires d in AllDrafts(RULES, edges, index) && PortStatement(d, source, network, listener)
    ensures PublishingMember(edges, index, source, network, listener)
  {
    var rule, member := DraftOrigin(RULES, edges, index, d);
    DraftIsAboutEdge(rule, edges, index, member, d);
    LoneMembership(edges, index, member);
    var ports := Filter(edges, LonePortOf(edges, index, source));
    var port := PortDraftOrigin(member, ports, d);
    FilterMembers(edges, LonePortOf(edges, index, source));
    assert port in edges && port.source == source && port.target == listener && PortCandidate(index, port);
  }

  lemma PublishingConcludes(edges: seq<RuntimeEdge>, index: NodeIndex, member: RuntimeEdge, port: RuntimeEdge)
    requires member in edges && MembershipCandidate(index, member)
    requires |Filter(edges, MembershipBetween(index, member.source, member.target))| == 1
    requires port in edges && port.source == member.source && PortCandidate(index, port)
    requires |Filter(edges, SamePort(index, port))| == 1
    ensures ConcludesPort(edges, index, member.source, member.target, port.target)
  {
    var d := PortDraft(member, port);
    PublishingDrafts(edges, index, member, port);
    DraftConcludes(edges, index, InternalNetworkPort, member, d);
    assert PortStatement(d, member.source, member.target, port.target);
  }

  lemma LoneMembership(edges: seq<RuntimeEdge>, index: NodeIndex, member: RuntimeEdge)
    ensures Lone(InternalNetworkPort, edges, index, member)
            <==> |Filter(edges, MembershipBetween(index, member.source, member.target))| == 1
  {
    SamePointwise(edges, Rival(InternalNetworkPort, index, member), MembershipBetween(index, member.source, member.target));
  }

  lemma MembershipDrafts(edges: seq<RuntimeEdge>, index: NodeIndex, member: RuntimeEdge)
    requires Lone(InternalNetworkPort, edges, index, member) && Candidate(InternalNetworkPort, index, member)
    ensures DraftsFor(InternalNetworkPort, edges, index, member)
            == PortDrafts(member, Filter(edges, LonePortOf(edges, index, member.source)))
  {
  }

  lemma PublishingDrafts(edges: seq<RuntimeEdge>, index: NodeIndex, member: RuntimeEdge, port: RuntimeEdge)
    requires member in edges && MembershipCandidate(index, member)
    requires |Filter(edges, MembershipBetween(index, member.source, member.target))| == 1
    requires port in edges && port.source == member.source && PortCandidate(index, port)
    requires |Filter(edges, SamePort(index, port))| == 1
    ensures PortDraft(member, port) in DraftsFor(InternalNetworkPort, edges, index, member)
  {
    LoneMembership(edges, index, member);
    MembershipDrafts(edges, index, member);
    LonePortListed(edges, index, port);
    PortDraftMember(member, Filter(edges, LonePortOf(edges, index, member.source)), port);
  }

  lemma LonePortListed(edges: seq<RuntimeEdge>, index: NodeIndex, port: RuntimeEdge)
    requires port in edges && PortCandidate(index, port) && |Filter(edges, SamePort(index, port))| == 1
    ensures port in Filter(edges, LonePortOf(edges, index, port.source))
  {
    FilterMembers(edges, LonePortOf(edges, index, port.source));
  }

  // ---------------------------------------------------------------- no two drafts say the same

  predicate SameStatement(a: Draft, b: Draft) {
    a.rule == b.rule && a.source == b.source && a.target == b.target && a.port == b.port
  }

  ghost predicate Apart(drafts: seq<Draft>) {
    forall i, j :: 0 <= i < j < |drafts| ==> !SameStatement(drafts[i], drafts[j])
  }

  lemma ApartConcat(a: seq<Draft>, b: seq<Draft>)
    requires Apart(a) && Apart(b)
    requires forall x, y :: x in a && y in b ==> !SameStatement(x, y)
    ensures Apart(a + b)
  {
    forall i, j | 0 <= i < j < |a + b| ensures !SameStatement((a + b)[i], (a + b)[j]) {
      if i < |a| <= j {
        assert a[i] in a && b[j - |a|] in b;
      }
    }
  }

  /** Two relationships with one key cannot both be alone. */
  lemma LoneIsAlone(rule: Rule, edges: seq<RuntimeEdge>, index: NodeIndex, i: nat, j: nat)
    requires i < j < |edges| && SameKey(rule, edges[i], edges[j])
    requires Counted(rule, index, edges[i]) && Counted(rule, index, edges[j])
    ensures !Lone(rule, edges, index, edges[j])
  {
    TwoFiltered(edges, Rival(rule, index, edges[j]), i, j);
  }

  lemma {:induction false} PortDraftsApart(edges: seq<RuntimeEdge>, index: NodeIndex, edge: RuntimeEdge,
                                           ports: seq<RuntimeEdge>)
    requires forall i, j :: 0 <= i < j < |ports| ==> ports[i].target != ports[j].target
    ensures Apart(PortDrafts(edge, ports))
  {
    if ports != [] {
      var n := |ports| - 1;
      PortDraftsApart(edges, index, edge, ports[..n]);
      forall x, y | x in PortDrafts(edge, ports[..n]) && y in [PortDraft(edge, ports[n])] ensures !SameStatement(x, y) {
        var port := PortDraftOrigin(edge, ports[..n], x);
        var k :| 0 <= k < n && ports[..n][k] == port;
        assert ports[k].target != ports[n].target;
      }
      ApartConcat(PortDrafts(edge, ports[..n]), [PortDraft(edge, ports[n])]);
    }
  }

  lemma LonePortsDiffer(edges: seq<RuntimeEdge>, index: NodeIndex, source: string, i: nat, j: nat)
    requires i < j < |Filter(edges, LonePortOf(edges, index, source))|
    ensures var ports := Filter(edges, LonePortOf(edges, index, source)); ports[i].target != ports[j].target
  {
    var ports := Filter(edges, LonePortOf(edges, index, source));
    FilterMembers(edges, LonePortOf(edges, index, source));
    assert ports[i] in ports && ports[j] in ports;
    if ports[i].target == ports[j].target {
      TwoFiltered(ports, SamePort(index, ports[j]), i, j);
      FilterTwice(edges, LonePortOf(edges, index, source), SamePort(index, ports[j]));
      assert false;
    }
  }

  lemma DraftsForApart(rule: Rule, edges: seq<RuntimeEdge>, index: NodeIndex, edge: RuntimeEdge)
    ensures Apart(DraftsFor(rule, edges, index, edge))
  {
    if rule == InternalNetworkPort && Lone(rule, edges, index, edge) && Candidate(rule, index, edge) {
      var ports := Filter(edges, LonePortOf(edges, index, edge.source));
      forall i, j | 0 <= i < j < |ports| ensures ports[i].target != ports[j].target {
        LonePortsDiffer(edges, index, edge.source, i, j);
      }
      PortDraftsApart(edges, index, edge, ports);
    }
  }

  lemma StatementsDiffer(rule: Rule, edges: seq<RuntimeEdge>, index: NodeIndex, i: nat, j: nat, x: Draft, y: Draft)
    requires i < j < |edges|
    requires x in DraftsFor(rule, edges, index, edges[i]) && y in DraftsFor(rule, edges, index, edges[j])
    requires forall id :: id in index ==> index[id].id == id
    ensures !SameStatement(x, y)
  {
    DraftIsAboutEdge(rule, edges, index, edges[i], x);
    DraftIsAboutEdge(rule, edges, index, edges[j], y);
    CandidateIsCounted(rule, index, edges[i]);
    CandidateIsCounted(rule, index, edges[j]);
    if SameStatement(x, y) {
      LoneIsAlone(rule, edges, index, i, j);
      assert false;
    }
  }

  lemma EarlierDiffers(rule: Rule, edges: seq<RuntimeEdge>, index: NodeIndex, k: nat, x: Draft, y: Draft)
    requires k < |edges|
    requires x in RuleDrafts(rule, edges, index, edges[..k]) && y in DraftsFor(rule, edges, index, edges[k])
    requires forall id :: id in index ==> index[id].id == id
    ensures !SameStatement(x, y)
  {
    var other := RuleDraftOrigin(rule, edges, index, edges[..k], x);
    var i :| 0 <= i < k && edges[i] == other;
    StatementsDiffer(rule, edges, index, i, k, x, y);
  }

  /** The drafts of one more relationship are apart from those before it. */
  lemma DraftsStayApart(rule: Rule, edges: seq<RuntimeEdge>, index: NodeIndex, k: nat, before: seq<Draft>, now: seq<Draft>)
    requires k < |edges| && before == RuleDrafts(rule, edges, index, edges[..k])
    requires now == DraftsFor(rule, edges, index, edges[k]) && Apart(before)
    requires forall id :: id in index ==> index[id].id == id
    ensures Apart(before + now)
  {
    DraftsForApart(rule, edges, index, edges[k]);
    forall x, y | x in before && y in now ensures !SameStatement(x, y) {
      EarlierDiffers(rule, edges, index, k, x, y);
    }
    ApartConcat(before, now);
  }

  lemma RuleDraftsStep(rule: Rule, edges: seq<RuntimeEdge>, index: NodeIndex, k: nat, before: seq<Draft>, now: seq<Draft>,
                       after: seq<Draft>)
    requires k < |edges| && before == RuleDrafts(rule, edges, index, edges[..k])
    requires now == DraftsFor(rule, edges, index, edges[k]) && after == RuleDrafts(rule, edges, index, edges[..k + 1])
    ensures after == before + now
  {
    FlatMapStep(edges, k, DraftsUnder(rule, edges, index));
  }

  lemma NoDrafts(rule: Rule, edges: seq<RuntimeEdge>, index: NodeIndex)
    ensures RuleDrafts(rule, edges, index, edges[..0]) == []
  {
  }

  lemma {:induction false} RuleDraftsApart(rule: Rule, edges: seq<RuntimeEdge>, index: NodeIndex, k: nat, drafts: seq<Draft>)
    requires k <= |edges| && drafts == RuleDrafts(rule, edges, index, edges[..k])
    requires forall id :: id in index ==> index[id].id == id
    ensures Apart(drafts)
  {
    if k == 0 {
      NoDrafts(rule, edges, index);
    } else {
      var before, now := RuleDrafts(rule, edges, index, edges[..k - 1]), DraftsFor(rule, edges, index, edges[k - 1]);
      RuleDraftsApart(rule, edges, index, k - 1, before);
      RuleDraftsStep(rule, edges, index, k - 1, before, now, drafts);
      DraftsStayApart(rule, edges, index, k - 1, before, now);
    }
  }

  lemma {:induction false} AllDraftsApart(rules: seq<Rule>, edges: seq<RuntimeEdge>, index: NodeIndex)
    requires forall i, j :: 0 <= i < j < |rules| ==> rules[i] != rules[j]
    requires forall id :: id in index ==> index[id].id == id
    ensures Apart(AllDrafts(rules, edges, index))
  {
    if rules != [] {
      var n := |rules| - 1;
      AllDraftsApart(rules[..n], edges, index);
      var before, now := AllDrafts(rules[..n], edges, index), RuleDrafts(rules[n], edges, index, edges);
      assert edges[..|edges|] == edges;
      RuleDraftsApart(rules[n], edges, index, |edges|, now);
      forall x, y | x in before && y in now ensures !SameStatement(x, y) {
        var rule, edge := DraftOrigin(rules[..n], edges, index, x);
        DraftIsAboutEdge(rule, edges, index, edge, x);
        var other := RuleDraftOrigin(rules[n], edges, index, edges, y);
        DraftIsAboutEdge(rules[n], edges, index, other, y);
        var i :| 0 <= i < n && rules[..n][i] == rule;
      }
      ApartConcat(before, now);
    }
  }

  // ---------------------------------------------------------------- distinct identifiers

  predicate FreeOf(s: string, c: char) {
    c !in s
  }

  const UNIT_SEPARATOR: char := '\U{1f}'

  /** No relationship's ends contain the separator identifiers are seeded with. */
  predicate SeparatorFree(edges: seq<RuntimeEdge>) {
    forall i :: 0 <= i < |edges| ==> FreeOf(edges[i].source, UNIT_SEPARATOR) && FreeOf(edges[i].target, UNIT_SEPARATOR)
  }

  ghost function Seeds(drafts: seq<Draft>): set<string> {
    set i | 0 <= i < |drafts| :: Seed(drafts[i])
  }

  predicate DraftFree(d: Draft) {
    && FreeOf(d.source, UNIT_SEPARATOR) && FreeOf(d.target, UNIT_SEPARATOR)
    && (d.port.Some? ==> FreeOf(d.port.value, UNIT_SEPARATOR))
  }

  lemma CutAtSeparator(a: string, b: string, x: string, y: string)
    requires FreeOf(a, UNIT_SEPARATOR) && FreeOf(b, UNIT_SEPARATOR)
    requires a + US + x == b + US + y
    ensures a == b && x == y
  {
    Decimal.SplitOnceJoined(a, UNIT_SEPARATOR, x);
    Decimal.SplitOnceJoined(b, UNIT_SEPARATOR, y);
    assert US == [UNIT_SEPARATOR];
  }

  /** A seed tells apart what it was made from. */
  lemma SeedIsInjective(a: Draft, b: Draft)
    requires DraftFree(a) && DraftFree(b) && Seed(a) == Seed(b)
    requires a.port.Some? <==> b.port.Some?
    ensures a.source == b.source && a.target == b.target && a.port == b.port
  {
    var x := a.target + (match a.port { case None => "" case Some(port) => US + port });
    var y := b.target + (match b.port { case None => "" case Some(port) => US + port });
    assert Seed(a) == a.source + US + x && Seed(b) == b.source + US + y;
    CutAtSeparator(a.source, b.source, x, y);
    if a.port.Some? {
      assert x == a.target + US + a.port.value && y == b.target + US + b.port.value;
      CutAtSeparator(a.target, b.target, a.port.value, b.port.value);
    } else {
      assert x == a.target && y == b.target;
    }
  }

  lemma PrefixLengths()
    ensures |Prefix(EvidenceNotCurrent)| == 59 && |Prefix(UnspecifiedAddressPort)| == 53
    ensures |Prefix(RequiresTargetNotActive)| == 43 && |Prefix(PartOfTargetNotActive)| == 42
    ensures |Prefix(IdentityCollision)| == 43 && |Prefix(MutualDependency)| == 41
  {
  }

  lemma MorePrefixLengths()
    ensures |Prefix(DependencyNotActive)| == 50
    ensures |Prefix(DaemonStateBindMount)| == 39 && |Prefix(MountMissingAtContainer)| == 58
    ensures |Prefix(DaemonStatePublishesPort)| == 54 && |Prefix(InternalNetworkPort)| == 54
  {
  }

  lemma PrefixIsInjective(a: Rule, b: Rule)
    requires !a.IdentityCollision? && !b.IdentityCollision? && Prefix(a) == Prefix(b)
    ensures a == b
  {
    PrefixLengths();
    MorePrefixLengths();
    assert Prefix(DaemonStatePublishesPort)[15] != Prefix(InternalNetworkPort)[15];
  }

  /** Equal identifiers come from equal statements, when the seeds in play do not collide. */
  lemma EqualIdsEqualStatements(a: Draft, b: Draft, digest: string -> HexDigest)
    requires DraftFree(a) && DraftFree(b)
    requires a.port.Some? <==> a.rule == InternalNetworkPort
    requires b.port.Some? <==> b.rule == InternalNetworkPort
    requires digest(Seed(a)) == digest(Seed(b)) ==> Seed(a) == Seed(b)
    requires a.rule.IdentityCollision? ==> a.source == ReservedId(IntegrityScopeId) && a.target == ReservedId(CollisionRiskId)
    requires b.rule.IdentityCollision? ==> b.source == ReservedId(IntegrityScopeId) && b.target == ReservedId(CollisionRiskId)
    requires FindingId(a, digest) == FindingId(b, digest)
    ensures SameStatement(a, b)
  {
    PrefixLengths();
    MorePrefixLengths();
    if !a.rule.IdentityCollision? && !b.rule.IdentityCollision? {
      ComponentDigest(digest, Prefix(a.rule), Seed(a), Prefix(b.rule), Seed(b));
      var tail := Component(digest, Seed(a));
      assert (Prefix(a.rule) + tail)[..|Prefix(a.rule)|] == Prefix(a.rule);
      assert (Prefix(b.rule) + tail)[..|Prefix(b.rule)|] == Prefix(b.rule);
      PrefixIsInjective(a.rule, b.rule);
      SeedIsInjective(a, b);
    }
  }

  /** What the identifier lemma needs of every draft. */
  lemma DraftIsRegular(edges: seq<RuntimeEdge>, index: NodeIndex, d: Draft)
    requires SeparatorFree(edges) && d in AllDrafts(RULES, edges, index)
    requires forall id :: id in index ==> index[id].id == id
    ensures DraftFree(d) && (d.port.Some? <==> d.rule == InternalNetworkPort)
    ensures d.rule.IdentityCollision? ==> d.source == ReservedId(IntegrityScopeId) && d.target == ReservedId(CollisionRiskId)
  {
    var rule, edge := DraftOrigin(RULES, edges, index, d);
    DraftIsAboutEdge(rule, edges, index, edge, d);
    CandidateIsCounted(rule, index, edge);
    if rule == InternalNetworkPort {
      var ports := Filter(edges, LonePortOf(edges, index, edge.source));
      var port := PortDraftOrigin(edge, ports, d);
      FilterMembers(edges, LonePortOf(edges, index, edge.source));
    }
  }

  lemma RulesDiffer()
    ensures forall i, j :: 0 <= i < j < |RULES| ==> RULES[i] != RULES[j]
  {
  }

  lemma RenderedIdsDiffer(edges: seq<RuntimeEdge>, index: NodeIndex, digest: string -> HexDigest)
    requires SeparatorFree(edges) && CollisionFree(digest, Seeds(AllDrafts(RULES, edges, index)))
    requires forall id :: id in index ==> index[id].id == id
    ensures IdsDiffer(Rendered(AllDrafts(RULES, edges, index), digest))
  {
    var drafts := AllDrafts(RULES, edges, index);
    RulesDiffer();
    AllDraftsApart(RULES, edges, index);
    forall i, j | 0 <= i < j < |drafts| ensures FindingId(drafts[i], digest) != FindingId(drafts[j], digest) {
      DraftIsRegular(edges, index, drafts[i]);
      DraftIsRegular(edges, index, drafts[j]);
      assert Seed(drafts[i]) in Seeds(drafts) && Seed(drafts[j]) in Seeds(drafts);
      if FindingId(drafts[i], digest) == FindingId(drafts[j], digest) {
        EqualIdsEqualStatements(drafts[i], drafts[j], digest);
        assert false;
      }
    }
  }

  // ---------------------------------------------------------------- arrival order

  lemma FindingLeTotalPreorder()
    ensures TotalPreorder(FindingLe)
  {
    forall a: Finding, b: Finding ensures TotalAt(FindingLe, a, b) {
      LexTotal(a.id, b.id);
      LexTotal(a.subjectRef, b.subjectRef);
      LexTotal(a.targetRef, b.targetRef);
    }
    forall a: Finding, b: Finding, c: Finding ensures TransitiveAt(FindingLe, a, b, c) {
      if FindingLe(a, b) && FindingLe(b, c) {
        FindingLeTransitive(a, b, c);
      }
    }
  }

  lemma FindingLeTransitive(a: Finding, b: Finding, c: Finding)
    requires FindingLe(a, b) && FindingLe(b, c)
    ensures FindingLe(a, c)
  {
    if a.id != b.id || b.id != c.id {
      LexBetween(a.id, b.id, c.id);
    } else if a.subjectRef != b.subjectRef || b.subjectRef != c.subjectRef {
      LexBetween(a.subjectRef, b.subjectRef, c.subjectRef);
    } else {
      LexTransitive(a.targetRef, b.targetRef, c.targetRef);
    }
  }

  /** Two steps of a byte order, at least one of them strict, make a strict step. */
  lemma LexBetween(a: string, b: string, c: string)
    requires (a == b || LexLe(a, b)) && (b == c || LexLe(b, c)) && (a != b || b != c)
    ensures a != c && LexLe(a, c)
  {
    LexTotal(a, a);
    LexTotal(c, c);
    LexTransitive(a, b, c);
    if a == c {
      LexAntisymmetric(a, b);
      assert false;
    }
  }

  /** Every count a rule makes is the same for a rearrangement of the relationships. */
  lemma LoneIsCanonical(rule: Rule, a: seq<RuntimeEdge>, b: seq<RuntimeEdge>, index: NodeIndex, edge: RuntimeEdge)
    requires multiset(a) == multiset(b)
    ensures Lone(rule, a, index, edge) == Lone(rule, b, index, edge)
  {
    FilterRearranged(a, b, Rival(rule, index, edge));
  }

  /** The port relationships of a container that has only one. */
  lemma BarePortIsCanonical(a: seq<RuntimeEdge>, b: seq<RuntimeEdge>, index: NodeIndex, edge: RuntimeEdge)
    requires multiset(a) == multiset(b)
    ensures Partner(DaemonStatePublishesPort, a, index, edge) == Partner(DaemonStatePublishesPort, b, index, edge)
  {
    FilterRearranged(a, b, PortOf(index, edge.source));
    FilterRearranged(a, b, BarePortOf(index, edge.source));
    FewerFiltered(a, BarePortOf(index, edge.source), PortOf(index, edge.source));
  }

  lemma PartnerIsCanonical(rule: Rule, a: seq<RuntimeEdge>, b: seq<RuntimeEdge>, index: NodeIndex, edge: RuntimeEdge)
    requires multiset(a) == multiset(b)
    ensures Partner(rule, a, index, edge) == Partner(rule, b, index, edge)
  {
    if rule == DaemonStatePublishesPort {
      BarePortIsCanonical(a, b, index, edge);
    } else if rule == MutualDependency {
      FilterRearranged(a, b, CandidateBetween(index, edge.target, edge.source));
      FilterRearranged(a, b, DependencyBetween(edge.target, edge.source));
    }
  }

  lemma LonePortsAreCanonical(a: seq<RuntimeEdge>, b: seq<RuntimeEdge>, index: NodeIndex, source: string, port: RuntimeEdge)
    requires multiset(a) == multiset(b)
    requires port in Filter(a, LonePortOf(a, index, source))
    ensures port in Filter(b, LonePortOf(b, index, source))
  {
    FilterMembers(a, LonePortOf(a, index, source));
    FilterMembers(b, LonePortOf(b, index, source));
    FilterRearranged(a, b, SamePort(index, port));
    assert port in multiset(a);
  }

  /** One relationship leads to the same drafts in any arrangement of all of them. */
  lemma DraftsAreCanonical(rule: Rule, a: seq<RuntimeEdge>, b: seq<RuntimeEdge>, index: NodeIndex, edge: RuntimeEdge,
                           d: Draft)
    requires multiset(a) == multiset(b) && d in DraftsFor(rule, a, index, edge)
    ensures d in DraftsFor(rule, b, index, edge)
  {
    LoneIsCanonical(rule, a, b, index, edge);
    PartnerIsCanonical(rule, a, b, index, edge);
    if rule == InternalNetworkPort {
      var port := PortDraftOrigin(edge, Filter(a, LonePortOf(a, index, edge.source)), d);
      LonePortsAreCanonical(a, b, index, edge.source, port);
      PortDraftMember(edge, Filter(b, LonePortOf(b, index, edge.source)), port);
    }
  }

  lemma SameDrafts(a: seq<RuntimeEdge>, b: seq<RuntimeEdge>, index: NodeIndex, d: Draft)
    requires multiset(a) == multiset(b) && d in AllDrafts(RULES, a, index)
    ensures d in AllDrafts(RULES, b, index)
  {
    var rule, edge := DraftOrigin(RULES, a, index, d);
    DraftsAreCanonical(rule, a, b, index, edge, d);
    assert edge in multiset(b);
    DraftMember(RULES, b, index, d, rule, edge);
  }

  lemma SameRendered(a: seq<Draft>, b: seq<Draft>, digest: string -> HexDigest, f: Finding)
    requires forall d :: d in a ==> d in b
    requires f in Rendered(a, digest)
    ensures f in Rendered(b, digest)
  {
    var i :| 0 <= i < |a| && Rendered(a, digest)[i] == f;
    assert a[i] in b;
    var j :| 0 <= j < |b| && b[j] == a[i];
    assert Rendered(b, digest)[j] == f;
  }

  /** Sorting keeps identifiers apart and leaves one strict arrangement. */
  lemma SortedFindings(findings: seq<Finding>)
    requires IdsDiffer(findings)
    ensures var sorted := Sort(findings, FindingLe);
            IdsDiffer(sorted) && StrictlySorted(sorted, FindingLe) && AntisymmetricOn(FindingLe, sorted)
  {
    var sorted := Sort(findings, FindingLe);
    FindingLeTotalPreorder();
    SortSorted(findings, FindingLe);
    SortMultiset(findings, FindingLe);
    IdsStayApart(findings, sorted);
    forall a, b | a in sorted && b in sorted ensures AntisymmetricAt(FindingLe, a, b) {
      if FindingLe(a, b) && FindingLe(b, a) {
        if a.id != b.id {
          LexAntisymmetric(a.id, b.id);
        } else {
          var i :| 0 <= i < |sorted| && sorted[i] == a;
          var j :| 0 <= j < |sorted| && sorted[j] == b;
        }
      }
    }
  }

  /** The findings of one map have pairwise distinct identifiers, when the seeds in play do not collide. */
  lemma FindingIdsAreDistinct(nodes: seq<RuntimeNode>, edges: seq<RuntimeEdge>, index: NodeIndex,
                              digest: string -> HexDigest)
    requires IsIndex(index, nodes) && SeparatorFree(edges)
    requires CollisionFree(digest, Seeds(AllDrafts(RULES, edges, index)))
    ensures IdsDiffer(FindingsOf(edges, index, digest))
  {
    IndexedIdentity(index, nodes);
    RenderedIdsDiffer(edges, index, digest);
    SortedFindings(Rendered(AllDrafts(RULES, edges, index), digest));
  }

  /** The findings do not depend on the order in which nodes and relationships arrive. */
  lemma FindingsAreCanonical(nodes: seq<RuntimeNode>, others: seq<RuntimeNode>, edges: seq<RuntimeEdge>,
                             more: seq<RuntimeEdge>, index: NodeIndex, other: NodeIndex, digest: string -> HexDigest)
    requires multiset(nodes) == multiset(others) && multiset(edges) == multiset(more)
    requires IsIndex(index, nodes) && IsIndex(other, others) && SeparatorFree(edges)
    requires CollisionFree(digest, Seeds(AllDrafts(RULES, edges, index)))
    ensures FindingsOf(edges, index, digest) == FindingsOf(more, other, digest)
  {
    IndexIsCanonical(nodes, others, index, other);
    IndexedIdentity(index, nodes);
    RearrangedFree(edges, more);
    var x, y := AllDrafts(RULES, edges, index), AllDrafts(RULES, more, index);
    SameDraftSets(edges, more, index);
    SeedsAgree(x, y);
    RenderedIdsDiffer(edges, index, digest);
    RenderedIdsDiffer(more, index, digest);
    SameSorted(x, y, digest);
  }

  lemma SameDraftSets(a: seq<RuntimeEdge>, b: seq<RuntimeEdge>, index: NodeIndex)
    requires multiset(a) == multiset(b)
    ensures forall d :: d in AllDrafts(RULES, a, index) <==> d in AllDrafts(RULES, b, index)
  {
    forall d ensures d in AllDrafts(RULES, a, index) <==> d in AllDrafts(RULES, b, index) {
      if d in AllDrafts(RULES, a, index) {
        SameDrafts(a, b, index, d);
      }
      if d in AllDrafts(RULES, b, index) {
        SameDrafts(b, a, index, d);
      }
    }
  }

  lemma SeedsAgree(x: seq<Draft>, y: seq<Draft>)
    requires forall d :: d in x <==> d in y
    ensures Seeds(x) == Seeds(y)
  {
    forall i | 0 <= i < |x| ensures Seed(x[i]) in Seeds(y) {
      assert x[i] in y;
      var j :| 0 <= j < |y| && y[j] == x[i];
    }
    forall i | 0 <= i < |y| ensures Seed(y[i]) in Seeds(x) {
      assert y[i] in x;
      var j :| 0 <= j < |x| && x[j] == y[i];
    }
  }

  lemma SameSorted(x: seq<Draft>, y: seq<Draft>, digest: string -> HexDigest)
    requires forall d :: d in x <==> d in y
    requires IdsDiffer(Rendered(x, digest)) && IdsDiffer(Rendered(y, digest))
    ensures Sort(Rendered(x, digest), FindingLe) == Sort(Rendered(y, digest), FindingLe)
  {
    var a, b := Rendered(x, digest), Rendered(y, digest);
    FindingLeTotalPreorder();
    SortedFindings(a);
    SortedFindings(b);
    SortMembers(a, FindingLe);
    SortMembers(b, FindingLe);
    forall f ensures f in Sort(a, FindingLe) <==> f in Sort(b, FindingLe) {
      if f in a { SameRendered(x, y, digest, f); }
      if f in b { SameRendered(y, x, digest, f); }
    }
    StrictUnique(Sort(a, FindingLe), Sort(b, FindingLe), FindingLe);
  }

  lemma RearrangedFree(a: seq<RuntimeEdge>, b: seq<RuntimeEdge>)
    requires multiset(a) == multiset(b) && SeparatorFree(a)
    ensures SeparatorFree(b)
  {
    forall i | 0 <= i < |b| ensures FreeOf(b[i].source, UNIT_SEPARATOR) && FreeOf(b[i].target, UNIT_SEPARATOR) {
      assert b[i] in multiset(a);
      var j :| 0 <= j < |a| && a[j] == b[i];
    }
  }
}
