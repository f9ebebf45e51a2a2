/** Deriving the advisory findings: counting, acting on what is unambiguous, and sorting. */
module Findings {
  import opened Prelude
  import opened Sorting
  import opened RuntimeModel
  import opened Identity
  import opened Evidence
  import opened FindingRules

  // ---------------------------------------------------------------- the node index

  ghost predicate IsIndex(index: NodeIndex, nodes: seq<RuntimeNode>) {
    forall id :: IndexedAt(index, nodes, id)
  }

  /** A node is indexed when its identity occurs once, and only then. */
  ghost predicate IndexedAt(index: NodeIndex, nodes: seq<RuntimeNode>, id: string) {
    && (id in index <==> |Filter(nodes, WithId(id))| == 1)
    && (id in index ==> Filter(nodes, WithId(id)) == [index[id]])
  }

  ghost predicate CountedAt(counts: map<string, nat>, nodes: seq<RuntimeNode>, id: string) {
    |Filter(nodes, WithId(id))| == CountOf(counts, id)
  }

  lemma NamedGrows(nodes: seq<RuntimeNode>, k: nat, id: string)
    requires k < |nodes|
    ensures Filter(nodes[..k + 1], WithId(id))
            == Filter(nodes[..k], WithId(id)) + (if nodes[k].id == id then [nodes[k]] else [])
  {
    assert nodes[..k + 1] == nodes[..k] + [nodes[k]];
    FilterAppend(nodes[..k], nodes[k], WithId(id));
  }

  method CountIds(nodes: seq<RuntimeNode>) returns (counts: map<string, nat>)
    ensures forall id :: CountedAt(counts, nodes, id)
  {
    counts := map[];
    for k := 0 to |nodes|
      invariant forall id :: CountedAt(counts, nodes[..k], id)
    {
      var id := nodes[k].id;
      var next := counts[id := CountOf(counts, id) + 1];
      var upTo := nodes[..k + 1];
      forall other: string ensures CountedAt(next, upTo, other) {
        assert CountedAt(counts, nodes[..k], other);
        NamedGrows(nodes, k, other);
      }
      counts := next;
    }
    assert nodes[..|nodes|] == nodes;
  }

  ghost predicate SelectedAt(index: NodeIndex, nodes: seq<RuntimeNode>, id: string) {
    id in index ==> index[id] in nodes && index[id].id == id
  }

  method UniqueNodes(nodes: seq<RuntimeNode>) returns (index: NodeIndex)
    ensures IsIndex(index, nodes)
  {
    var counts := CountIds(nodes);
    index := map[];
    for k := 0 to |nodes|
      invariant forall id :: SelectedAt(index, nodes, id)
      invariant forall id :: id in index ==> id in counts && counts[id] == 1
      invariant forall i :: 0 <= i < k ==> nodes[i].id in index || nodes[i].id !in counts || counts[nodes[i].id] != 1
    {
      var id := nodes[k].id;
      if id in counts && counts[id] == 1 {
        var next := index[id := nodes[k]];
        forall other ensures SelectedAt(next, nodes, other) {
          assert SelectedAt(index, nodes, other);
        }
        index := next;
      }
    }
    forall id ensures IndexedAt(index, nodes, id) {
      assert CountedAt(counts, nodes, id) && SelectedAt(index, nodes, id);
      OnlyMember(nodes, id);
    }
  }

  lemma OnlyMember(nodes: seq<RuntimeNode>, id: string)
    ensures var named := Filter(nodes, WithId(id));
            && (forall node :: node in named <==> node in nodes && node.id == id)
            && (|named| == 1 ==> named == [named[0]] && named[0] in nodes && named[0].id == id)
  {
    FilterMembers(nodes, WithId(id));
    var named := Filter(nodes, WithId(id));
    if |named| == 1 {
      assert named[0] in named;
    }
  }

  /** A rearrangement of the nodes has the same index. */
  lemma IndexIsCanonical(a: seq<RuntimeNode>, b: seq<RuntimeNode>, x: NodeIndex, y: NodeIndex)
    requires multiset(a) == multiset(b) && IsIndex(x, a) && IsIndex(y, b)
    ensures x == y
  {
    forall id ensures (id in x <==> id in y) && (id in x && id in y ==> x[id] == y[id]) {
      assert IndexedAt(x, a, id) && IndexedAt(y, b, id);
      FilterRearranged(a, b, WithId(id));
    }
  }

  lemma IndexedIdentity(index: NodeIndex, nodes: seq<RuntimeNode>)
    requires IsIndex(index, nodes)
    ensures forall id :: id in index ==> index[id].id == id && index[id] in nodes
  {
    forall id | id in index ensures index[id].id == id && index[id] in nodes {
      assert IndexedAt(index, nodes, id);
      FilterMembers(nodes, WithId(id));
      assert index[id] in Filter(nodes, WithId(id));
    }
  }

  // ---------------------------------------------------------------- what each relationship leads to

  function Rival(rule: Rule, index: NodeIndex, edge: RuntimeEdge): RuntimeEdge -> bool {
    (other: RuntimeEdge) => Counted(rule, index, other) && SameKey(rule, other, edge)
  }

  /** The relationship is the only counted one with its key. */
  predicate Lone(rule: Rule, edges: seq<RuntimeEdge>, index: NodeIndex, edge: RuntimeEdge) {
    |Filter(edges, Rival(rule, index, edge))| == 1
  }

  function PortOf(index: NodeIndex, source: string): RuntimeEdge -> bool {
    (other: RuntimeEdge) => PortPairShape(index, other) && other.source == source
  }

  function BarePortOf(index: NodeIndex, source: string): RuntimeEdge -> bool {
    (other: RuntimeEdge) => BarePortCandidate(index, other) && other.source == source
  }

  function SamePort(index: NodeIndex, port: RuntimeEdge): RuntimeEdge -> bool {
    (other: RuntimeEdge) => PortPairShape(index, other) && other.source == port.source && other.target == port.target
  }

  function DependencyBetween(source: string, target: string): RuntimeEdge -> bool {
    (other: RuntimeEdge) => other.relationship == DependsOn && other.source == source && other.target == target
  }

  function CandidateBetween(index: NodeIndex, source: string, target: string): RuntimeEdge -> bool {
    (other: RuntimeEdge) => ComposeDependencyCandidate(index, other) && other.source == source && other.target == target
  }

  function LonePortOf(edges: seq<RuntimeEdge>, index: NodeIndex, source: string): RuntimeEdge -> bool {
    (other: RuntimeEdge) =>
      other.source == source && |Filter(edges, SamePort(index, other))| == 1 && PortCandidate(index, other)
  }

  /** Both pieces of evidence come from one observation. */
  predicate SameObservation(a: RuntimeEdge, b: RuntimeEdge) {
    && |a.evidenceRefs| > 0 && |b.evidenceRefs| > 0
    && a.evidenceRefs[0].collectedAt == b.evidenceRefs[0].collectedAt
    && a.evidenceRefs[0].providerRevision == b.evidenceRefs[0].providerRevision
  }

  predicate Before(a: string, b: string) {
    LexLe(a, b) && a != b
  }

  function PairDraft(rule: Rule, edge: RuntimeEdge, partner: Option<RuntimeEdge>): Draft {
    Draft(rule, edge.source, edge.target, None,
          edge.evidenceRefs[..Min(1, |edge.evidenceRefs|)]
          + (if partner.Some? then partner.value.evidenceRefs[..Min(1, |partner.value.evidenceRefs|)] else []))
  }

  function PortDraft(edge: RuntimeEdge, port: RuntimeEdge): Draft {
    PairDraft(InternalNetworkPort, edge, Some(port)).(port := Some(port.target))
  }

  function PortDrafts(edge: RuntimeEdge, ports: seq<RuntimeEdge>): seq<Draft> {
    if ports == [] then [] else PortDrafts(edge, ports[..|ports| - 1]) + [PortDraft(edge, ports[|ports| - 1])]
  }

  /** The relationship a conclusion about two of them needs besides the first. */
  function Partner(rule: Rule, edges: seq<RuntimeEdge>, index: NodeIndex, edge: RuntimeEdge): Option<RuntimeEdge> {
    match rule
    case DaemonStatePublishesPort =>
      var ports := Filter(edges, BarePortOf(index, edge.source));
      if |Filter(edges, PortOf(index, edge.source))| == 1 && ports != [] then Some(ports[0]) else None
    case MutualDependency =>
      var reverse := Filter(edges, CandidateBetween(index, edge.target, edge.source));
      if |Filter(edges, DependencyBetween(edge.target, edge.source))| == 1 && |reverse| == 1 then Some(reverse[0])
      else None
    case _ => None
  }

  /** What one relationship leads to under one rule, in the presence of all relationships. */
  function DraftsFor(rule: Rule, edges: seq<RuntimeEdge>, index: NodeIndex, edge: RuntimeEdge): seq<Draft> {
    if !Lone(rule, edges, index, edge) || !Candidate(rule, index, edge) then []
    else
      var partner := Partner(rule, edges, index, edge);
      match rule
      case DaemonStatePublishesPort =>
        if partner.Some? && SameObservation(edge, partner.value) then [PairDraft(rule, edge, partner)] else []
      case MutualDependency =>
        if Before(edge.source, edge.target) && partner.Some? && SameObservation(edge, partner.value)
        then [PairDraft(rule, edge, partner)] else []
      case InternalNetworkPort => PortDrafts(edge, Filter(edges, LonePortOf(edges, index, edge.source)))
      case _ => [PairDraft(rule, edge, None)]
  }

  function DraftsUnder(rule: Rule, edges: seq<RuntimeEdge>, index: NodeIndex): RuntimeEdge -> seq<Draft> {
    (edge: RuntimeEdge) => DraftsFor(rule, edges, index, edge)
  }

  function RuleDrafts(rule: Rule, edges: seq<RuntimeEdge>, index: NodeIndex, todo: seq<RuntimeEdge>): seq<Draft> {
    FlatMap(todo, DraftsUnder(rule, edges, index))
  }

  const RULES: seq<Rule> :=
    [EvidenceNotCurrent, IdentityCollision, UnspecifiedAddressPort, RequiresTargetNotActive, PartOfTargetNotActive,
     DaemonStatePublishesPort, MutualDependency, DependencyNotActive, DaemonStateBindMount, InternalNetworkPort]

  function DraftsBy(edges: seq<RuntimeEdge>, index: NodeIndex): Rule -> seq<Draft> {
    (rule: Rule) => RuleDrafts(rule, edges, index, edges)
  }

  function AllDrafts(rules: seq<Rule>, edges: seq<RuntimeEdge>, index: NodeIndex): seq<Draft> {
    FlatMap(rules, DraftsBy(edges, index))
  }

  function Rendered(drafts: seq<Draft>, digest: string -> HexDigest): (findings: seq<Finding>)
    ensures |findings| == |drafts|
    ensures forall i :: 0 <= i < |findings| ==> findings[i] == Render(drafts[i], digest)
  {
    seq(|drafts|, i requires 0 <= i < |drafts| => Render(drafts[i], digest))
  }

  predicate FindingLe(a: Finding, b: Finding) {
    if a.id != b.id then LexLe(a.id, b.id)
    else if a.subjectRef != b.subjectRef then LexLe(a.subjectRef, b.subjectRef)
    else LexLe(a.targetRef, b.targetRef)
  }

  /** The findings of a map, given the index of its nodes. */
  function FindingsOf(edges: seq<RuntimeEdge>, index: NodeIndex, digest: string -> HexDigest): seq<Finding> {
    Sort(Rendered(AllDrafts(RULES, edges, index), digest), FindingLe)
  }

  // ---------------------------------------------------------------- the derivation: counts

  type EdgeCounts = map<(string, string), nat>

  /** The key a count is kept under: the pair of ends, or the source alone. */
  function EdgeKey(bySource: bool, edge: RuntimeEdge): (string, string) {
    (edge.source, if bySource then "" else edge.target)
  }

  function Keyed(counted: RuntimeEdge -> bool, bySource: bool, key: (string, string)): RuntimeEdge -> bool {
    (edge: RuntimeEdge) => counted(edge) && EdgeKey(bySource, edge) == key
  }

  ghost predicate CountsKey(counts: EdgeCounts, edges: seq<RuntimeEdge>, counted: RuntimeEdge -> bool, bySource: bool,
                            key: (string, string))
  {
    CountOf(counts, key) == |Filter(edges, Keyed(counted, bySource, key))|
  }

  lemma KeyedGrows(edges: seq<RuntimeEdge>, k: nat, counted: RuntimeEdge -> bool, bySource: bool, key: (string, string))
    requires k < |edges|
    ensures |Filter(edges[..k + 1], Keyed(counted, bySource, key))|
            == |Filter(edges[..k], Keyed(counted, bySource, key))|
               + (if counted(edges[k]) && EdgeKey(bySource, edges[k]) == key then 1 else 0)
  {
    assert edges[..k + 1] == edges[..k] + [edges[k]];
    FilterAppend(edges[..k], edges[k], Keyed(counted, bySource, key));
  }

  /** Every count map of the derivation: one pass over the relationships. */
  method CountEdges(edges: seq<RuntimeEdge>, counted: RuntimeEdge -> bool, bySource: bool) returns (counts: EdgeCounts)
    ensures forall key :: CountsKey(counts, edges, counted, bySource, key)
  {
    counts := map[];
    for k := 0 to |edges|
      invariant forall key :: CountsKey(counts, edges[..k], counted, bySource, key)
    {
      var own := EdgeKey(bySource, edges[k]);
      var next := if counted(edges[k]) then counts[own := CountOf(counts, own) + 1] else counts;
      var upTo := edges[..k + 1];
      forall key: (string, string) ensures CountsKey(next, upTo, counted, bySource, key) {
        assert CountsKey(counts, edges[..k], counted, bySource, key);
        KeyedGrows(edges, k, counted, bySource, key);
      }
      counts := next;
    }
    assert edges[..|edges|] == edges;
  }

  /** The counts the rules about two relationships consult. */
  datatype PairCounts = PairCounts(
    portsBySource: EdgeCounts, ports: EdgeCounts, dependencies: EdgeCounts, dependencyCandidates: EdgeCounts)

  function IsPort(index: NodeIndex): RuntimeEdge -> bool {
    (edge: RuntimeEdge) => PortPairShape(index, edge)
  }

  function IsDependency(): RuntimeEdge -> bool {
    (edge: RuntimeEdge) => edge.relationship == DependsOn
  }

  function IsDependencyCandidate(index: NodeIndex): RuntimeEdge -> bool {
    (edge: RuntimeEdge) => ComposeDependencyCandidate(index, edge)
  }

  ghost predicate CountsPairs(c: PairCounts, edges: seq<RuntimeEdge>, index: NodeIndex) {
    && (forall key :: CountsKey(c.portsBySource, edges, IsPort(index), true, key))
    && (forall key :: CountsKey(c.ports, edges, IsPort(index), false, key))
    && (forall key :: CountsKey(c.dependencies, edges, IsDependency(), false, key))
    && (forall key :: CountsKey(c.dependencyCandidates, edges, IsDependencyCandidate(index), false, key))
  }

  method CountPairs(edges: seq<RuntimeEdge>, index: NodeIndex) returns (c: PairCounts)
    ensures CountsPairs(c, edges, index)
  {
    var portsBySource := CountEdges(edges, IsPort(index), true);
    var ports := CountEdges(edges, IsPort(index), false);
    var dependencies := CountEdges(edges, IsDependency(), false);
    var candidates := CountEdges(edges, IsDependencyCandidate(index), false);
    c := PairCounts(portsBySource, ports, dependencies, candidates);
  }

  lemma PortCountsAre(c: PairCounts, edges: seq<RuntimeEdge>, index: NodeIndex, port: RuntimeEdge, source: string)
    requires CountsPairs(c, edges, index)
    ensures CountOf(c.portsBySource, (source, "")) == |Filter(edges, PortOf(index, source))|
    ensures CountOf(c.ports, EdgeKey(false, port)) == |Filter(edges, SamePort(index, port))|
  {
    assert CountsKey(c.portsBySource, edges, IsPort(index), true, (source, ""));
    assert CountsKey(c.ports, edges, IsPort(index), false, EdgeKey(false, port));
    SamePointwise(edges, Keyed(IsPort(index), true, (source, "")), PortOf(index, source));
    SamePointwise(edges, Keyed(IsPort(index), false, EdgeKey(false, port)), SamePort(index, port));
  }

  lemma DependencyCountsAre(c: PairCounts, edges: seq<RuntimeEdge>, index: NodeIndex, source: string, target: string)
    requires CountsPairs(c, edges, index)
    ensures CountOf(c.dependencies, (source, target)) == |Filter(edges, DependencyBetween(source, target))|
    ensures CountOf(c.dependencyCandidates, (source, target)) == |Filter(edges, CandidateBetween(index, source, target))|
  {
    assert CountsKey(c.dependencies, edges, IsDependency(), false, (source, target));
    assert CountsKey(c.dependencyCandidates, edges, IsDependencyCandidate(index), false, (source, target));
    SamePointwise(edges, Keyed(IsDependency(), false, (source, target)), DependencyBetween(source, target));
    SamePointwise(edges, Keyed(IsDependencyCandidate(index), false, (source, target)), CandidateBetween(index, source, target));
  }

  function IsCounted(rule: Rule, index: NodeIndex): RuntimeEdge -> bool {
    (edge: RuntimeEdge) => Counted(rule, index, edge)
  }

  predicate BySource(rule: Rule) {
    rule.UnspecifiedAddressPort? || rule.DaemonStatePublishesPort?
  }

  ghost predicate CountsRivals(counts: EdgeCounts, rule: Rule, edges: seq<RuntimeEdge>, index: NodeIndex, edge: RuntimeEdge) {
    CountOf(counts, EdgeKey(BySource(rule), edge)) == |Filter(edges, Rival(rule, index, edge))|
  }

  /** A rule's count map counts, per key, the relationships that make it ambiguous. */
  method CountRivals(rule: Rule, edges: seq<RuntimeEdge>, index: NodeIndex) returns (counts: EdgeCounts)
    ensures forall edge :: CountsRivals(counts, rule, edges, index, edge)
  {
    counts := CountEdges(edges, IsCounted(rule, index), BySource(rule));
    forall edge ensures CountsRivals(counts, rule, edges, index, edge) {
      var key := EdgeKey(BySource(rule), edge);
      assert CountsKey(counts, edges, IsCounted(rule, index), BySource(rule), key);
      SamePointwise(edges, Keyed(IsCounted(rule, index), BySource(rule), key), Rival(rule, index, edge));
    }
  }

  // ---------------------------------------------------------------- the derivation: acting

  /** `find`: the first relationship that qualifies. */
  method FindFirst(edges: seq<RuntimeEdge>, wanted: RuntimeEdge -> bool) returns (found: Option<RuntimeEdge>)
    ensures found == if Filter(edges, wanted) == [] then None else Some(Filter(edges, wanted)[0])
  {
    for k := 0 to |edges|
      invariant forall i :: 0 <= i < k ==> !wanted(edges[i])
    {
      if wanted(edges[k]) {
        FirstFiltered(edges, wanted, k);
        return Some(edges[k]);
      }
    }
    FilterNone(edges, wanted);
    return None;
  }

  /** The port relationship that completes a daemon-state relationship. */
  method JudgeDaemonState(edges: seq<RuntimeEdge>, index: NodeIndex, edge: RuntimeEdge, c: PairCounts)
    returns (drafts: seq<Draft>)
    requires Lone(DaemonStatePublishesPort, edges, index, edge) && Candidate(DaemonStatePublishesPort, index, edge)
    requires CountsPairs(c, edges, index)
    ensures drafts == DraftsFor(DaemonStatePublishesPort, edges, index, edge)
  {
    PortCountsAre(c, edges, index, edge, edge.source);
    if CountOf(c.portsBySource, (edge.source, "")) != 1 {
      return [];
    }
    var port := FindFirst(edges, BarePortOf(index, edge.source));
    if port.None? || !SameObservation(edge, port.value) {
      return [];
    }
    return [PairDraft(DaemonStatePublishesPort, edge, port)];
  }

  /** A candidate among dependencies counted once is the only candidate there. */
  lemma OneDependencyOneCandidate(edges: seq<RuntimeEdge>, index: NodeIndex, edge: RuntimeEdge)
    requires edge in edges && ComposeDependencyCandidate(index, edge)
    requires |Filter(edges, DependencyBetween(edge.source, edge.target))| == 1
    ensures Filter(edges, CandidateBetween(index, edge.source, edge.target)) == [edge]
  {
    FewerFiltered(edges, CandidateBetween(index, edge.source, edge.target), DependencyBetween(edge.source, edge.target));
    SoleFiltered(edges, CandidateBetween(index, edge.source, edge.target), edge);
  }

  lemma DependencyRivals(rule: Rule, edges: seq<RuntimeEdge>, index: NodeIndex, edge: RuntimeEdge)
    requires rule.MutualDependency? || rule.DependencyNotActive?
    ensures Filter(edges, Rival(rule, index, edge)) == Filter(edges, DependencyBetween(edge.source, edge.target))
  {
    SamePointwise(edges, Rival(rule, index, edge), DependencyBetween(edge.source, edge.target));
  }

  /** The reverse dependency, counted once and a candidate; the count of own candidates never refuses anything. */
  method JudgeMutual(edges: seq<RuntimeEdge>, index: NodeIndex, edge: RuntimeEdge, c: PairCounts)
    returns (drafts: seq<Draft>)
    requires edge in edges && Lone(MutualDependency, edges, index, edge) && Candidate(MutualDependency, index, edge)
    requires CountsPairs(c, edges, index)
    ensures drafts == DraftsFor(MutualDependency, edges, index, edge)
  {
    DependencyRivals(MutualDependency, edges, index, edge);
    OneDependencyOneCandidate(edges, index, edge);
    DependencyCountsAre(c, edges, index, edge.source, edge.target);
    DependencyCountsAre(c, edges, index, edge.target, edge.source);
    if !Before(edge.source, edge.target) || CountOf(c.dependencyCandidates, (edge.source, edge.target)) != 1 {
      return [];
    }
    if CountOf(c.dependencies, (edge.target, edge.source)) != 1
       || CountOf(c.dependencyCandidates, (edge.target, edge.source)) != 1
    {
      return [];
    }
    var reverse := FindFirst(edges, CandidateBetween(index, edge.target, edge.source));
    if reverse.None? || !SameObservation(edge, reverse.value) {
      return [];
    }
    return [PairDraft(MutualDependency, edge, reverse)];
  }

  lemma PortDraftsGrow(edge: RuntimeEdge, ports: seq<RuntimeEdge>, port: RuntimeEdge)
    ensures PortDrafts(edge, ports + [port]) == PortDrafts(edge, ports) + [PortDraft(edge, port)]
  {
    assert (ports + [port])[..|ports|] == ports;
  }

  lemma LonePortDecides(c: PairCounts, edges: seq<RuntimeEdge>, index: NodeIndex, port: RuntimeEdge, source: string)
    requires CountsPairs(c, edges, index)
    ensures LonePortOf(edges, index, source)(port)
            <==> port.source == source && CountOf(c.ports, EdgeKey(false, port)) == 1 && PortCandidate(index, port)
  {
    PortCountsAre(c, edges, index, port, source);
  }

  /** Every lone port of a lone network member. */
  method JudgeMembership(edges: seq<RuntimeEdge>, index: NodeIndex, edge: RuntimeEdge, c: PairCounts)
    returns (drafts: seq<Draft>)
    requires Lone(InternalNetworkPort, edges, index, edge) && Candidate(InternalNetworkPort, index, edge)
    requires CountsPairs(c, edges, index)
    ensures drafts == DraftsFor(InternalNetworkPort, edges, index, edge)
  {
    drafts := PushPorts(edges, index, edge, c, LonePortOf(edges, index, edge.source));
  }

  method PushPorts(edges: seq<RuntimeEdge>, index: NodeIndex, edge: RuntimeEdge, c: PairCounts,
                   ghost wanted: RuntimeEdge -> bool) returns (drafts: seq<Draft>)
    requires CountsPairs(c, edges, index) && wanted == LonePortOf(edges, index, edge.source)
    ensures drafts == PortDrafts(edge, Filter(edges, wanted))
  {
    drafts := [];
    ghost var ports: seq<RuntimeEdge> := [];
    for k := 0 to |edges|
      invariant ports == Filter(edges[..k], wanted) && drafts == PortDrafts(edge, ports)
    {
      var port := edges[k];
      assert edges[..k + 1] == edges[..k] + [port];
      FilterAppend(edges[..k], port, wanted);
      LonePortDecides(c, edges, index, port, edge.source);
      if port.source == edge.source && CountOf(c.ports, EdgeKey(false, port)) == 1 && PortCandidate(index, port) {
        PortDraftsGrow(edge, ports, port);
        ports := ports + [port];
        drafts := drafts + [PortDraft(edge, port)];
      }
    }
    assert edges[..|edges|] == edges;
  }

  /** A dependency on an inactive container also asks for a single candidate, which its lone count implies. */
  method JudgeDependency(edges: seq<RuntimeEdge>, index: NodeIndex, edge: RuntimeEdge, c: PairCounts)
    returns (drafts: seq<Draft>)
    requires edge in edges && Lone(DependencyNotActive, edges, index, edge) && Candidate(DependencyNotActive, index, edge)
    requires CountsPairs(c, edges, index)
    ensures drafts == DraftsFor(DependencyNotActive, edges, index, edge)
  {
    DependencyRivals(DependencyNotActive, edges, index, edge);
    OneDependencyOneCandidate(edges, index, edge);
    DependencyCountsAre(c, edges, index, edge.source, edge.target);
    if CountOf(c.dependencyCandidates, (edge.source, edge.target)) != 1 {
      return [];
    }
    return [PairDraft(DependencyNotActive, edge, None)];
  }

  method JudgeEdge(rule: Rule, edges: seq<RuntimeEdge>, index: NodeIndex, edge: RuntimeEdge, c: PairCounts)
    returns (drafts: seq<Draft>)
    requires edge in edges && Lone(rule, edges, index, edge) && Candidate(rule, index, edge)
    requires CountsPairs(c, edges, index)
    ensures drafts == DraftsFor(rule, edges, index, edge)
  {
    match rule
    case DaemonStatePublishesPort => drafts := JudgeDaemonState(edges, index, edge, c);
    case MutualDependency => drafts := JudgeMutual(edges, index, edge, c);
    case InternalNetworkPort => drafts := JudgeMembership(edges, index, edge, c);
    case DependencyNotActive => drafts := JudgeDependency(edges, index, edge, c);
    case _ => drafts := [PairDraft(rule, edge, None)];
  }

  /** One relationship under one rule: nothing unless it is alone and a candidate. */
  method JudgeIfLone(rule: Rule, edges: seq<RuntimeEdge>, index: NodeIndex, edge: RuntimeEdge, c: PairCounts,
                     counts: EdgeCounts, ghost each: RuntimeEdge -> seq<Draft>) returns (drafts: seq<Draft>)
    requires edge in edges && each == DraftsUnder(rule, edges, index)
    requires CountsPairs(c, edges, index) && CountsRivals(counts, rule, edges, index, edge)
    ensures drafts == each(edge)
  {
    if CountOf(counts, EdgeKey(BySource(rule), edge)) != 1 || !Candidate(rule, index, edge) {
      return [];
    }
    drafts := JudgeEdge(rule, edges, index, edge, c);
  }

  /** One rule: count first, then act on every relationship that is alone under its key. */
  method ApplyRule(rule: Rule, edges: seq<RuntimeEdge>, index: NodeIndex, c: PairCounts) returns (drafts: seq<Draft>)
    requires CountsPairs(c, edges, index)
    ensures drafts == RuleDrafts(rule, edges, index, edges)
  {
    var counts := CountRivals(rule, edges, index);
    drafts := PushDrafts(rule, edges, index, c, counts, DraftsUnder(rule, edges, index));
  }

  method PushDrafts(rule: Rule, edges: seq<RuntimeEdge>, index: NodeIndex, c: PairCounts, counts: EdgeCounts,
                    ghost each: RuntimeEdge -> seq<Draft>) returns (drafts: seq<Draft>)
    requires each == DraftsUnder(rule, edges, index) && CountsPairs(c, edges, index)
    requires forall edge :: CountsRivals(counts, rule, edges, index, edge)
    ensures drafts == FlatMap(edges, each)
  {
    drafts := [];
    for k := 0 to |edges|
      invariant drafts == FlatMap(edges[..k], each)
    {
      FlatMapStep(edges, k, each);
      var more := JudgeIfLone(rule, edges, index, edges[k], c, counts, each);
      drafts := drafts + more;
    }
    assert edges[..|edges|] == edges;
  }

  method ApplyRules(rules: seq<Rule>, edges: seq<RuntimeEdge>, index: NodeIndex) returns (drafts: seq<Draft>)
    ensures drafts == AllDrafts(rules, edges, index)
  {
    var c := CountPairs(edges, index);
    drafts := [];
    for k := 0 to |rules|
      invariant drafts == AllDrafts(rules[..k], edges, index)
    {
      FlatMapStep(rules, k, DraftsBy(edges, index));
      var more := ApplyRule(rules[k], edges, index, c);
      drafts := drafts + more;
    }
    assert rules[..|rules|] == rules;
  }

  method DeriveFindings(mode: Option<RuntimeMode>, nodes: seq<RuntimeNode>, edges: seq<RuntimeEdge>,
                        digest: string -> HexDigest) returns (findings: seq<Finding>, index: NodeIndex)
    ensures IsIndex(index, nodes)
    ensures findings == if mode == Some(Mock) then [] else FindingsOf(edges, index, digest)
  {
    index := UniqueNodes(nodes);
    if mode == Some(Mock) {
      return [], index;
    }
    var drafts := ApplyRules(RULES, edges, index);
    findings := Sort(Rendered(drafts, digest), FindingLe);
  }
}
