/**
 The public topology graph of a Docker snapshot: nodes for every record, and relationships only where every
 identity involved is unambiguous.
 */
module Graph {
  import opened Prelude
  import opened Sorting
  import opened RuntimeModel

  datatype GraphContainer = GraphContainer(
    id: string, name: string, role: string, networks: seq<string>, dependsOn: seq<string>)

  datatype GraphNetwork = GraphNetwork(id: string, name: string)

  datatype GraphVolume = GraphVolume(id: string, name: string, attachedTo: seq<string>)

  datatype Snapshot = Snapshot(
    containers: seq<GraphContainer>, networks: seq<GraphNetwork>, volumes: seq<GraphVolume>)

  datatype GraphNodeKind = ContainerNode | NetworkNode | VolumeNode

  datatype GraphNode = GraphNode(id: string, kind: GraphNodeKind, text: string)

  datatype GraphEdge = GraphEdge(source: string, target: string, relationship: RelationshipKind)

  // ---------------------------------------------------------------- aliases

  datatype AliasKind = ById | ByName | ByRole

  function AliasOf(kind: AliasKind, c: GraphContainer): string {
    match kind
    case ById => c.id
    case ByName => c.name
    case ByRole => c.role
  }

  function Matching(kind: AliasKind, alias: string): GraphContainer -> bool {
    (c: GraphContainer) => AliasOf(kind, c) == alias
  }

  /** What an alias stands for: nothing, several containers, or one. */
  datatype Lookup = Absent | Ambiguous | Only(container: GraphContainer)

  function LookupAlias(containers: seq<GraphContainer>, kind: AliasKind, alias: string): Lookup {
    var matching := Filter(containers, Matching(kind, alias));
    if alias == "" || matching == [] then Absent
    else if |matching| == 1 then Only(matching[0])
    else Ambiguous
  }

  function StripPrefix(s: string, prefix: string): string {
    if StartsWith(s, prefix) then s[|prefix|..] else s
  }

  const CONTAINER_PREFIX: string := "container_"

  /** One alias after the other: an ambiguous one, or one that disagrees, makes the reference unsafe. */
  function Agree(lookups: seq<Lookup>, candidate: Option<GraphContainer>): Option<GraphContainer> {
    if lookups == [] then candidate
    else match lookups[0]
      case Absent => Agree(lookups[1..], candidate)
      case Ambiguous => None
      case Only(c) =>
        if candidate.Some? && candidate.value != c then None else Agree(lookups[1..], Some(c))
  }

  function Lookups(containers: seq<GraphContainer>, dependency: string): seq<Lookup> {
    var name := StripPrefix(dependency, CONTAINER_PREFIX);
    [LookupAlias(containers, ByRole, name), LookupAlias(containers, ByName, name),
     LookupAlias(containers, ById, dependency)]
  }

  function Resolve(containers: seq<GraphContainer>, dependency: string): Option<GraphContainer> {
    if dependency == "" || StripPrefix(dependency, CONTAINER_PREFIX) == "" then None
    else Agree(Lookups(containers, dependency), None)
  }

  predicate AbsentOr(lookup: Lookup, c: GraphContainer) {
    lookup == Absent || lookup == Only(c)
  }

  /** Every alias that matches anything matches this container alone, and one does. */
  predicate AgreesOn(containers: seq<GraphContainer>, dependency: string, c: GraphContainer) {
    var name := StripPrefix(dependency, CONTAINER_PREFIX);
    var role, named, id := LookupAlias(containers, ByRole, name), LookupAlias(containers, ByName, name),
                           LookupAlias(containers, ById, dependency);
    && dependency != "" && name != ""
    && AbsentOr(role, c) && AbsentOr(named, c) && AbsentOr(id, c)
    && (role == Only(c) || named == Only(c) || id == Only(c))
  }

  lemma ResolvesExactly(containers: seq<GraphContainer>, dependency: string, c: GraphContainer)
    ensures Resolve(containers, dependency) == Some(c) <==> AgreesOn(containers, dependency, c)
  {
    var lookups := Lookups(containers, dependency);
    AgreeThree(lookups[0], lookups[1], lookups[2], c);
  }

  lemma AgreeThree(a: Lookup, b: Lookup, d: Lookup, c: GraphContainer)
    ensures Agree([a, b, d], None) == Some(c)
            <==> && AbsentOr(a, c) && AbsentOr(b, c) && AbsentOr(d, c)
                 && (a == Only(c) || b == Only(c) || d == Only(c))
  {
    var start: Option<GraphContainer> := None;
    var afterA := if a.Only? then Some(a.container) else None;
    AgreeStep(a, [b, d], start);
    assert [a] + [b, d] == [a, b, d] && [b] + [d] == [b, d] && [d] + [] == [d];
    AgreeStep(b, [d], afterA);
    var afterB := if b.Only? then Some(b.container) else afterA;
    AgreeStep(d, [], afterB);
  }

  lemma AgreeStep(first: Lookup, rest: seq<Lookup>, candidate: Option<GraphContainer>)
    ensures Agree([first] + rest, candidate)
            == match first
               case Absent => Agree(rest, candidate)
               case Ambiguous => None
               case Only(c) => if candidate.Some? && candidate.value != c then None else Agree(rest, Some(c))
  {
    assert ([first] + rest)[1..] == rest;
  }

  // ---------------------------------------------------------------- identities

  function NetworkWith(id: string): GraphNetwork -> bool {
    (n: GraphNetwork) => n.id == id
  }

  function VolumeWith(id: string): GraphVolume -> bool {
    (v: GraphVolume) => v.id == id
  }

  /** How many records of all kinds carry an identity. */
  function NodeCount(s: Snapshot, id: string): nat {
    |Filter(s.containers, Matching(ById, id))| + |Filter(s.networks, NetworkWith(id))| + |Filter(s.volumes, VolumeWith(id))|
  }

  predicate UniqueNode(s: Snapshot, id: string) {
    id != "" && NodeCount(s, id) == 1
  }

  predicate UniqueContainer(s: Snapshot, id: string) {
    UniqueNode(s, id) && |Filter(s.containers, Matching(ById, id))| == 1
  }

  predicate UniqueNetwork(s: Snapshot, id: string) {
    UniqueNode(s, id) && |Filter(s.networks, NetworkWith(id))| == 1
  }

  predicate UniqueName(s: Snapshot, c: GraphContainer) {
    LookupAlias(s.containers, ByName, c.name) == Only(c)
  }

  // ---------------------------------------------------------------- relationships

  function NetworkEdge(s: Snapshot, c: GraphContainer): string -> seq<GraphEdge> {
    (network: string) =>
      if UniqueContainer(s, c.id) && UniqueNetwork(s, network) then [GraphEdge(c.id, network, ConnectedTo)] else []
  }

  function AttachedHere(v: GraphVolume, name: string): string -> seq<GraphVolume> {
    (attached: string) => if attached == name then [v] else []
  }

  function AttachedTo(name: string): GraphVolume -> seq<GraphVolume> {
    (v: GraphVolume) => FlatMap(v.attachedTo, AttachedHere(v, name))
  }

  function VolumeEdge(s: Snapshot, c: GraphContainer): GraphVolume -> seq<GraphEdge> {
    (v: GraphVolume) =>
      if UniqueContainer(s, c.id) && UniqueNode(s, v.id) then [GraphEdge(c.id, v.id, Mounts)] else []
  }

  function DependencyEdge(s: Snapshot, c: GraphContainer): string -> seq<GraphEdge> {
    (dependency: string) =>
      match Resolve(s.containers, dependency)
      case None => []
      case Some(t) =>
        if UniqueContainer(s, c.id) && UniqueContainer(s, t.id) && c != t then [GraphEdge(c.id, t.id, ConnectedTo)] else []
  }

  function ContainerEdges(s: Snapshot): GraphContainer -> seq<GraphEdge> {
    (c: GraphContainer) =>
      FlatMap(c.networks, NetworkEdge(s, c))
      + (if UniqueName(s, c) then FlatMap(FlatMap(s.volumes, AttachedTo(c.name)), VolumeEdge(s, c)) else [])
      + FlatMap(c.dependsOn, DependencyEdge(s, c))
  }

  function AllEdges(s: Snapshot): seq<GraphEdge> {
    FlatMap(s.containers, ContainerEdges(s))
  }

  function ContainerNodeOf(c: GraphContainer): seq<GraphNode> {
    [GraphNode(c.id, ContainerNode, c.name)]
  }

  function NetworkNodeOf(n: GraphNetwork): seq<GraphNode> {
    [GraphNode(n.id, NetworkNode, n.name)]
  }

  function VolumeNodeOf(v: GraphVolume): seq<GraphNode> {
    [GraphNode(v.id, VolumeNode, v.name)]
  }

  function AllNodes(s: Snapshot): seq<GraphNode> {
    FlatMap(s.containers, ContainerNodeOf) + FlatMap(s.networks, NetworkNodeOf) + FlatMap(s.volumes, VolumeNodeOf)
  }

  /** Order by serialized text. */
  function ByText<T>(text: T -> string): (T, T) -> bool {
    (a: T, b: T) => LexLe(text(a), text(b))
  }

  datatype GraphResponse = GraphResponse(nodes: seq<GraphNode>, edges: seq<GraphEdge>)

  function GraphOf(s: Snapshot, nodeText: GraphNode -> string, edgeText: GraphEdge -> string): GraphResponse {
    GraphResponse(SortDedup(AllNodes(s), ByText(nodeText)), SortDedup(AllEdges(s), ByText(edgeText)))
  }

  // ---------------------------------------------------------------- the derivation: alias maps

  type AliasMap = map<string, Option<nat>>

  /** An alias is mapped to the position of its one container, or to nothing when several share it. */
  ghost predicate AliasAt(m: AliasMap, containers: seq<GraphContainer>, kind: AliasKind, alias: string) {
    var matching := Filter(containers, Matching(kind, alias));
    if alias !in m then alias == "" || matching == []
    else match m[alias]
      case None => alias != "" && |matching| > 1
      case Some(i) => alias != "" && i < |containers| && matching == [containers[i]]
  }

  function Inserted(m: AliasMap, alias: string, i: nat): AliasMap {
    if alias == "" then m else m[alias := if alias in m then None else Some(i)]
  }

  lemma MatchingGrows(containers: seq<GraphContainer>, k: nat, kind: AliasKind, alias: string)
    requires k < |containers|
    ensures Filter(containers[..k + 1], Matching(kind, alias))
            == Filter(containers[..k], Matching(kind, alias))
               + (if AliasOf(kind, containers[k]) == alias then [containers[k]] else [])
  {
    assert containers[..k + 1] == containers[..k] + [containers[k]];
    FilterAppend(containers[..k], containers[k], Matching(kind, alias));
  }

  method BuildAliases(containers: seq<GraphContainer>, kind: AliasKind) returns (m: AliasMap)
    ensures forall alias :: AliasAt(m, containers, kind, alias)
  {
    m := map[];
    for k := 0 to |containers|
      invariant forall alias :: AliasAt(m, containers[..k], kind, alias)
    {
      var next := Inserted(m, AliasOf(kind, containers[k]), k);
      var upTo := containers[..k + 1];
      forall alias: string ensures AliasAt(next, upTo, kind, alias) {
        assert AliasAt(m, containers[..k], kind, alias);
        MatchingGrows(containers, k, kind, alias);
      }
      m := next;
    }
    assert containers[..|containers|] == containers;
  }

  function Found(m: AliasMap, alias: string): Option<Option<nat>> {
    if alias in m then Some(m[alias]) else None
  }

  /** A position-based lookup and the value it stands for. */
  ghost predicate Reads(found: Option<Option<nat>>, containers: seq<GraphContainer>, lookup: Lookup) {
    match found
    case None => lookup == Absent
    case Some(None) => lookup == Ambiguous
    case Some(Some(i)) => i < |containers| && lookup == Only(containers[i])
  }

  lemma FoundReads(m: AliasMap, containers: seq<GraphContainer>, kind: AliasKind, alias: string)
    requires AliasAt(m, containers, kind, alias)
    ensures Reads(Found(m, alias), containers, LookupAlias(containers, kind, alias))
  {
  }

  /** A container reached by an unambiguous alias occurs once, so comparing positions compares containers. */
  lemma PositionIsIdentity(containers: seq<GraphContainer>, kind: AliasKind, alias: string, i: nat, j: nat)
    requires i < |containers| && j < |containers| && LookupAlias(containers, kind, alias) == Only(containers[i])
    ensures i == j <==> containers[i] == containers[j]
  {
    FilterMembers(containers, Matching(kind, alias));
    assert containers[i] in Filter(containers, Matching(kind, alias));
    if i != j && containers[i] == containers[j] {
      if i < j {
        TwoFiltered(containers, Matching(kind, alias), i, j);
      } else {
        TwoFiltered(containers, Matching(kind, alias), j, i);
      }
    }
  }

  datatype Aliases = Aliases(ids: AliasMap, names: AliasMap, roles: AliasMap)

  ghost predicate AliasesOf(a: Aliases, containers: seq<GraphContainer>) {
    && (forall alias :: AliasAt(a.ids, containers, ById, alias))
    && (forall alias :: AliasAt(a.names, containers, ByName, alias))
    && (forall alias :: AliasAt(a.roles, containers, ByRole, alias))
  }

  /** The candidate at a position, as a container. */
  function Candidate(containers: seq<GraphContainer>, candidate: Option<nat>): Option<GraphContainer>
    requires candidate.Some? ==> candidate.value < |containers|
  {
    match candidate
    case None => None
    case Some(i) => Some(containers[i])
  }

  ghost predicate Alone(containers: seq<GraphContainer>, i: nat) {
    i < |containers| && forall j :: 0 <= j < |containers| && containers[j] == containers[i] ==> j == i
  }

  lemma LookupIsAlone(containers: seq<GraphContainer>, kind: AliasKind, alias: string, i: nat)
    requires i < |containers| && LookupAlias(containers, kind, alias) == Only(containers[i])
    ensures Alone(containers, i)
  {
    forall j | 0 <= j < |containers| && containers[j] == containers[i] ensures j == i {
      PositionIsIdentity(containers, kind, alias, i, j);
    }
  }

  method ResolveDependency(a: Aliases, containers: seq<GraphContainer>, dependency: string) returns (found: Option<nat>)
    requires AliasesOf(a, containers)
    ensures found.Some? ==> Alone(containers, found.value)
    ensures Resolve(containers, dependency) == Candidate(containers, found)
  {
    if dependency == "" {
      return None;
    }
    var name := StripPrefix(dependency, CONTAINER_PREFIX);
    if name == "" {
      return None;
    }
    ghost var lookups := Lookups(containers, dependency);
    var founds := [Found(a.roles, name), Found(a.names, name), Found(a.ids, dependency)];
    LookupsRead(a, containers, dependency, founds);
    found := AgreeOnPosition(containers, founds, lookups);
  }

  ghost predicate ReadsAll(founds: seq<Option<Option<nat>>>, containers: seq<GraphContainer>, lookups: seq<Lookup>) {
    && |founds| == |lookups|
    && forall k :: 0 <= k < |founds| ==>
         && Reads(founds[k], containers, lookups[k])
         && (lookups[k].Only? ==> Alone(containers, founds[k].value.value))
  }

  lemma LookupsRead(a: Aliases, containers: seq<GraphContainer>, dependency: string, founds: seq<Option<Option<nat>>>)
    requires AliasesOf(a, containers)
    requires var name := StripPrefix(dependency, CONTAINER_PREFIX);
             founds == [Found(a.roles, name), Found(a.names, name), Found(a.ids, dependency)]
    ensures ReadsAll(founds, containers, Lookups(containers, dependency))
  {
    var name := StripPrefix(dependency, CONTAINER_PREFIX);
    ReadsAlone(a.roles, containers, ByRole, name);
    ReadsAlone(a.names, containers, ByName, name);
    ReadsAlone(a.ids, containers, ById, dependency);
  }

  lemma ReadsAlone(m: AliasMap, containers: seq<GraphContainer>, kind: AliasKind, alias: string)
    requires AliasAt(m, containers, kind, alias)
    ensures var found, lookup := Found(m, alias), LookupAlias(containers, kind, alias);
            Reads(found, containers, lookup) && (lookup.Only? ==> Alone(containers, found.value.value))
  {
    FoundReads(m, containers, kind, alias);
    var lookup := LookupAlias(containers, kind, alias);
    if lookup.Only? {
      LookupIsAlone(containers, kind, alias, Found(m, alias).value.value);
    }
  }

  method AgreeOnPosition(containers: seq<GraphContainer>, founds: seq<Option<Option<nat>>>, ghost lookups: seq<Lookup>)
    returns (candidate: Option<nat>)
    requires ReadsAll(founds, containers, lookups)
    ensures candidate.Some? ==> Alone(containers, candidate.value)
    ensures Agree(lookups, None) == Candidate(containers, candidate)
  {
    candidate := None;
    for k := 0 to |founds|
      invariant candidate.Some? ==> Alone(containers, candidate.value)
      invariant Agree(lookups, None) == Agree(lookups[k..], Candidate(containers, candidate))
    {
      assert Reads(founds[k], containers, lookups[k]);
      assert lookups[k..][0] == lookups[k] && lookups[k..][1..] == lookups[k + 1..];
      match founds[k]
      case None =>
      case Some(None) =>
        return None;
      case Some(Some(i)) =>
        if candidate.Some? && candidate.value != i {
          return None;
        }
        candidate := Some(i);
    }
  }

  // ---------------------------------------------------------------- the derivation: identity counts

  function Counted(counts: map<string, nat>, id: string): map<string, nat> {
    if id == "" then counts else counts[id := CountOf(counts, id) + 1]
  }

  datatype Identities = Identities(nodes: map<string, nat>, networks: map<string, nat>, containers: map<string, nat>)

  ghost predicate CountsAt(ids: Identities, s: Snapshot, id: string) {
    id != "" ==>
      && CountOf(ids.nodes, id) == NodeCount(s, id)
      && CountOf(ids.containers, id) == |Filter(s.containers, Matching(ById, id))|
      && CountOf(ids.networks, id) == |Filter(s.networks, NetworkWith(id))|
  }

  method CountContainers(s: Snapshot) returns (ids: Identities)
    ensures forall id :: CountsAt(ids, Snapshot(s.containers, [], []), id)
  {
    ids := Identities(map[], map[], map[]);
    for k := 0 to |s.containers|
      invariant forall id :: CountsAt(ids, Snapshot(s.containers[..k], [], []), id)
    {
      var id := s.containers[k].id;
      var next := ids.(nodes := Counted(ids.nodes, id), containers := Counted(ids.containers, id));
      var upTo := Snapshot(s.containers[..k + 1], [], []);
      forall other: string ensures CountsAt(next, upTo, other) {
        assert CountsAt(ids, Snapshot(s.containers[..k], [], []), other);
        MatchingGrows(s.containers, k, ById, other);
      }
      ids := next;
    }
    assert s.containers[..|s.containers|] == s.containers;
  }

  method CountNetworks(s: Snapshot, start: Identities) returns (ids: Identities)
    requires forall id :: CountsAt(start, Snapshot(s.containers, [], []), id)
    ensures forall id :: CountsAt(ids, Snapshot(s.containers, s.networks, []), id)
  {
    ids := start;
    for k := 0 to |s.networks|
      invariant forall id :: CountsAt(ids, Snapshot(s.containers, s.networks[..k], []), id)
    {
      var id := s.networks[k].id;
      var next := ids.(nodes := Counted(ids.nodes, id), networks := Counted(ids.networks, id));
      var upTo := Snapshot(s.containers, s.networks[..k + 1], []);
      forall other: string ensures CountsAt(next, upTo, other) {
        assert CountsAt(ids, Snapshot(s.containers, s.networks[..k], []), other);
        assert s.networks[..k + 1] == s.networks[..k] + [s.networks[k]];
        FilterAppend(s.networks[..k], s.networks[k], NetworkWith(other));
      }
      ids := next;
    }
    assert s.networks[..|s.networks|] == s.networks;
  }

  method CountVolumes(s: Snapshot, start: Identities) returns (ids: Identities)
    requires forall id :: CountsAt(start, Snapshot(s.containers, s.networks, []), id)
    ensures forall id :: CountsAt(ids, s, id)
  {
    ids := start;
    for k := 0 to |s.volumes|
      invariant forall id :: CountsAt(ids, s.(volumes := s.volumes[..k]), id)
    {
      var next := ids.(nodes := Counted(ids.nodes, s.volumes[k].id));
      var upTo := s.(volumes := s.volumes[..k + 1]);
      forall other: string ensures CountsAt(next, upTo, other) {
        assert CountsAt(ids, s.(volumes := s.volumes[..k]), other);
        assert s.volumes[..k + 1] == s.volumes[..k] + [s.volumes[k]];
        FilterAppend(s.volumes[..k], s.volumes[k], VolumeWith(other));
      }
      ids := next;
    }
    assert s.(volumes := s.volumes[..|s.volumes|]) == s;
  }

  predicate HasUniqueNode(ids: Identities, id: string) {
    id != "" && CountOf(ids.nodes, id) == 1
  }

  predicate HasUniqueContainer(ids: Identities, id: string) {
    id != "" && CountOf(ids.containers, id) == 1 && HasUniqueNode(ids, id)
  }

  predicate HasUniqueNetwork(ids: Identities, id: string) {
    id != "" && CountOf(ids.networks, id) == 1 && HasUniqueNode(ids, id)
  }

  lemma CountsDecide(ids: Identities, s: Snapshot, id: string)
    requires CountsAt(ids, s, id)
    ensures HasUniqueNode(ids, id) == UniqueNode(s, id)
    ensures HasUniqueContainer(ids, id) == UniqueContainer(s, id)
    ensures HasUniqueNetwork(ids, id) == UniqueNetwork(s, id)
  {
  }

  // ---------------------------------------------------------------- the derivation: relationships

  method PushNetworkEdges(s: Snapshot, c: GraphContainer, ids: Identities) returns (edges: seq<GraphEdge>)
    requires forall id :: CountsAt(ids, s, id)
    ensures edges == FlatMap(c.networks, NetworkEdge(s, c))
  {
    edges := [];
    for k := 0 to |c.networks|
      invariant edges == FlatMap(c.networks[..k], NetworkEdge(s, c))
    {
      FlatMapStep(c.networks, k, NetworkEdge(s, c));
      CountsDecide(ids, s, c.id);
      CountsDecide(ids, s, c.networks[k]);
      if HasUniqueContainer(ids, c.id) && HasUniqueNetwork(ids, c.networks[k]) {
        edges := edges + [GraphEdge(c.id, c.networks[k], ConnectedTo)];
      }
    }
    assert c.networks[..|c.networks|] == c.networks;
  }

  method PushVolumeEdges(s: Snapshot, c: GraphContainer, ids: Identities, volumes: seq<GraphVolume>)
    returns (edges: seq<GraphEdge>)
    requires forall id :: CountsAt(ids, s, id)
    ensures edges == FlatMap(volumes, VolumeEdge(s, c))
  {
    edges := [];
    for k := 0 to |volumes|
      invariant edges == FlatMap(volumes[..k], VolumeEdge(s, c))
    {
      FlatMapStep(volumes, k, VolumeEdge(s, c));
      CountsDecide(ids, s, c.id);
      CountsDecide(ids, s, volumes[k].id);
      if HasUniqueContainer(ids, c.id) && HasUniqueNode(ids, volumes[k].id) {
        edges := edges + [GraphEdge(c.id, volumes[k].id, Mounts)];
      }
    }
    assert volumes[..|volumes|] == volumes;
  }

  method JudgeDependency(s: Snapshot, index: nat, ids: Identities, a: Aliases, dependency: string)
    returns (edges: seq<GraphEdge>)
    requires index < |s.containers| && AliasesOf(a, s.containers)
    requires forall id :: CountsAt(ids, s, id)
    ensures edges == DependencyEdge(s, s.containers[index])(dependency)
  {
    edges := [];
    var c := s.containers[index];
    var found := ResolveDependency(a, s.containers, dependency);
    if found.Some? {
      var target := s.containers[found.value];
      CountsDecide(ids, s, c.id);
      CountsDecide(ids, s, target.id);
      assert index == found.value <==> c == target;
      if HasUniqueContainer(ids, c.id) && HasUniqueContainer(ids, target.id) && index != found.value {
        edges := [GraphEdge(c.id, target.id, ConnectedTo)];
      }
    }
  }

  method PushDependencyEdges(s: Snapshot, index: nat, ids: Identities, a: Aliases) returns (edges: seq<GraphEdge>)
    requires index < |s.containers| && AliasesOf(a, s.containers)
    requires forall id :: CountsAt(ids, s, id)
    ensures edges == FlatMap(s.containers[index].dependsOn, DependencyEdge(s, s.containers[index]))
  {
    var c := s.containers[index];
    edges := [];
    for k := 0 to |c.dependsOn|
      invariant edges == FlatMap(c.dependsOn[..k], DependencyEdge(s, c))
    {
      FlatMapStep(c.dependsOn, k, DependencyEdge(s, c));
      var more := JudgeDependency(s, index, ids, a, c.dependsOn[k]);
      edges := edges + more;
    }
    assert c.dependsOn[..|c.dependsOn|] == c.dependsOn;
  }

  type VolumesByName = map<string, seq<GraphVolume>>

  function VolumesAt(m: VolumesByName, name: string): seq<GraphVolume> {
    if name in m then m[name] else []
  }

  ghost predicate AttachedAt(m: VolumesByName, volumes: seq<GraphVolume>, name: string) {
    VolumesAt(m, name) == FlatMap(volumes, AttachedTo(name))
  }

  ghost predicate PartlyAttachedAt(m: VolumesByName, start: VolumesByName, v: GraphVolume, attached: seq<string>, name: string) {
    VolumesAt(m, name) == VolumesAt(start, name) + FlatMap(attached, AttachedHere(v, name))
  }

  lemma AttachStep(m: VolumesByName, start: VolumesByName, v: GraphVolume, k: nat, name: string)
    requires k < |v.attachedTo| && PartlyAttachedAt(m, start, v, v.attachedTo[..k], name)
    ensures PartlyAttachedAt(m[v.attachedTo[k] := VolumesAt(m, v.attachedTo[k]) + [v]], start, v, v.attachedTo[..k + 1], name)
  {
    var here := AttachedHere(v, name);
    assert v.attachedTo[..k + 1] == v.attachedTo[..k] + [v.attachedTo[k]];
    FlatMapAppend(v.attachedTo[..k], v.attachedTo[k], here);
    OneMoreAttached(VolumesAt(start, name), FlatMap(v.attachedTo[..k], here), here(v.attachedTo[k]));
  }

  lemma OneMoreAttached(start: seq<GraphVolume>, attached: seq<GraphVolume>, more: seq<GraphVolume>)
    ensures start + (attached + more) == start + attached + more
    ensures more == [] ==> start + (attached + more) == start + attached
  {
  }

  method AttachVolume(start: VolumesByName, v: GraphVolume) returns (m: VolumesByName)
    ensures forall name :: PartlyAttachedAt(m, start, v, v.attachedTo, name)
  {
    m := start;
    for k := 0 to |v.attachedTo|
      invariant forall name :: PartlyAttachedAt(m, start, v, v.attachedTo[..k], name)
    {
      var next := m[v.attachedTo[k] := VolumesAt(m, v.attachedTo[k]) + [v]];
      var upTo := v.attachedTo[..k + 1];
      forall name: string ensures PartlyAttachedAt(next, start, v, upTo, name) {
        assert PartlyAttachedAt(m, start, v, v.attachedTo[..k], name);
        AttachStep(m, start, v, k, name);
      }
      m := next;
    }
    assert v.attachedTo[..|v.attachedTo|] == v.attachedTo;
  }

  method VolumesByContainer(volumes: seq<GraphVolume>) returns (m: VolumesByName)
    ensures forall name :: AttachedAt(m, volumes, name)
  {
    m := map[];
    for k := 0 to |volumes|
      invariant forall name :: AttachedAt(m, volumes[..k], name)
    {
      var next := AttachVolume(m, volumes[k]);
      var upTo := volumes[..k + 1];
      forall name: string ensures AttachedAt(next, upTo, name) {
        assert AttachedAt(m, volumes[..k], name);
        assert PartlyAttachedAt(next, m, volumes[k], volumes[k].attachedTo, name);
        assert upTo == volumes[..k] + [volumes[k]];
        FlatMapAppend(volumes[..k], volumes[k], AttachedTo(name));
      }
      m := next;
    }
    assert volumes[..|volumes|] == volumes;
  }

  /** The one container with the name is this one, position for position. */
  lemma NameDecides(a: Aliases, s: Snapshot, index: nat)
    requires index < |s.containers| && AliasesOf(a, s.containers)
    ensures var c := s.containers[index];
            (c.name != "" && Found(a.names, c.name) == Some(Some(index))) <==> UniqueName(s, c)
  {
    var c := s.containers[index];
    assert AliasAt(a.names, s.containers, ByName, c.name);
    ReadsAlone(a.names, s.containers, ByName, c.name);
  }

  method PushContainerEdges(s: Snapshot, index: nat, ids: Identities, a: Aliases, volumes: VolumesByName,
                            ghost each: GraphContainer -> seq<GraphEdge>) returns (edges: seq<GraphEdge>)
    requires each == ContainerEdges(s)
    requires index < |s.containers| && AliasesOf(a, s.containers)
    requires forall id :: CountsAt(ids, s, id)
    requires forall name :: AttachedAt(volumes, s.volumes, name)
    ensures edges == each(s.containers[index])
  {
    var c := s.containers[index];
    var networkEdges := PushNetworkEdges(s, c, ids);
    var volumeEdges: seq<GraphEdge> := [];
    NameDecides(a, s, index);
    assert AttachedAt(volumes, s.volumes, c.name);
    if c.name != "" && Found(a.names, c.name) == Some(Some(index)) {
      volumeEdges := PushVolumeEdges(s, c, ids, VolumesAt(volumes, c.name));
    }
    var dependencyEdges := PushDependencyEdges(s, index, ids, a);
    edges := networkEdges + volumeEdges + dependencyEdges;
  }

  method PushNodes(s: Snapshot) returns (nodes: seq<GraphNode>)
    ensures nodes == AllNodes(s)
  {
    var containers: seq<GraphNode> := [];
    for k := 0 to |s.containers|
      invariant containers == FlatMap(s.containers[..k], ContainerNodeOf)
    {
      FlatMapStep(s.containers, k, ContainerNodeOf);
      containers := containers + [GraphNode(s.containers[k].id, ContainerNode, s.containers[k].name)];
    }
    assert s.containers[..|s.containers|] == s.containers;
    var networks: seq<GraphNode> := [];
    for k := 0 to |s.networks|
      invariant networks == FlatMap(s.networks[..k], NetworkNodeOf)
    {
      FlatMapStep(s.networks, k, NetworkNodeOf);
      networks := networks + [GraphNode(s.networks[k].id, NetworkNode, s.networks[k].name)];
    }
    assert s.networks[..|s.networks|] == s.networks;
    var volumes: seq<GraphNode> := [];
    for k := 0 to |s.volumes|
      invariant volumes == FlatMap(s.volumes[..k], VolumeNodeOf)
    {
      FlatMapStep(s.volumes, k, VolumeNodeOf);
      volumes := volumes + [GraphNode(s.volumes[k].id, VolumeNode, s.volumes[k].name)];
    }
    assert s.volumes[..|s.volumes|] == s.volumes;
    nodes := containers + networks + volumes;
  }

  method BuildAllAliases(containers: seq<GraphContainer>) returns (a: Aliases)
    ensures AliasesOf(a, containers)
  {
    var ids := BuildAliases(containers, ById);
    var names := BuildAliases(containers, ByName);
    var roles := BuildAliases(containers, ByRole);
    a := Aliases(ids, names, roles);
  }

  method CountIdentities(s: Snapshot) returns (ids: Identities)
    ensures forall id :: CountsAt(ids, s, id)
  {
    var containers := CountContainers(s);
    var networks := CountNetworks(s, containers);
    ids := CountVolumes(s, networks);
  }

  method PushEdges(s: Snapshot) returns (edges: seq<GraphEdge>)
    ensures edges == AllEdges(s)
  {
    var aliases := BuildAllAliases(s.containers);
    var identities := CountIdentities(s);
    var volumes := VolumesByContainer(s.volumes);
    edges := PushAllEdges(s, identities, aliases, volumes, ContainerEdges(s));
  }

  method PushAllEdges(s: Snapshot, ids: Identities, a: Aliases, volumes: VolumesByName,
                      ghost each: GraphContainer -> seq<GraphEdge>) returns (edges: seq<GraphEdge>)
    requires AliasesOf(a, s.containers) && each == ContainerEdges(s)
    requires forall id :: CountsAt(ids, s, id)
    requires forall name :: AttachedAt(volumes, s.volumes, name)
    ensures edges == FlatMap(s.containers, each)
  {
    edges := [];
    for k := 0 to |s.containers|
      invariant edges == FlatMap(s.containers[..k], each)
    {
      var more := PushContainerEdges(s, k, ids, a, volumes, each);
      FlatMapStep(s.containers, k, each);
      edges := edges + more;
    }
    assert s.containers[..|s.containers|] == s.containers;
  }

  method DeriveGraph(s: Snapshot, nodeText: GraphNode -> string, edgeText: GraphEdge -> string) returns (g: GraphResponse)
    ensures g == GraphOf(s, nodeText, edgeText)
  {
    var nodes := PushNodes(s);
    var edges := PushEdges(s);
    g := GraphResponse(SortDedup(nodes, ByText(nodeText)), SortDedup(edges, ByText(edgeText)));
  }
}
