/** The topology graph is canonical, its relationships are well formed, and dependencies are exactly the safe ones. */
module GraphTheorems {
  import opened Prelude
  import opened Sorting
  import opened RuntimeModel
  import opened Graph

  // ---------------------------------------------------------------- where a relationship comes from

  predicate FromNetwork(s: Snapshot, c: GraphContainer, network: string, e: GraphEdge) {
    && c in s.containers && network in c.networks
    && UniqueContainer(s, c.id) && UniqueNetwork(s, network) && e == GraphEdge(c.id, network, ConnectedTo)
  }

  predicate FromVolume(s: Snapshot, c: GraphContainer, v: GraphVolume, e: GraphEdge) {
    && c in s.containers && v in s.volumes && c.name in v.attachedTo && UniqueName(s, c)
    && UniqueContainer(s, c.id) && UniqueNode(s, v.id) && e == GraphEdge(c.id, v.id, Mounts)
  }

  predicate FromDependency(s: Snapshot, c: GraphContainer, dependency: string, t: GraphContainer, e: GraphEdge) {
    && c in s.containers && dependency in c.dependsOn && Resolve(s.containers, dependency) == Some(t)
    && UniqueContainer(s, c.id) && UniqueContainer(s, t.id) && c != t && e == GraphEdge(c.id, t.id, ConnectedTo)
  }

  ghost predicate Justified(s: Snapshot, e: GraphEdge) {
    || (exists c, network :: FromNetwork(s, c, network, e))
    || (exists c, v :: FromVolume(s, c, v, e))
    || (exists c, dependency, t :: FromDependency(s, c, dependency, t, e))
  }

  lemma AttachedIs(volumes: seq<GraphVolume>, name: string, v: GraphVolume)
    ensures v in FlatMap(volumes, AttachedTo(name)) <==> v in volumes && name in v.attachedTo
  {
    if v in FlatMap(volumes, AttachedTo(name)) {
      var from := FlatMapOrigin(volumes, AttachedTo(name), v);
      var attached := FlatMapOrigin(from.attachedTo, AttachedHere(from, name), v);
    }
    if v in volumes && name in v.attachedTo {
      FlatMapMember(v.attachedTo, AttachedHere(v, name), name, v);
      FlatMapMember(volumes, AttachedTo(name), v, v);
    }
  }

  lemma EdgeIsJustified(s: Snapshot, e: GraphEdge)
    requires e in AllEdges(s)
    ensures Justified(s, e)
  {
    var c := FlatMapOrigin(s.containers, ContainerEdges(s), e);
    var volumes := FlatMap(s.volumes, AttachedTo(c.name));
    if e in FlatMap(c.networks, NetworkEdge(s, c)) {
      var network := FlatMapOrigin(c.networks, NetworkEdge(s, c), e);
      assert FromNetwork(s, c, network, e);
    } else if e in FlatMap(c.dependsOn, DependencyEdge(s, c)) {
      var dependency := FlatMapOrigin(c.dependsOn, DependencyEdge(s, c), e);
      assert FromDependency(s, c, dependency, Resolve(s.containers, dependency).value, e);
    } else {
      assert UniqueName(s, c) && e in FlatMap(volumes, VolumeEdge(s, c));
      var v := FlatMapOrigin(volumes, VolumeEdge(s, c), e);
      AttachedIs(s.volumes, c.name, v);
      assert FromVolume(s, c, v, e);
    }
  }

  lemma NetworkEdgeIsPushed(s: Snapshot, c: GraphContainer, network: string, e: GraphEdge)
    requires FromNetwork(s, c, network, e)
    ensures e in AllEdges(s)
  {
    FlatMapMember(c.networks, NetworkEdge(s, c), network, e);
    FlatMapMember(s.containers, ContainerEdges(s), c, e);
  }

  lemma VolumeEdgeIsPushed(s: Snapshot, c: GraphContainer, v: GraphVolume, e: GraphEdge)
    requires FromVolume(s, c, v, e)
    ensures e in AllEdges(s)
  {
    AttachedIs(s.volumes, c.name, v);
    FlatMapMember(FlatMap(s.volumes, AttachedTo(c.name)), VolumeEdge(s, c), v, e);
    FlatMapMember(s.containers, ContainerEdges(s), c, e);
  }

  lemma DependencyEdgeIsPushed(s: Snapshot, c: GraphContainer, dependency: string, t: GraphContainer, e: GraphEdge)
    requires FromDependency(s, c, dependency, t, e)
    ensures e in AllEdges(s)
  {
    FlatMapMember(c.dependsOn, DependencyEdge(s, c), dependency, e);
    FlatMapMember(s.containers, ContainerEdges(s), c, e);
  }

  /** A relationship is in the graph exactly when the snapshot justifies it. */
  lemma EdgesExactly(s: Snapshot, e: GraphEdge)
    ensures e in AllEdges(s) <==> Justified(s, e)
  {
    if e in AllEdges(s) {
      EdgeIsJustified(s, e);
    }
    if Justified(s, e) {
      if c, network :| FromNetwork(s, c, network, e) {
        NetworkEdgeIsPushed(s, c, network, e);
      } else if c, v :| FromVolume(s, c, v, e) {
        VolumeEdgeIsPushed(s, c, v, e);
      } else {
        var c, dependency, t :| FromDependency(s, c, dependency, t, e);
        DependencyEdgeIsPushed(s, c, dependency, t, e);
      }
    }
  }

  // ---------------------------------------------------------------- canonical

  /** The same records listed in another order. */
  predicate Rearranged(a: Snapshot, b: Snapshot) {
    && multiset(a.containers) == multiset(b.containers)
    && multiset(a.networks) == multiset(b.networks)
    && multiset(a.volumes) == multiset(b.volumes)
  }

  lemma SameCounts(a: Snapshot, b: Snapshot, id: string)
    requires Rearranged(a, b)
    ensures NodeCount(a, id) == NodeCount(b, id)
    ensures UniqueContainer(a, id) == UniqueContainer(b, id) && UniqueNetwork(a, id) == UniqueNetwork(b, id)
  {
    FilterRearranged(a.containers, b.containers, Matching(ById, id));
    FilterRearranged(a.networks, b.networks, NetworkWith(id));
    FilterRearranged(a.volumes, b.volumes, VolumeWith(id));
  }

  lemma SameLookup(a: seq<GraphContainer>, b: seq<GraphContainer>, kind: AliasKind, alias: string)
    requires multiset(a) == multiset(b)
    ensures LookupAlias(a, kind, alias) == LookupAlias(b, kind, alias)
  {
    FilterRearranged(a, b, Matching(kind, alias));
  }

  lemma SameResolution(a: seq<GraphContainer>, b: seq<GraphContainer>, dependency: string)
    requires multiset(a) == multiset(b)
    ensures Resolve(a, dependency) == Resolve(b, dependency)
  {
    var name := StripPrefix(dependency, CONTAINER_PREFIX);
    SameLookup(a, b, ByRole, name);
    SameLookup(a, b, ByName, name);
    SameLookup(a, b, ById, dependency);
  }

  lemma SameMembers<T>(a: seq<T>, b: seq<T>, x: T)
    requires multiset(a) == multiset(b) && x in a
    ensures x in b
  {
    assert x in multiset(b);
  }

  lemma JustifiedElsewhere(a: Snapshot, b: Snapshot, e: GraphEdge)
    requires Rearranged(a, b) && Justified(a, e)
    ensures Justified(b, e)
  {
    SameCounts(a, b, e.source);
    SameCounts(a, b, e.target);
    if c, network :| FromNetwork(a, c, network, e) {
      SameMembers(a.containers, b.containers, c);
      assert FromNetwork(b, c, network, e);
    } else if c, v :| FromVolume(a, c, v, e) {
      SameMembers(a.containers, b.containers, c);
      SameMembers(a.volumes, b.volumes, v);
      SameLookup(a.containers, b.containers, ByName, c.name);
      assert FromVolume(b, c, v, e);
    } else {
      var c, dependency, t :| FromDependency(a, c, dependency, t, e);
      SameMembers(a.containers, b.containers, c);
      SameResolution(a.containers, b.containers, dependency);
      assert FromDependency(b, c, dependency, t, e);
    }
  }

  lemma SameEdges(a: Snapshot, b: Snapshot)
    requires Rearranged(a, b)
    ensures forall e :: e in AllEdges(a) <==> e in AllEdges(b)
  {
    forall e ensures e in AllEdges(a) <==> e in AllEdges(b) {
      EdgesExactly(a, e);
      EdgesExactly(b, e);
      if Justified(a, e) {
        JustifiedElsewhere(a, b, e);
      }
      if Justified(b, e) {
        JustifiedElsewhere(b, a, e);
      }
    }
  }

  lemma FlatMapElsewhere<T(!new), U>(a: seq<T>, b: seq<T>, f: T -> seq<U>, y: U)
    requires multiset(a) == multiset(b) && y in FlatMap(a, f)
    ensures y in FlatMap(b, f)
  {
    var x := FlatMapOrigin(a, f, y);
    SameMembers(a, b, x);
    FlatMapMember(b, f, x, y);
  }

  lemma NodeElsewhere(a: Snapshot, b: Snapshot, n: GraphNode)
    requires Rearranged(a, b) && n in AllNodes(a)
    ensures n in AllNodes(b)
  {
    if n in FlatMap(a.containers, ContainerNodeOf) {
      FlatMapElsewhere(a.containers, b.containers, ContainerNodeOf, n);
    } else if n in FlatMap(a.networks, NetworkNodeOf) {
      FlatMapElsewhere(a.networks, b.networks, NetworkNodeOf, n);
    } else {
      FlatMapElsewhere(a.volumes, b.volumes, VolumeNodeOf, n);
    }
  }

  /** The serialized text tells records apart. */
  ghost predicate Tells<T(!new)>(text: T -> string) {
    forall a, b :: TellsApart(text, a, b)
  }

  ghost predicate TellsApart<T>(text: T -> string, a: T, b: T) {
    text(a) == text(b) ==> a == b
  }

  lemma ByTextIsOrder<T(!new)>(text: T -> string, s: seq<T>)
    requires Tells(text)
    ensures TotalPreorder(ByText(text)) && AntisymmetricOn(ByText(text), s)
  {
    forall a: T, b: T ensures TotalAt(ByText(text), a, b) {
      LexTotal(text(a), text(b));
    }
    forall a: T, b: T, c: T ensures TransitiveAt(ByText(text), a, b, c) {
      if LexLe(text(a), text(b)) && LexLe(text(b), text(c)) {
        LexTransitive(text(a), text(b), text(c));
      }
    }
    forall a, b | a in s && b in s ensures AntisymmetricAt(ByText(text), a, b) {
      if LexLe(text(a), text(b)) && LexLe(text(b), text(a)) {
        LexAntisymmetric(text(a), text(b));
        assert TellsApart(text, a, b);
      }
    }
  }

  /** Listing containers, networks and volumes in another order gives the identical graph. */
  lemma GraphIsCanonical(a: Snapshot, b: Snapshot, nodeText: GraphNode -> string, edgeText: GraphEdge -> string)
    requires Rearranged(a, b) && Tells(nodeText) && Tells(edgeText)
    ensures GraphOf(a, nodeText, edgeText) == GraphOf(b, nodeText, edgeText)
  {
    SameEdges(a, b);
    forall n ensures n in AllNodes(a) <==> n in AllNodes(b) {
      if n in AllNodes(a) {
        NodeElsewhere(a, b, n);
      }
      if n in AllNodes(b) {
        NodeElsewhere(b, a, n);
      }
    }
    ByTextIsOrder(nodeText, AllNodes(a));
    ByTextIsOrder(edgeText, AllEdges(a));
    SortDedupCanonical(AllNodes(a), AllNodes(b), ByText(nodeText));
    SortDedupCanonical(AllEdges(a), AllEdges(b), ByText(edgeText));
  }

  // ---------------------------------------------------------------- well-formed relationships

  /** A justified relationship joins two different identities, each carried by one record. */
  lemma JustifiedIsWellFormed(s: Snapshot, e: GraphEdge)
    requires Justified(s, e)
    ensures UniqueContainer(s, e.source) && UniqueNode(s, e.target) && e.source != e.target
  {
    if c, network :| FromNetwork(s, c, network, e) {
      assert e.source == e.target ==> NodeCount(s, e.source) >= 2;
    } else if c, v :| FromVolume(s, c, v, e) {
      FilterMembers(s.volumes, VolumeWith(v.id));
      assert v in Filter(s.volumes, VolumeWith(v.id));
      assert e.source == e.target ==> NodeCount(s, e.source) >= 2;
    } else {
      var c, dependency, t :| FromDependency(s, c, dependency, t, e);
      ResolvedIsListed(s.containers, dependency, t);
      if c.id == t.id {
        BothMatch(s.containers, c, t);
      }
    }
  }

  lemma BothMatch(containers: seq<GraphContainer>, c: GraphContainer, t: GraphContainer)
    requires c in containers && t in containers && c != t && c.id == t.id
    ensures |Filter(containers, Matching(ById, c.id))| >= 2
  {
    FilterMembers(containers, Matching(ById, c.id));
    var matching := Filter(containers, Matching(ById, c.id));
    assert c in matching && t in matching;
  }

  lemma OnlyIsListed(containers: seq<GraphContainer>, kind: AliasKind, alias: string, t: GraphContainer)
    requires LookupAlias(containers, kind, alias) == Only(t)
    ensures t in containers && AliasOf(kind, t) == alias
  {
    FilterMembers(containers, Matching(kind, alias));
    assert t in Filter(containers, Matching(kind, alias));
  }

  lemma ResolvedIsListed(containers: seq<GraphContainer>, dependency: string, t: GraphContainer)
    requires Resolve(containers, dependency) == Some(t)
    ensures t in containers
  {
    ResolvesExactly(containers, dependency, t);
    var name := StripPrefix(dependency, CONTAINER_PREFIX);
    if LookupAlias(containers, ByRole, name) == Only(t) {
      OnlyIsListed(containers, ByRole, name, t);
    } else if LookupAlias(containers, ByName, name) == Only(t) {
      OnlyIsListed(containers, ByName, name, t);
    } else {
      OnlyIsListed(containers, ById, dependency, t);
    }
  }

  /** Exactly one of the listed nodes carries the identity. */
  ghost predicate NamesOneNode(nodes: seq<GraphNode>, id: string) {
    && (exists i :: 0 <= i < |nodes| && nodes[i].id == id)
    && (forall i, j :: 0 <= i < j < |nodes| ==> nodes[i].id != id || nodes[j].id != id)
  }

  lemma NodesWithId<T(!new)>(records: seq<T>, p: T -> bool, x: T, y: T)
    requires x in records && y in records && p(x) && p(y) && x != y
    ensures |Filter(records, p)| >= 2
  {
    FilterMembers(records, p);
    assert x in Filter(records, p) && y in Filter(records, p);
  }

  /** How the nodes of an identity come from its records. */
  lemma NodeOrigin(s: Snapshot, n: GraphNode) returns (c: Option<GraphContainer>, w: Option<GraphNetwork>, v: Option<GraphVolume>)
    requires n in AllNodes(s)
    ensures match n.kind
            case ContainerNode => c.Some? && c.value in s.containers && n == GraphNode(c.value.id, ContainerNode, c.value.name)
            case NetworkNode => w.Some? && w.value in s.networks && n == GraphNode(w.value.id, NetworkNode, w.value.name)
            case VolumeNode => v.Some? && v.value in s.volumes && n == GraphNode(v.value.id, VolumeNode, v.value.name)
  {
    c, w, v := None, None, None;
    if n in FlatMap(s.containers, ContainerNodeOf) {
      var from := FlatMapOrigin(s.containers, ContainerNodeOf, n);
      c := Some(from);
    } else if n in FlatMap(s.networks, NetworkNodeOf) {
      var from := FlatMapOrigin(s.networks, NetworkNodeOf, n);
      w := Some(from);
    } else {
      var from := FlatMapOrigin(s.volumes, VolumeNodeOf, n);
      v := Some(from);
    }
  }

  function KindCount(s: Snapshot, kind: GraphNodeKind, id: string): nat {
    match kind
    case ContainerNode => |Filter(s.containers, Matching(ById, id))|
    case NetworkNode => |Filter(s.networks, NetworkWith(id))|
    case VolumeNode => |Filter(s.volumes, VolumeWith(id))|
  }

  lemma NodeIsCounted(s: Snapshot, n: GraphNode)
    requires n in AllNodes(s)
    ensures KindCount(s, n.kind, n.id) >= 1
  {
    var c, w, v := NodeOrigin(s, n);
    match n.kind
    case ContainerNode =>
      FilterMembers(s.containers, Matching(ById, n.id));
      assert c.value in Filter(s.containers, Matching(ById, n.id));
    case NetworkNode =>
      FilterMembers(s.networks, NetworkWith(n.id));
      assert w.value in Filter(s.networks, NetworkWith(n.id));
    case VolumeNode =>
      FilterMembers(s.volumes, VolumeWith(n.id));
      assert v.value in Filter(s.volumes, VolumeWith(n.id));
  }

  lemma TwoNodesTwoRecords(s: Snapshot, x: GraphNode, y: GraphNode)
    requires x in AllNodes(s) && y in AllNodes(s) && x != y && x.id == y.id
    ensures NodeCount(s, x.id) >= 2
  {
    NodeIsCounted(s, x);
    NodeIsCounted(s, y);
    if x.kind == y.kind {
      var c, w, v := NodeOrigin(s, x);
      var d, u, t := NodeOrigin(s, y);
      match x.kind
      case ContainerNode => NodesWithId(s.containers, Matching(ById, x.id), c.value, d.value);
      case NetworkNode => NodesWithId(s.networks, NetworkWith(x.id), w.value, u.value);
      case VolumeNode => NodesWithId(s.volumes, VolumeWith(x.id), v.value, t.value);
    }
  }

  lemma CountedHasNode(s: Snapshot, id: string) returns (n: GraphNode)
    requires NodeCount(s, id) >= 1
    ensures n in AllNodes(s) && n.id == id
  {
    FilterMembers(s.containers, Matching(ById, id));
    FilterMembers(s.networks, NetworkWith(id));
    FilterMembers(s.volumes, VolumeWith(id));
    if Filter(s.containers, Matching(ById, id)) != [] {
      var c := Filter(s.containers, Matching(ById, id))[0];
      assert c in Filter(s.containers, Matching(ById, id));
      n := ContainerNodeOf(c)[0];
      FlatMapMember(s.containers, ContainerNodeOf, c, n);
    } else if Filter(s.networks, NetworkWith(id)) != [] {
      var w := Filter(s.networks, NetworkWith(id))[0];
      assert w in Filter(s.networks, NetworkWith(id));
      n := NetworkNodeOf(w)[0];
      FlatMapMember(s.networks, NetworkNodeOf, w, n);
    } else {
      var v := Filter(s.volumes, VolumeWith(id))[0];
      assert v in Filter(s.volumes, VolumeWith(id));
      n := VolumeNodeOf(v)[0];
      FlatMapMember(s.volumes, VolumeNodeOf, v, n);
    }
  }

  lemma UniqueNamesOneNode(s: Snapshot, nodeText: GraphNode -> string, id: string)
    requires Tells(nodeText) && UniqueNode(s, id)
    ensures NamesOneNode(SortDedup(AllNodes(s), ByText(nodeText)), id)
  {
    var nodes := SortDedup(AllNodes(s), ByText(nodeText));
    ByTextIsOrder(nodeText, AllNodes(s));
    SortDedupStrict(AllNodes(s), ByText(nodeText));
    var n := CountedHasNode(s, id);
    assert n in nodes;
    forall i, j | 0 <= i < j < |nodes| ensures nodes[i].id != id || nodes[j].id != id {
      assert nodes[i] in nodes && nodes[j] in nodes && nodes[i] != nodes[j];
      if nodes[i].id == id && nodes[j].id == id {
        TwoNodesTwoRecords(s, nodes[i], nodes[j]);
      }
    }
  }

  /** Both ends of every relationship of the graph name exactly one of its nodes, and they differ. */
  lemma EdgesAreWellFormed(s: Snapshot, nodeText: GraphNode -> string, edgeText: GraphEdge -> string, e: GraphEdge)
    requires Tells(nodeText) && e in GraphOf(s, nodeText, edgeText).edges
    ensures var nodes := GraphOf(s, nodeText, edgeText).nodes;
            NamesOneNode(nodes, e.source) && NamesOneNode(nodes, e.target) && e.source != e.target
  {
    EdgesExactly(s, e);
    JustifiedIsWellFormed(s, e);
    UniqueNamesOneNode(s, nodeText, e.source);
    UniqueNamesOneNode(s, nodeText, e.target);
  }

  // ---------------------------------------------------------------- dependencies

  ghost predicate DependsSafely(s: Snapshot, c: GraphContainer, t: GraphContainer) {
    && (exists dependency :: dependency in c.dependsOn && AgreesOn(s.containers, dependency, t))
    && UniqueContainer(s, c.id) && UniqueContainer(s, t.id)
  }

  /** The relationship of a dependency, in terms of the aliases it is resolved by. */
  lemma DependencyIsSafe(s: Snapshot, c: GraphContainer, t: GraphContainer)
    requires c in s.containers && t in s.containers && c != t
    ensures GraphEdge(c.id, t.id, ConnectedTo) in AllEdges(s) && UniqueContainer(s, t.id) <==> DependsSafely(s, c, t)
  {
    var e := GraphEdge(c.id, t.id, ConnectedTo);
    if DependsSafely(s, c, t) {
      var dependency :| dependency in c.dependsOn && AgreesOn(s.containers, dependency, t);
      ResolvesExactly(s.containers, dependency, t);
      DependencyEdgeIsPushed(s, c, dependency, t, e);
    }
    if e in AllEdges(s) && UniqueContainer(s, t.id) {
      EdgesExactly(s, e);
      OnlyADependency(s, c, t);
    }
  }

  /** A relationship to a container's identity can only come from a dependency of the one container with the source. */
  lemma OnlyADependency(s: Snapshot, c: GraphContainer, t: GraphContainer)
    requires c in s.containers && t in s.containers && UniqueContainer(s, t.id)
    requires Justified(s, GraphEdge(c.id, t.id, ConnectedTo))
    ensures DependsSafely(s, c, t)
  {
    var e := GraphEdge(c.id, t.id, ConnectedTo);
    JustifiedIsWellFormed(s, e);
    if from, network :| FromNetwork(s, from, network, e) {
      assert false;
    } else {
      var from, dependency, to :| FromDependency(s, from, dependency, to, e);
      ResolvesExactly(s.containers, dependency, to);
      ResolvedIsListed(s.containers, dependency, to);
      if from != c {
        BothMatch(s.containers, from, c);
      }
      if to != t {
        BothMatch(s.containers, to, t);
      }
    }
  }
}
