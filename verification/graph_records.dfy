/** The graph read off the records themselves: which fields make a relationship, and which ambiguities suppress it. */
module GraphRecords {
  import opened Prelude
  import opened RuntimeModel
  import opened Graph
  import opened GraphTheorems

  // ---------------------------------------------------------------- identities on the records

  function ContainerHas(id: string): GraphContainer -> bool {
    (c: GraphContainer) => c.id == id
  }

  function RoleIs(name: string): GraphContainer -> bool {
    (c: GraphContainer) => c.role == name
  }

  function NameIs(name: string): GraphContainer -> bool {
    (c: GraphContainer) => c.name == name
  }

  function NetworkHas(id: string): GraphNetwork -> bool {
    (n: GraphNetwork) => n.id == id
  }

  function VolumeHas(id: string): GraphVolume -> bool {
    (v: GraphVolume) => v.id == id
  }

  /** One container has the identity, and no other record of any kind. */
  ghost predicate SoleContainer(s: Snapshot, id: string) {
    && id != "" && (exists c :: One(s.containers, ContainerHas(id), c))
    && NoneOf(s.networks, NetworkHas(id)) && NoneOf(s.volumes, VolumeHas(id))
  }

  ghost predicate SoleNetwork(s: Snapshot, id: string) {
    && id != "" && (exists n :: One(s.networks, NetworkHas(id), n))
    && NoneOf(s.containers, ContainerHas(id)) && NoneOf(s.volumes, VolumeHas(id))
  }

  ghost predicate SoleVolume(s: Snapshot, v: GraphVolume) {
    && v.id != "" && One(s.volumes, VolumeHas(v.id), v)
    && NoneOf(s.containers, ContainerHas(v.id)) && NoneOf(s.networks, NetworkHas(v.id))
  }

  lemma OneIsCounted<T(!new)>(s: seq<T>, p: T -> bool, q: T -> bool)
    requires forall x :: p(x) == q(x)
    ensures |Filter(s, p)| == 1 <==> exists x :: One(s, q, x)
    ensures |Filter(s, p)| == 0 <==> NoneOf(s, q)
  {
    SamePointwise(s, p, q);
    var kept := Filter(s, q);
    if |kept| == 1 {
      OneFiltered(s, q, kept[0]);
      assert kept == [kept[0]];
    }
    if x :| One(s, q, x) {
      OneFiltered(s, q, x);
    }
    if |kept| == 0 {
      forall i | 0 <= i < |s| ensures !q(s[i]) {
        OneFiltered(s, q, s[i]);
      }
    }
    if NoneOf(s, q) && kept != [] {
      OneFiltered(s, q, kept[0]);
    }
  }

  lemma IdentitiesAre(s: Snapshot, id: string)
    ensures UniqueContainer(s, id) <==> SoleContainer(s, id)
    ensures UniqueNetwork(s, id) <==> SoleNetwork(s, id)
  {
    OneIsCounted(s.containers, Matching(ById, id), ContainerHas(id));
    OneIsCounted(s.networks, NetworkWith(id), NetworkHas(id));
    OneIsCounted(s.volumes, VolumeWith(id), VolumeHas(id));
  }

  lemma VolumeIs(s: Snapshot, v: GraphVolume)
    requires v in s.volumes
    ensures UniqueNode(s, v.id) <==> SoleVolume(s, v)
  {
    OneIsCounted(s.containers, Matching(ById, v.id), ContainerHas(v.id));
    OneIsCounted(s.networks, NetworkWith(v.id), NetworkHas(v.id));
    SamePointwise(s.volumes, VolumeWith(v.id), VolumeHas(v.id));
    OneFiltered(s.volumes, VolumeHas(v.id), v);
    FilterMembers(s.volumes, VolumeHas(v.id));
    assert v in Filter(s.volumes, VolumeHas(v.id));
    if |Filter(s.volumes, VolumeHas(v.id))| == 1 {
      assert Filter(s.volumes, VolumeHas(v.id)) == [v];
    }
  }

  // ---------------------------------------------------------------- references

  /** What a reference names once its `container_` prefix is off. */
  predicate Refers(dependency: string, name: string) {
    if "container_" <= dependency then dependency == "container_" + name else dependency == name
  }

  /** A field matches nothing, or this container alone. */
  ghost predicate Unopposed(containers: seq<GraphContainer>, p: GraphContainer -> bool, t: GraphContainer) {
    NoneOf(containers, p) || One(containers, p, t)
  }

  /**
   The reference means this container: its role or name is the name, or its identity the whole reference, no other
   container carries either in the same field, and no matching field points elsewhere.
   */
  ghost predicate Means(containers: seq<GraphContainer>, dependency: string, name: string, t: GraphContainer) {
    && dependency != "" && name != "" && Refers(dependency, name) && t in containers
    && (t.role == name || t.name == name || t.id == dependency)
    && Unopposed(containers, RoleIs(name), t) && Unopposed(containers, NameIs(name), t)
    && Unopposed(containers, ContainerHas(dependency), t)
  }

  lemma PrefixText(prefix: string, dependency: string, name: string)
    requires prefix == "container_" && name == StripPrefix(dependency, prefix)
    ensures Refers(dependency, name)
    ensures forall other :: Refers(dependency, other) ==> other == name
  {
    if prefix <= dependency {
      assert dependency == prefix + dependency[|prefix|..];
      forall other | Refers(dependency, other) ensures other == name {
        assert (prefix + other)[|prefix|..] == other;
      }
    }
  }

  lemma LookupIs(containers: seq<GraphContainer>, kind: AliasKind, alias: string, p: GraphContainer -> bool, t: GraphContainer)
    requires alias != "" && forall c :: p(c) == Matching(kind, alias)(c)
    ensures LookupAlias(containers, kind, alias) == Absent <==> NoneOf(containers, p)
    ensures LookupAlias(containers, kind, alias) == Only(t) <==> One(containers, p, t)
  {
    SamePointwise(containers, p, Matching(kind, alias));
    OneFiltered(containers, p, t);
    var matching := Filter(containers, p);
    if |matching| == 1 {
      assert matching == [matching[0]];
    }
  }

  lemma ThreeLookups(containers: seq<GraphContainer>, dependency: string, name: string, t: GraphContainer)
    requires dependency != "" && name != ""
    ensures AbsentOr(LookupAlias(containers, ByRole, name), t) <==> Unopposed(containers, RoleIs(name), t)
    ensures AbsentOr(LookupAlias(containers, ByName, name), t) <==> Unopposed(containers, NameIs(name), t)
    ensures AbsentOr(LookupAlias(containers, ById, dependency), t) <==> Unopposed(containers, ContainerHas(dependency), t)
    ensures LookupAlias(containers, ByRole, name) == Only(t) <==> One(containers, RoleIs(name), t)
    ensures LookupAlias(containers, ByName, name) == Only(t) <==> One(containers, NameIs(name), t)
    ensures LookupAlias(containers, ById, dependency) == Only(t) <==> One(containers, ContainerHas(dependency), t)
  {
    LookupIs(containers, ByRole, name, RoleIs(name), t);
    LookupIs(containers, ByName, name, NameIs(name), t);
    LookupIs(containers, ById, dependency, ContainerHas(dependency), t);
  }

  lemma OneIsMember(containers: seq<GraphContainer>, p: GraphContainer -> bool, t: GraphContainer)
    ensures One(containers, p, t) ==> t in containers && p(t)
    ensures t in containers && p(t) && Unopposed(containers, p, t) ==> One(containers, p, t)
  {
    if t in containers && p(t) {
      var i :| 0 <= i < |containers| && containers[i] == t;
    }
  }

  lemma AgreementIsMeaning(containers: seq<GraphContainer>, dependency: string, name: string, t: GraphContainer)
    requires name == StripPrefix(dependency, CONTAINER_PREFIX)
    ensures AgreesOn(containers, dependency, t) <==> Means(containers, dependency, name, t)
  {
    PrefixText(CONTAINER_PREFIX, dependency, name);
    if dependency != "" && name != "" {
      ThreeLookups(containers, dependency, name, t);
      OneIsMember(containers, RoleIs(name), t);
      OneIsMember(containers, NameIs(name), t);
      OneIsMember(containers, ContainerHas(dependency), t);
    }
  }

  ghost predicate MeansSome(containers: seq<GraphContainer>, dependency: string, t: GraphContainer) {
    exists name :: Means(containers, dependency, name, t)
  }

  /** A reference resolves to a container exactly when it means it. */
  lemma ResolvesOnRecords(containers: seq<GraphContainer>, dependency: string, t: GraphContainer)
    ensures Resolve(containers, dependency) == Some(t) <==> MeansSome(containers, dependency, t)
  {
    var name := StripPrefix(dependency, CONTAINER_PREFIX);
    ResolvesExactly(containers, dependency, t);
    AgreementIsMeaning(containers, dependency, name, t);
    PrefixText(CONTAINER_PREFIX, dependency, name);
  }

  // ---------------------------------------------------------------- relationships on the records

  /** The container is a member of the network. */
  ghost predicate Membership(s: Snapshot, c: GraphContainer, e: GraphEdge) {
    e.relationship == ConnectedTo && e.target in c.networks && SoleNetwork(s, e.target)
  }

  /** The volume is attached to the container by its name, which no other container has. */
  ghost predicate Attachment(s: Snapshot, c: GraphContainer, v: GraphVolume, e: GraphEdge) {
    && e.relationship == Mounts && e.target == v.id && c.name != "" && One(s.containers, NameIs(c.name), c)
    && v in s.volumes && c.name in v.attachedTo && SoleVolume(s, v)
  }

  ghost predicate Dependency(s: Snapshot, c: GraphContainer, dependency: string, t: GraphContainer, e: GraphEdge) {
    && e.relationship == ConnectedTo && e.target == t.id && c != t && dependency in c.dependsOn
    && MeansSome(s.containers, dependency, t) && SoleContainer(s, t.id)
  }

  ghost predicate Stated(s: Snapshot, c: GraphContainer, e: GraphEdge) {
    && c in s.containers && e.source == c.id && SoleContainer(s, c.id)
    && (Membership(s, c, e) || (exists v :: Attachment(s, c, v, e)) || (exists dependency, t :: Dependency(s, c, dependency, t, e)))
  }

  lemma NameIsUnique(s: Snapshot, c: GraphContainer)
    ensures UniqueName(s, c) <==> c.name != "" && One(s.containers, NameIs(c.name), c)
  {
    if c.name != "" {
      LookupIs(s.containers, ByName, c.name, NameIs(c.name), c);
    }
  }

  lemma JustifiedIsStated(s: Snapshot, e: GraphEdge)
    requires Justified(s, e)
    ensures exists c :: Stated(s, c, e)
  {
    IdentitiesAre(s, e.source);
    IdentitiesAre(s, e.target);
    if c, network :| FromNetwork(s, c, network, e) {
      assert Stated(s, c, e);
    } else if c, v :| FromVolume(s, c, v, e) {
      NameIsUnique(s, c);
      VolumeIs(s, v);
      assert Attachment(s, c, v, e);
      assert Stated(s, c, e);
    } else {
      var c, dependency, t :| FromDependency(s, c, dependency, t, e);
      ResolvesOnRecords(s.containers, dependency, t);
      assert Dependency(s, c, dependency, t, e);
      assert Stated(s, c, e);
    }
  }

  lemma StatedIsJustified(s: Snapshot, c: GraphContainer, e: GraphEdge)
    requires Stated(s, c, e)
    ensures Justified(s, e)
  {
    IdentitiesAre(s, c.id);
    IdentitiesAre(s, e.target);
    if Membership(s, c, e) {
      assert FromNetwork(s, c, e.target, e);
    } else if v :| Attachment(s, c, v, e) {
      NameIsUnique(s, c);
      VolumeIs(s, v);
      assert FromVolume(s, c, v, e);
    } else {
      var dependency, t :| Dependency(s, c, dependency, t, e);
      ResolvesOnRecords(s.containers, dependency, t);
      assert FromDependency(s, c, dependency, t, e);
    }
  }

  /** A relationship is in the graph exactly when the records state it: membership, attachment or dependency. */
  lemma EdgesOnRecords(s: Snapshot, nodeText: GraphNode -> string, edgeText: GraphEdge -> string, e: GraphEdge)
    requires Tells(edgeText)
    ensures e in GraphOf(s, nodeText, edgeText).edges <==> exists c :: Stated(s, c, e)
  {
    ByTextIsOrder(edgeText, AllEdges(s));
    EdgesExactly(s, e);
    if Justified(s, e) {
      JustifiedIsStated(s, e);
    }
    if c :| Stated(s, c, e) {
      StatedIsJustified(s, c, e);
    }
  }

  ghost predicate NodeStated(s: Snapshot, n: GraphNode) {
    match n.kind
    case ContainerNode => exists c :: c in s.containers && n.id == c.id && n.text == c.name
    case NetworkNode => exists w :: w in s.networks && n.id == w.id && n.text == w.name
    case VolumeNode => exists v :: v in s.volumes && n.id == v.id && n.text == v.name
  }

  lemma StatedNodeIsListed(s: Snapshot, n: GraphNode)
    requires NodeStated(s, n)
    ensures n in AllNodes(s)
  {
    match n.kind
    case ContainerNode =>
      var c :| c in s.containers && n.id == c.id && n.text == c.name;
      FlatMapMember(s.containers, ContainerNodeOf, c, n);
    case NetworkNode =>
      var w :| w in s.networks && n.id == w.id && n.text == w.name;
      FlatMapMember(s.networks, NetworkNodeOf, w, n);
    case VolumeNode =>
      var v :| v in s.volumes && n.id == v.id && n.text == v.name;
      FlatMapMember(s.volumes, VolumeNodeOf, v, n);
  }

  /** The nodes are the records, each with its identity, kind and name. */
  lemma NodesOnRecords(s: Snapshot, nodeText: GraphNode -> string, edgeText: GraphEdge -> string, n: GraphNode)
    requires Tells(nodeText)
    ensures n in GraphOf(s, nodeText, edgeText).nodes <==> NodeStated(s, n)
  {
    ByTextIsOrder(nodeText, AllNodes(s));
    if n in AllNodes(s) {
      var c, w, v := NodeOrigin(s, n);
    }
    if NodeStated(s, n) {
      StatedNodeIsListed(s, n);
    }
  }

  /**
   Two different containers are joined exactly when one declares a reference that means the other, and both identities
   are unique.
   */
  lemma DependencyExactly(s: Snapshot, c: GraphContainer, t: GraphContainer)
    requires c in s.containers && t in s.containers && c != t
    ensures GraphEdge(c.id, t.id, ConnectedTo) in AllEdges(s) && SoleContainer(s, t.id)
            <==> && (exists dependency :: dependency in c.dependsOn && MeansSome(s.containers, dependency, t))
                 && SoleContainer(s, c.id) && SoleContainer(s, t.id)
  {
    DependencyIsSafe(s, c, t);
    IdentitiesAre(s, c.id);
    IdentitiesAre(s, t.id);
    if dependency :| dependency in c.dependsOn && AgreesOn(s.containers, dependency, t) {
      ResolvesExactly(s.containers, dependency, t);
      ResolvesOnRecords(s.containers, dependency, t);
    }
    if dependency :| dependency in c.dependsOn && MeansSome(s.containers, dependency, t) {
      ResolvesExactly(s.containers, dependency, t);
      ResolvesOnRecords(s.containers, dependency, t);
    }
  }
}
