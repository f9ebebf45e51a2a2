/**
 Declared Compose mounts that are absent from their container: an exact private binding of declaration to
 container, failing closed on anything ambiguous.
 */
module ComposeBinding {
  import opened Prelude
  import opened Sorting
  import opened RuntimeModel
  import opened Identity
  import opened Evidence
  import opened ComposeModel
  import opened FindingRules
  import Decimal

  const MAX_CONTAINERS: nat := 64
  const MAX_CONFIG_FILES: nat := 8
  const MAX_SERVICES: nat := 128
  const MAX_MOUNTS: nat := 256
  const MAX_MOUNTS_PER_CONTAINER: nat := 128
  const MAX_PRIVATE_ID_CHARS: nat := 259

  datatype BoundContainer = BoundContainer(
    containerId: string, project: string, service: string, configFiles: set<string>, mounts: seq<ContainerMount>)

  datatype Scan = Scan(
    files: seq<string>, services: seq<string>, mounts: seq<ComposeMount>, severities: seq<Severity>)

  datatype Binding = Binding(
    project: string, configFiles: set<string>, containers: seq<BoundContainer>, collectedAt: nat,
    providerRevision: string, isFresh: bool)

  // ---------------------------------------------------------------- gates

  predicate ContainerFits(c: BoundContainer) {
    && LowerHex(c.containerId, 64)
    && |c.project| <= MAX_PRIVATE_ID_CHARS
    && c.service != "" && |c.service| <= MAX_PRIVATE_ID_CHARS
    && |c.configFiles| <= MAX_CONFIG_FILES
    && (forall path :: path in c.configFiles ==> |path| <= MAX_PRIVATE_ID_CHARS)
    && |c.mounts| <= MAX_MOUNTS_PER_CONTAINER
  }

  /** Caps, freshness and diagnostics; anything out of bounds emits nothing at all. */
  predicate Open(scan: Scan, b: Binding) {
    && b.isFresh
    && b.project != "" && |b.project| <= MAX_PRIVATE_ID_CHARS
    && b.configFiles != {} && |b.configFiles| <= MAX_CONFIG_FILES
    && b.providerRevision != ""
    && |b.containers| <= MAX_CONTAINERS && |scan.services| <= MAX_SERVICES && |scan.mounts| <= MAX_MOUNTS
    && (set path | path in scan.files) == b.configFiles
    && (forall i :: 0 <= i < |scan.severities| ==> scan.severities[i] == Info)
    && (forall path :: path in b.configFiles ==> |path| <= MAX_PRIVATE_ID_CHARS)
    && (forall i :: 0 <= i < |b.containers| ==> ContainerFits(b.containers[i]))
  }

  predicate MountsMatch(declared: ComposeMount, runtime: ContainerMount) {
    && declared.kind == runtime.kind && declared.target == runtime.target
    && match declared.kind
       case Bind =>
         runtime.source == (if declared.resolvedSource.Some? then declared.resolvedSource else declared.source)
       case NamedVolume => runtime.source == declared.source
       case _ => false
  }

  // ---------------------------------------------------------------- the exact binding rule

  predicate ExactlyBound(b: Binding, c: BoundContainer) {
    c.project == b.project && c.configFiles == b.configFiles
  }

  function BoundTo(b: Binding, service: string): BoundContainer -> bool {
    (c: BoundContainer) => ExactlyBound(b, c) && c.service == service
  }

  function WithContainerId(id: string): BoundContainer -> bool {
    (c: BoundContainer) => c.containerId == id
  }

  /** The one container with the exact project, config and service binding, if its identity occurs once. */
  function BoundContainerOf(b: Binding, service: string): Option<BoundContainer> {
    var bound := Filter(b.containers, BoundTo(b, service));
    if |bound| == 1 && |Filter(b.containers, WithContainerId(bound[0].containerId))| == 1 then Some(bound[0]) else None
  }

  predicate Mounted(mount: ComposeMount, c: BoundContainer) {
    exists i :: 0 <= i < |c.mounts| && MountsMatch(mount, c.mounts[i])
  }

  /** A bind or named volume whose bound container has no matching mount. */
  predicate Missing(scan: Scan, b: Binding, i: nat)
    requires i < |scan.mounts|
  {
    var mount := scan.mounts[i];
    var container := BoundContainerOf(b, mount.service);
    (mount.kind.Bind? || mount.kind.NamedVolume?) && container.Some? && !Mounted(mount, container.value)
  }

  function OrdinalSeed(containerId: string, ordinal: nat): string {
    containerId + US + Decimal.Print(ordinal)
  }

  function BindingEvidence(prefix: string, provider: EvidenceProvider, kind: EvidenceKind, assertion: AssertionKind,
                           subject: string, b: Binding, seed: string, digest: string -> HexDigest): EvidenceRef
  {
    EvidenceRef(6, prefix + "_" + digest(seed), provider, kind, assertion, subject, b.collectedAt, b.providerRevision,
                None, FreshEvidence)
  }

  function MountFinding(b: Binding, containerId: string, ordinal: nat, digest: string -> HexDigest): Finding {
    var seed := OrdinalSeed(containerId, ordinal);
    var subject := "compose_runtime_binding_" + digest(containerId);
    Finding(Prefix(MountMissingAtContainer) + digest(seed), MountMissingAtContainer, subject, subject,
            [BindingEvidence("compose_declared_mount", ComposeEvidence, ComposeDeclaredMount, Declared, subject, b, seed, digest),
             BindingEvidence("docker_compose_runtime_binding", DockerEvidence, DockerComposeRuntimeBinding, Observed, subject,
                             b, seed, digest)])
  }

  /** What declared mount `i` leads to. */
  function MountVerdict(scan: Scan, b: Binding, digest: string -> HexDigest, i: nat): seq<Finding>
    requires i < |scan.mounts|
  {
    if !Missing(scan, b, i) then []
    else [MountFinding(b, BoundContainerOf(b, scan.mounts[i].service).value.containerId, i, digest)]
  }

  /** The findings of the first `k` declared mounts, in declaration order. */
  function MissingUpTo(scan: Scan, b: Binding, digest: string -> HexDigest, k: nat): seq<Finding>
    requires k <= |scan.mounts|
  {
    if k == 0 then [] else MissingUpTo(scan, b, digest, k - 1) + MountVerdict(scan, b, digest, k - 1)
  }

  function IdLe(): (Finding, Finding) -> bool {
    (a: Finding, b: Finding) => LexLe(a.id, b.id)
  }

  function MountFindings(scan: Scan, b: Binding, digest: string -> HexDigest): seq<Finding> {
    if !Open(scan, b) then [] else Sort(MissingUpTo(scan, b, digest, |scan.mounts|), IdLe())
  }

  // ---------------------------------------------------------------- the derivation

  ghost predicate IdCountAt(counts: map<string, nat>, containers: seq<BoundContainer>, id: string) {
    CountOf(counts, id) == |Filter(containers, WithContainerId(id))|
  }

  ghost predicate ServiceCountAt(counts: map<string, nat>, b: Binding, containers: seq<BoundContainer>, service: string) {
    CountOf(counts, service) == |Filter(containers, BoundTo(b, service))|
  }

  function Increment(counts: map<string, nat>, key: string): map<string, nat> {
    counts[key := CountOf(counts, key) + 1]
  }

  lemma CountsGrow(b: Binding, containers: seq<BoundContainer>, k: nat, key: string)
    requires k < |containers|
    ensures |Filter(containers[..k + 1], WithContainerId(key))|
            == |Filter(containers[..k], WithContainerId(key))| + (if containers[k].containerId == key then 1 else 0)
    ensures |Filter(containers[..k + 1], BoundTo(b, key))|
            == |Filter(containers[..k], BoundTo(b, key))|
               + (if ExactlyBound(b, containers[k]) && containers[k].service == key then 1 else 0)
  {
    assert containers[..k + 1] == containers[..k] + [containers[k]];
    FilterAppend(containers[..k], containers[k], WithContainerId(key));
    FilterAppend(containers[..k], containers[k], BoundTo(b, key));
  }

  method CountContainers(b: Binding) returns (ids: map<string, nat>, services: map<string, nat>)
    ensures forall id :: IdCountAt(ids, b.containers, id)
    ensures forall service :: ServiceCountAt(services, b, b.containers, service)
  {
    ids, services := map[], map[];
    for k := 0 to |b.containers|
      invariant forall id :: IdCountAt(ids, b.containers[..k], id)
      invariant forall service :: ServiceCountAt(services, b, b.containers[..k], service)
    {
      var c := b.containers[k];
      var nextIds := Increment(ids, c.containerId);
      var nextServices := if ExactlyBound(b, c) then Increment(services, c.service) else services;
      var upTo := b.containers[..k + 1];
      forall key: string ensures IdCountAt(nextIds, upTo, key) && ServiceCountAt(nextServices, b, upTo, key) {
        assert IdCountAt(ids, b.containers[..k], key) && ServiceCountAt(services, b, b.containers[..k], key);
        CountsGrow(b, b.containers, k, key);
      }
      ids, services := nextIds, nextServices;
    }
    assert b.containers[..|b.containers|] == b.containers;
  }

  /** The search for the first container that meets every condition finds the one bound container, or nothing. */
  method FindCandidate(b: Binding, service: string, ids: map<string, nat>, services: map<string, nat>)
    returns (candidate: Option<BoundContainer>)
    requires forall id :: IdCountAt(ids, b.containers, id)
    requires forall name :: ServiceCountAt(services, b, b.containers, name)
    requires forall i :: 0 <= i < |b.containers| ==> b.containers[i].containerId != ""
    ensures candidate == BoundContainerOf(b, service)
  {
    for k := 0 to |b.containers|
      invariant forall i :: 0 <= i < k ==> !Meets(b, service, b.containers[i])
    {
      var c := b.containers[k];
      assert IdCountAt(ids, b.containers, c.containerId) && ServiceCountAt(services, b, b.containers, c.service);
      if ExactlyBound(b, c) && c.service == service && c.containerId != ""
         && CountOf(ids, c.containerId) == 1 && CountOf(services, c.service) == 1
      {
        MeetsIsBound(b, service, c);
        return Some(c);
      }
    }
    NoneMeets(b, service);
    return None;
  }

  lemma NoneMeets(b: Binding, service: string)
    requires forall i :: 0 <= i < |b.containers| ==> !Meets(b, service, b.containers[i])
    ensures BoundContainerOf(b, service).None?
  {
    FilterMembers(b.containers, BoundTo(b, service));
    var bound := Filter(b.containers, BoundTo(b, service));
    if |bound| == 1 {
      assert bound[0] in bound;
      var i :| 0 <= i < |b.containers| && b.containers[i] == bound[0];
      assert !Meets(b, service, b.containers[i]);
    }
  }

  predicate Meets(b: Binding, service: string, c: BoundContainer) {
    && ExactlyBound(b, c) && c.service == service
    && |Filter(b.containers, WithContainerId(c.containerId))| == 1 && |Filter(b.containers, BoundTo(b, service))| == 1
  }

  lemma MeetsIsBound(b: Binding, service: string, c: BoundContainer)
    requires c in b.containers && Meets(b, service, c)
    ensures BoundContainerOf(b, service) == Some(c)
  {
    FilterMembers(b.containers, BoundTo(b, service));
    assert c in Filter(b.containers, BoundTo(b, service));
  }

  method JudgeMount(scan: Scan, b: Binding, i: nat, ids: map<string, nat>, services: map<string, nat>,
                    digest: string -> HexDigest) returns (verdict: seq<Finding>)
    requires Open(scan, b) && i < |scan.mounts|
    requires forall id :: IdCountAt(ids, b.containers, id)
    requires forall name :: ServiceCountAt(services, b, b.containers, name)
    ensures verdict == MountVerdict(scan, b, digest, i)
  {
    var mount := scan.mounts[i];
    if !mount.kind.Bind? && !mount.kind.NamedVolume? {
      return [];
    }
    OpenHasIds(scan, b);
    var candidate := FindCandidate(b, mount.service, ids, services);
    if candidate.None? || Mounted(mount, candidate.value) {
      return [];
    }
    return [MountFinding(b, candidate.value.containerId, i, digest)];
  }

  lemma OpenHasIds(scan: Scan, b: Binding)
    requires Open(scan, b)
    ensures forall i :: 0 <= i < |b.containers| ==> b.containers[i].containerId != ""
  {
    forall i | 0 <= i < |b.containers| ensures b.containers[i].containerId != "" {
      assert ContainerFits(b.containers[i]);
    }
  }

  method DeriveMountFindings(scan: Scan, b: Binding, digest: string -> HexDigest) returns (findings: seq<Finding>)
    ensures findings == MountFindings(scan, b, digest)
  {
    if !Open(scan, b) {
      return [];
    }
    var ids, services := CountContainers(b);
    findings := [];
    for k := 0 to |scan.mounts|
      invariant findings == MissingUpTo(scan, b, digest, k)
    {
      var verdict := JudgeMount(scan, b, k, ids, services, digest);
      findings := findings + verdict;
    }
    findings := Sort(findings, IdLe());
  }

  // ---------------------------------------------------------------- properties

  /** The order in which Docker listed the containers does not matter. */
  lemma ContainerOrderIsIrrelevant(scan: Scan, b: Binding, other: Binding, digest: string -> HexDigest)
    requires multiset(b.containers) == multiset(other.containers)
    requires other == b.(containers := other.containers)
    ensures MountFindings(scan, b, digest) == MountFindings(scan, other, digest)
  {
    SameOpen(scan, b, other);
    MissingIsCanonical(scan, b, other, digest, |scan.mounts|);
  }

  lemma SameOpen(scan: Scan, b: Binding, other: Binding)
    requires multiset(b.containers) == multiset(other.containers)
    requires other == b.(containers := other.containers)
    ensures Open(scan, b) == Open(scan, other)
  {
    assert |multiset(b.containers)| == |multiset(other.containers)|;
    FitsSpread(b.containers, other.containers);
    FitsSpread(other.containers, b.containers);
  }

  lemma FitsSpread(a: seq<BoundContainer>, b: seq<BoundContainer>)
    requires multiset(a) == multiset(b)
    ensures (forall i :: 0 <= i < |a| ==> ContainerFits(a[i])) ==> (forall i :: 0 <= i < |b| ==> ContainerFits(b[i]))
  {
    if forall i :: 0 <= i < |a| ==> ContainerFits(a[i]) {
      forall i | 0 <= i < |b| ensures ContainerFits(b[i]) {
        assert b[i] in multiset(a);
        var j :| 0 <= j < |a| && a[j] == b[i];
      }
    }
  }

  lemma BoundIsCanonical(b: Binding, other: Binding, service: string)
    requires multiset(b.containers) == multiset(other.containers)
    requires other == b.(containers := other.containers)
    ensures BoundContainerOf(b, service) == BoundContainerOf(other, service)
  {
    SameBoundFilter(b, other, service);
    var bound := Filter(b.containers, BoundTo(b, service));
    FilterRearranged(b.containers, other.containers, BoundTo(b, service));
    if |bound| == 1 {
      FilterRearranged(b.containers, other.containers, WithContainerId(bound[0].containerId));
    }
  }

  lemma SameBoundFilter(b: Binding, other: Binding, service: string)
    requires other == b.(containers := other.containers)
    ensures Filter(other.containers, BoundTo(other, service)) == Filter(other.containers, BoundTo(b, service))
  {
    SamePointwise(other.containers, BoundTo(other, service), BoundTo(b, service));
  }

  lemma {:induction false} MissingIsCanonical(scan: Scan, b: Binding, other: Binding, digest: string -> HexDigest, k: nat)
    requires multiset(b.containers) == multiset(other.containers)
    requires other == b.(containers := other.containers) && k <= |scan.mounts|
    ensures MissingUpTo(scan, b, digest, k) == MissingUpTo(scan, other, digest, k)
  {
    if k > 0 {
      MissingIsCanonical(scan, b, other, digest, k - 1);
      BoundIsCanonical(b, other, scan.mounts[k - 1].service);
    }
  }

  /** Every seed a binding can give rise to. */
  ghost function OrdinalSeeds(scan: Scan, b: Binding): set<string> {
    set i, k | 0 <= i < |b.containers| && 0 <= k < |scan.mounts| :: OrdinalSeed(b.containers[i].containerId, k)
  }

  lemma SeedsTellApart(a: string, i: nat, b: string, j: nat)
    requires LowerHex(a, 64) && LowerHex(b, 64) && OrdinalSeed(a, i) == OrdinalSeed(b, j)
    ensures a == b && i == j
  {
    assert OrdinalSeed(a, i)[..64] == a && OrdinalSeed(b, j)[..64] == b;
    assert OrdinalSeed(a, i)[65..] == Decimal.Print(i) && OrdinalSeed(b, j)[65..] == Decimal.Print(j);
    Decimal.ValueOfPrint(i);
    Decimal.ValueOfPrint(j);
  }

  lemma IdCarriesDigest(b: Binding, id: string, i: nat, other: string, j: nat, digest: string -> HexDigest)
    requires MountFinding(b, id, i, digest).id == MountFinding(b, other, j, digest).id
    ensures digest(OrdinalSeed(id, i)) == digest(OrdinalSeed(other, j))
  {
    var n := |Prefix(MountMissingAtContainer)|;
    assert MountFinding(b, id, i, digest).id[n..] == digest(OrdinalSeed(id, i));
    assert MountFinding(b, other, j, digest).id[n..] == digest(OrdinalSeed(other, j));
  }

  /** Where a finding comes from: a missing mount among the first `k`. */
  lemma {:induction false} MissingOrigin(scan: Scan, b: Binding, digest: string -> HexDigest, k: nat, f: Finding)
    returns (i: nat)
    requires k <= |scan.mounts| && f in MissingUpTo(scan, b, digest, k)
    ensures i < k && Missing(scan, b, i)
    ensures f == MountFinding(b, BoundContainerOf(b, scan.mounts[i].service).value.containerId, i, digest)
  {
    if f in MissingUpTo(scan, b, digest, k - 1) {
      i := MissingOrigin(scan, b, digest, k - 1, f);
    } else {
      i := k - 1;
    }
  }

  lemma {:induction false} MissingMember(scan: Scan, b: Binding, digest: string -> HexDigest, k: nat, i: nat, f: Finding)
    requires i < k <= |scan.mounts| && f in MountVerdict(scan, b, digest, i)
    ensures f in MissingUpTo(scan, b, digest, k)
  {
    if i < k - 1 {
      MissingMember(scan, b, digest, k - 1, i, f);
    }
  }

  lemma BoundIsListed(b: Binding, service: string)
    requires BoundContainerOf(b, service).Some?
    ensures BoundContainerOf(b, service).value in b.containers
  {
    FilterMembers(b.containers, BoundTo(b, service));
    assert Filter(b.containers, BoundTo(b, service))[0] in Filter(b.containers, BoundTo(b, service));
  }

  /** Two findings of one binding with one identifier are about one declared mount. */
  lemma OneIdOneMount(scan: Scan, b: Binding, digest: string -> HexDigest, i: nat, c: BoundContainer, j: nat, d: BoundContainer)
    requires Open(scan, b) && CollisionFree(digest, OrdinalSeeds(scan, b))
    requires i < |scan.mounts| && j < |scan.mounts| && c in b.containers && d in b.containers
    requires MountFinding(b, c.containerId, i, digest).id == MountFinding(b, d.containerId, j, digest).id
    ensures i == j && c.containerId == d.containerId
  {
    IdCarriesDigest(b, c.containerId, i, d.containerId, j, digest);
    var p :| 0 <= p < |b.containers| && b.containers[p] == c;
    var q :| 0 <= q < |b.containers| && b.containers[q] == d;
    assert ContainerFits(b.containers[p]) && ContainerFits(b.containers[q]);
    assert OrdinalSeed(b.containers[p].containerId, i) in OrdinalSeeds(scan, b);
    assert OrdinalSeed(b.containers[q].containerId, j) in OrdinalSeeds(scan, b);
    SeedsTellApart(c.containerId, i, d.containerId, j);
  }

  /**
   Given the gates, declared mount `i` of a bound container is reported exactly when it is a bind or named volume
   and that container, the only one with the exact binding, has no matching mount.
   */
  lemma ReportedExactly(scan: Scan, b: Binding, digest: string -> HexDigest, i: nat, c: BoundContainer)
    requires Open(scan, b) && CollisionFree(digest, OrdinalSeeds(scan, b))
    requires i < |scan.mounts| && c in b.containers
    ensures MountFinding(b, c.containerId, i, digest) in MountFindings(scan, b, digest)
            <==> Missing(scan, b, i) && BoundContainerOf(b, scan.mounts[i].service).value.containerId == c.containerId
  {
    var found := MissingUpTo(scan, b, digest, |scan.mounts|);
    var f := MountFinding(b, c.containerId, i, digest);
    SortMembers(found, IdLe());
    if f in found {
      var j := MissingOrigin(scan, b, digest, |scan.mounts|, f);
      var d := BoundContainerOf(b, scan.mounts[j].service).value;
      BoundIsListed(b, scan.mounts[j].service);
      OneIdOneMount(scan, b, digest, i, c, j, d);
    }
    if Missing(scan, b, i) {
      MissingMember(scan, b, digest, |scan.mounts|, i, MountVerdict(scan, b, digest, i)[0]);
    }
  }

  /** Nothing is reported for a mount without a bound container, nor behind a closed gate. */
  lemma OnlyMissingReported(scan: Scan, b: Binding, digest: string -> HexDigest, f: Finding) returns (i: nat)
    requires f in MountFindings(scan, b, digest)
    ensures Open(scan, b) && i < |scan.mounts| && Missing(scan, b, i)
    ensures f == MountFinding(b, BoundContainerOf(b, scan.mounts[i].service).value.containerId, i, digest)
  {
    SortMembers(MissingUpTo(scan, b, digest, |scan.mounts|), IdLe());
    i := MissingOrigin(scan, b, digest, |scan.mounts|, f);
  }

  lemma OneMoreId(findings: seq<Finding>, f: Finding)
    requires IdsDiffer(findings) && forall other :: other in findings ==> other.id != f.id
    ensures IdsDiffer(findings + [f])
  {
    forall i, j | 0 <= i < j < |findings| + 1 ensures (findings + [f])[i].id != (findings + [f])[j].id {
      assert findings[i] in findings;
    }
  }

  lemma {:induction false} MissingIdsApart(scan: Scan, b: Binding, digest: string -> HexDigest, k: nat)
    requires Open(scan, b) && CollisionFree(digest, OrdinalSeeds(scan, b)) && k <= |scan.mounts|
    ensures IdsDiffer(MissingUpTo(scan, b, digest, k))
  {
    if k > 0 {
      MissingIdsApart(scan, b, digest, k - 1);
      var before, verdict := MissingUpTo(scan, b, digest, k - 1), MountVerdict(scan, b, digest, k - 1);
      if verdict != [] {
        BoundIsListed(b, scan.mounts[k - 1].service);
        forall f | f in before ensures f.id != verdict[0].id {
          EarlierIdDiffers(scan, b, digest, k - 1, f, BoundContainerOf(b, scan.mounts[k - 1].service).value);
        }
        OneMoreId(before, verdict[0]);
        assert verdict == [verdict[0]];
      }
    }
  }

  lemma EarlierIdDiffers(scan: Scan, b: Binding, digest: string -> HexDigest, k: nat, f: Finding, c: BoundContainer)
    requires Open(scan, b) && CollisionFree(digest, OrdinalSeeds(scan, b)) && k < |scan.mounts|
    requires f in MissingUpTo(scan, b, digest, k) && c in b.containers
    ensures f.id != MountFinding(b, c.containerId, k, digest).id
  {
    var i := MissingOrigin(scan, b, digest, k, f);
    BoundIsListed(b, scan.mounts[i].service);
    if f.id == MountFinding(b, c.containerId, k, digest).id {
      OneIdOneMount(scan, b, digest, i, BoundContainerOf(b, scan.mounts[i].service).value, k, c);
    }
  }

  /** No two mount findings share an identifier, when the seeds in play do not collide. */
  lemma MountFindingIdsAreDistinct(scan: Scan, b: Binding, digest: string -> HexDigest)
    requires CollisionFree(digest, OrdinalSeeds(scan, b))
    ensures IdsDiffer(MountFindings(scan, b, digest))
  {
    if Open(scan, b) {
      var found := MissingUpTo(scan, b, digest, |scan.mounts|);
      MissingIdsApart(scan, b, digest, |scan.mounts|);
      SortMultiset(found, IdLe());
      IdsStayApart(found, Sort(found, IdLe()));
    }
  }
}
