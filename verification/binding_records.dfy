/** When a declared mount is reported missing, and what the report says, read off the scan and the binding. */
module BindingRecords {
  import opened Prelude
  import opened Sorting
  import opened RuntimeModel
  import opened Identity
  import opened Evidence
  import opened ComposeModel
  import opened FindingRules
  import opened ComposeBinding
  import Decimal

  // ---------------------------------------------------------------- the gates

  predicate Short(path: string) {
    |path| <= 259
  }

  predicate ShortPaths(paths: set<string>) {
    |paths| <= 8 && forall path :: path in paths ==> Short(path)
  }

  predicate Lists(files: seq<string>, paths: set<string>) {
    (forall i :: 0 <= i < |files| ==> files[i] in paths) && forall path :: path in paths ==> path in files
  }

  predicate HexId(id: string) {
    |id| == 64 && forall i :: 0 <= i < 64 ==> '0' <= id[i] <= '9' || 'a' <= id[i] <= 'f'
  }

  predicate Admitted(c: BoundContainer) {
    HexId(c.containerId) && |c.project| <= 259 && 1 <= |c.service| <= 259 && ShortPaths(c.configFiles) && |c.mounts| <= 128
  }

  /** A fresh binding and a scan within the bounds, of exactly the same files, without anything above information. */
  predicate Usable(scan: Scan, b: Binding) {
    && b.isFresh && 1 <= |b.project| <= 259 && |b.providerRevision| >= 1
    && b.configFiles != {} && ShortPaths(b.configFiles) && Lists(scan.files, b.configFiles)
    && |b.containers| <= 64 && |scan.services| <= 128 && |scan.mounts| <= 256
    && (forall i :: 0 <= i < |scan.severities| ==> scan.severities[i] == Info)
    && (forall i :: 0 <= i < |b.containers| ==> Admitted(b.containers[i]))
  }

  lemma AdmittedIs(c: BoundContainer)
    ensures ContainerFits(c) <==> Admitted(c)
  {
    if Admitted(c) {
      forall i | 0 <= i < |c.containerId| ensures LowerHexDigit(c.containerId[i]) {
      }
    }
    if ContainerFits(c) {
      forall i | 0 <= i < 64 ensures '0' <= c.containerId[i] <= '9' || 'a' <= c.containerId[i] <= 'f' {
        assert LowerHexDigit(c.containerId[i]);
      }
    }
  }

  lemma ListsIs(files: seq<string>, paths: set<string>)
    ensures (set path | path in files) == paths <==> Lists(files, paths)
  {
    var named := set path | path in files;
    if named == paths {
      forall i | 0 <= i < |files| ensures files[i] in paths {
        assert files[i] in named;
      }
      forall path | path in paths ensures path in files {
        assert path in named;
      }
    }
    if Lists(files, paths) {
      forall path ensures path in named <==> path in paths {
      }
    }
  }

  lemma UsableIs(scan: Scan, b: Binding)
    ensures Open(scan, b) <==> Usable(scan, b)
  {
    ListsIs(scan.files, b.configFiles);
    forall i | 0 <= i < |b.containers| ensures ContainerFits(b.containers[i]) <==> Admitted(b.containers[i]) {
      AdmittedIs(b.containers[i]);
    }
  }

  // ---------------------------------------------------------------- the bound container

  predicate Serves(b: Binding, service: string, c: BoundContainer) {
    c.project == b.project && c.configFiles == b.configFiles && c.service == service
  }

  /** The only container of the service in this project with these files, and the only one with its identity. */
  ghost predicate BoundAt(b: Binding, service: string, c: BoundContainer, k: nat) {
    && k < |b.containers| && b.containers[k] == c && Serves(b, service, c)
    && (forall j :: 0 <= j < |b.containers| && Serves(b, service, b.containers[j]) ==> j == k)
    && (forall j :: 0 <= j < |b.containers| && b.containers[j].containerId == c.containerId ==> j == k)
  }

  ghost predicate IsBound(b: Binding, service: string, c: BoundContainer) {
    exists k: nat :: BoundAt(b, service, c, k)
  }

  lemma BoundIs(b: Binding, service: string, c: BoundContainer)
    ensures BoundContainerOf(b, service) == Some(c) <==> IsBound(b, service, c)
  {
    var bound, named := BoundTo(b, service), WithContainerId(c.containerId);
    OneFiltered(b.containers, bound, c);
    OneFiltered(b.containers, named, c);
    var kept := Filter(b.containers, bound);
    if BoundContainerOf(b, service) == Some(c) {
      assert kept == [c];
      var k: nat :| OneAt(b.containers, bound, c, k);
      var same := Filter(b.containers, named);
      FilterMembers(b.containers, named);
      assert c in same;
      assert same == [same[0]];
      assert BoundAt(b, service, c, k);
    }
    if k: nat :| BoundAt(b, service, c, k) {
      assert OneAt(b.containers, bound, c, k);
      assert OneAt(b.containers, named, c, k);
    }
  }

  // ---------------------------------------------------------------- mounts

  /** The container has the declared mount: one kind and target, a bind from the resolved source if there is one. */
  predicate Carries(declared: ComposeMount, runtime: ContainerMount) {
    && runtime.kind == declared.kind && runtime.target == declared.target
    && (declared.kind == NamedVolume ==> runtime.source == declared.source)
    && (declared.kind == Bind && declared.resolvedSource.Some? ==> runtime.source == declared.resolvedSource)
    && (declared.kind == Bind && declared.resolvedSource.None? ==> runtime.source == declared.source)
  }

  /** The `i`-th declared mount is a bind or named volume, and its bound container has nothing like it. */
  ghost predicate Lacks(scan: Scan, b: Binding, i: nat, c: BoundContainer) {
    && i < |scan.mounts| && (scan.mounts[i].kind == Bind || scan.mounts[i].kind == NamedVolume)
    && IsBound(b, scan.mounts[i].service, c)
    && forall j :: 0 <= j < |c.mounts| ==> !Carries(scan.mounts[i], c.mounts[j])
  }

  lemma LacksIs(scan: Scan, b: Binding, i: nat, c: BoundContainer)
    requires i < |scan.mounts|
    ensures Missing(scan, b, i) && BoundContainerOf(b, scan.mounts[i].service) == Some(c) <==> Lacks(scan, b, i, c)
  {
    BoundIs(b, scan.mounts[i].service, c);
    var mount := scan.mounts[i];
    if mount.kind == Bind || mount.kind == NamedVolume {
      forall j | 0 <= j < |c.mounts| ensures MountsMatch(mount, c.mounts[j]) <==> Carries(mount, c.mounts[j]) {
      }
    }
  }

  // ---------------------------------------------------------------- the report

  function Proof(id: string, provider: EvidenceProvider, kind: EvidenceKind, assertion: AssertionKind, subject: string,
                 b: Binding): EvidenceRef
  {
    EvidenceRef(version := 6, id := id, provider := provider, kind := kind, assertionKind := assertion,
                subjectRef := subject, collectedAt := b.collectedAt, providerRevision := b.providerRevision,
                providerSlot := None, freshness := FreshEvidence)
  }

  /** What is reported names the container only by its digest, and the declaration only by its position. */
  ghost predicate Reports(f: Finding, b: Binding, containerId: string, i: nat, digest: string -> HexDigest) {
    var subject := "compose_runtime_binding_" + digest(containerId);
    var place := digest(containerId + "\U{1f}" + Decimal.Print(i));
    && f.rule == MountMissingAtContainer && f.subjectRef == subject && f.targetRef == subject
    && f.id == "finding_compose_declared_mount_missing_at_bound_container_" + place
    && f.evidenceRefs
       == [Proof("compose_declared_mount_" + place, ComposeEvidence, ComposeDeclaredMount, Declared, subject, b),
           Proof("docker_compose_runtime_binding_" + place, DockerEvidence, DockerComposeRuntimeBinding, Observed, subject, b)]
  }

  lemma ReportIs(f: Finding, b: Binding, containerId: string, i: nat, digest: string -> HexDigest)
    ensures f == MountFinding(b, containerId, i, digest) <==> Reports(f, b, containerId, i, digest)
  {
    var place := digest(OrdinalSeed(containerId, i));
    assert OrdinalSeed(containerId, i) == containerId + "\U{1f}" + Decimal.Print(i);
    assert "compose_declared_mount" + "_" == "compose_declared_mount_";
    assert "docker_compose_runtime_binding" + "_" == "docker_compose_runtime_binding_";
  }

  /**
   Every report is about one declared mount its bound container lacks, behind open gates, every such mount is reported,
   and the reports come in the order of their identifiers.
   */
  lemma MissingMountsExactly(scan: Scan, b: Binding, digest: string -> HexDigest, f: Finding)
    ensures f in MountFindings(scan, b, digest)
            <==> Usable(scan, b) && exists i: nat, c: BoundContainer :: Lacks(scan, b, i, c) && Reports(f, b, c.containerId, i, digest)
    ensures var fs := MountFindings(scan, b, digest); forall i, j :: 0 <= i < j < |fs| ==> LexLe(fs[i].id, fs[j].id)
  {
    UsableIs(scan, b);
    if f in MountFindings(scan, b, digest) {
      var i := OnlyMissingReported(scan, b, digest, f);
      var c := BoundContainerOf(b, scan.mounts[i].service).value;
      LacksIs(scan, b, i, c);
      ReportIs(f, b, c.containerId, i, digest);
      assert Lacks(scan, b, i, c) && Reports(f, b, c.containerId, i, digest);
    }
    if Usable(scan, b) {
      if i: nat, c: BoundContainer :| Lacks(scan, b, i, c) && Reports(f, b, c.containerId, i, digest) {
        LackingIsReported(scan, b, digest, i, c, f);
      }
    }
    IdLeTotal();
    if Open(scan, b) {
      SortSorted(MissingUpTo(scan, b, digest, |scan.mounts|), IdLe());
    }
  }

  lemma IdLeTotal()
    ensures TotalPreorder(IdLe())
  {
    forall a: Finding, b: Finding ensures IdLe()(a, b) || IdLe()(b, a) {
      LexTotal(a.id, b.id);
    }
    forall a: Finding, b: Finding, c: Finding | IdLe()(a, b) && IdLe()(b, c) ensures IdLe()(a, c) {
      LexTransitive(a.id, b.id, c.id);
    }
  }

  lemma LackingIsReported(scan: Scan, b: Binding, digest: string -> HexDigest, i: nat, c: BoundContainer, f: Finding)
    requires Open(scan, b) && Lacks(scan, b, i, c) && Reports(f, b, c.containerId, i, digest)
    ensures f in MountFindings(scan, b, digest)
  {
    LacksIs(scan, b, i, c);
    ReportIs(f, b, c.containerId, i, digest);
    var found := MissingUpTo(scan, b, digest, |scan.mounts|);
    assert MountVerdict(scan, b, digest, i) == [f];
    MissingMember(scan, b, digest, |scan.mounts|, i, f);
    SortMembers(found, IdLe());
  }
}
