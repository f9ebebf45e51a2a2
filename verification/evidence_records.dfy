/** Provider evidence read off the relationship's own fields and the slot's public state. */
module EvidenceRecords {
  import opened Prelude
  import opened RuntimeModel
  import opened Identity
  import opened ProviderSlots
  import opened Evidence

  predicate Notes(edge: RuntimeEdge, key: string, value: string) {
    key in edge.metadata && edge.metadata[key] == value
  }

  predicate Joins(edge: RuntimeEdge, relationship: RelationshipKind, source: string, target: string) {
    edge.relationship == relationship && source <= edge.source && target <= edge.target && edge.source != edge.target
  }

  predicate JoinsHost(edge: RuntimeEdge, source: string) {
    edge.relationship == RunsOn && source <= edge.source && edge.target == "host_local"
  }

  predicate BetweenServices(edge: RuntimeEdge, relationship: RelationshipKind, mark: string) {
    && Joins(edge, relationship, "systemd_service_", "systemd_service_")
    && Notes(edge, "__dockermapSystemdEvidenceKind", mark)
  }

  /** The slot's own marker stands on a relationship of the kind it marks. */
  predicate Marked(slot: ProviderSlot, edge: RuntimeEdge, kind: EvidenceKind) {
    match kind
    case SystemdRequires => slot.Systemd? && BetweenServices(edge, Requires, "requires")
    case SystemdWants => slot.Systemd? && BetweenServices(edge, Wants, "wants")
    case SystemdPartOf => slot.Systemd? && BetweenServices(edge, PartOf, "part_of")
    case NpmPackageManifestDependency =>
      && slot.ProjectNpm? && Joins(edge, DependsOn, "npm_project_", "npm_package_")
      && Notes(edge, "__dockermapNpmManifestDependency", "declared")
    case CronScheduleDeclaration =>
      slot.Cron? && JoinsHost(edge, "scheduled_job_") && Notes(edge, "__dockermapCronScheduleDeclaration", "declared")
    case TmuxSessionListing =>
      slot.Tmux? && JoinsHost(edge, "tmux_session_") && Notes(edge, "__dockermapTmuxSessionListing", "observed")
    case _ => false
  }

  lemma HostIsNoSource(source: string, prefix: string, host: string)
    requires host == "host_local" && (prefix == "scheduled_job_" || prefix == "tmux_session_") && prefix <= source
    ensures source != host
  {
    assert prefix[0] != host[0];
  }

  lemma SystemdMarked(edge: RuntimeEdge, kind: EvidenceKind)
    ensures MarkedKind(Systemd, edge) == Some(kind) <==> Marked(Systemd, edge, kind)
  {
    var marker := Marker(Systemd, edge);
    if marker.Some? {
      MarkersDiffer(marker.value, "requires", "wants", "part_of");
    }
  }

  lemma MarkersDiffer(s: string, a: string, b: string, c: string)
    requires a == "requires" && b == "wants" && c == "part_of"
    ensures s == a ==> s != b && s != c
    ensures s == b ==> s != c
  {
    assert a[0] != b[0] && a[0] != c[0] && b[0] != c[0];
  }

  lemma NpmMarked(edge: RuntimeEdge, kind: EvidenceKind)
    ensures MarkedKind(ProjectNpm, edge) == Some(kind) <==> Marked(ProjectNpm, edge, kind)
  {
  }

  lemma CronMarked(edge: RuntimeEdge, kind: EvidenceKind)
    ensures MarkedKind(Cron, edge) == Some(kind) <==> Marked(Cron, edge, kind)
  {
    if "scheduled_job_" <= edge.source {
      HostIsNoSource(edge.source, "scheduled_job_", "host_local");
    }
  }

  lemma TmuxMarked(edge: RuntimeEdge, kind: EvidenceKind)
    ensures MarkedKind(Tmux, edge) == Some(kind) <==> Marked(Tmux, edge, kind)
  {
    if "tmux_session_" <= edge.source {
      HostIsNoSource(edge.source, "tmux_session_", "host_local");
    }
  }

  lemma MarkedExactly(slot: ProviderSlot, edge: RuntimeEdge, kind: EvidenceKind)
    requires BindsEvidence(slot)
    ensures MarkedKind(slot, edge) == Some(kind) <==> Marked(slot, edge, kind)
  {
    match slot
    case Systemd => SystemdMarked(edge, kind);
    case ProjectNpm => NpmMarked(edge, kind);
    case Cron => CronMarked(edge, kind);
    case _ => TmuxMarked(edge, kind);
  }

  /** The fixed fields of a kind. */
  predicate FixedFields(e: EvidenceRef) {
    match e.kind
    case SystemdRequires => e.version == 2 && e.provider == SystemdEvidence && e.assertionKind == Declared
    case SystemdWants => e.version == 2 && e.provider == SystemdEvidence && e.assertionKind == Declared
    case SystemdPartOf => e.version == 2 && e.provider == SystemdEvidence && e.assertionKind == Declared
    case NpmPackageManifestDependency => e.version == 3 && e.provider == NpmEvidence && e.assertionKind == Declared
    case CronScheduleDeclaration => e.version == 4 && e.provider == CronEvidence && e.assertionKind == Declared
    case TmuxSessionListing => e.version == 5 && e.provider == TmuxEvidence && e.assertionKind == Observed
    case _ => false
  }

  function IdText(kind: EvidenceKind): string {
    match kind
    case SystemdRequires => "systemd_evidence_requires_"
    case SystemdWants => "systemd_evidence_wants_"
    case SystemdPartOf => "systemd_evidence_part-of_"
    case NpmPackageManifestDependency => "npm_evidence_manifest_dependency_"
    case CronScheduleDeclaration => "cron_evidence_schedule_"
    case _ => "tmux_evidence_session_listing_"
  }

  /** The evidence says what the slot's public state says: its freshness, its last success and its data revision. */
  predicate SaysState(e: EvidenceRef, p: ProviderState) {
    && e.providerSlot == Some(p.slot) && Some(e.collectedAt) == p.lastSuccessMs && Some(e.providerRevision) == p.dataRevision
    && (if p.state.Fresh? then e.freshness == FreshEvidence
        else if p.state.Stale? then e.freshness == StaleEvidence
        else p.state.TimedOut? && e.freshness == TimedOutEvidence)
  }

  predicate Proves(e: EvidenceRef, edge: RuntimeEdge, p: ProviderState, digest: string -> HexDigest) {
    && FixedFields(e) && e.subjectRef == edge.source && SaysState(e, p)
    && e.id == IdText(e.kind) + Component(digest, edge.source + US + edge.target)
  }

  lemma AttestationSaysState(slot: ProviderSlot, state: SlotState, clock: nat, p: ProviderState)
    requires SlotCoherent(slot, state, clock) && RetainedCollection(state.observation).Some? && p == ProjectSlot(slot, state)
    ensures SlotAttestation(slot, state).Some? <==> !p.state.Disabled?
    ensures SlotAttestation(slot, state).Some? ==>
              var a := SlotAttestation(slot, state).value;
              && p.slot == slot && Some(a.collectedAt) == p.lastSuccessMs && Some(a.revision) == p.dataRevision
              && FreshnessOfState(p.state) == Some(a.freshness)
  {
    AttestationMatchesState(slot, state, clock);
  }

  lemma AttestedIs(slot: ProviderSlot, edge: RuntimeEdge, kind: EvidenceKind, a: Attestation, digest: string -> HexDigest,
                   p: ProviderState, e: EvidenceRef)
    requires HostKind(kind) && p.slot == slot && Some(a.collectedAt) == p.lastSuccessMs && Some(a.revision) == p.dataRevision
    requires FreshnessOfState(p.state) == Some(a.freshness) && e.kind == kind
    ensures e == AttestedRef(slot, edge, FamilyOf(kind), a, digest) <==> Proves(e, edge, p, digest)
  {
  }

  /**
   With retained data, a published relationship keeps its ends, loses exactly its slot's marker, and carries a piece of
   evidence exactly when it is marked, the slot is not disabled, and that piece says what the slot's public state says.
   */
  lemma BoundOnRecords(slot: ProviderSlot, edge: RuntimeEdge, state: SlotState, clock: nat, digest: string -> HexDigest,
                       p: ProviderState, e: EvidenceRef)
    requires BindsEvidence(slot) && SlotCoherent(slot, state, clock) && RetainedCollection(state.observation).Some?
    requires p == ProjectSlot(slot, state)
    ensures var bound := BindEdge(slot, edge, state, digest);
            && bound.source == edge.source && bound.target == edge.target && bound.relationship == edge.relationship
            && bound.metadata == edge.metadata - {MarkerKey(slot)}
            && |bound.evidenceRefs| <= 1
            && (e in bound.evidenceRefs <==> Marked(slot, edge, e.kind) && !p.state.Disabled? && Proves(e, edge, p, digest))
  {
    AttestationSaysState(slot, state, clock, p);
    MarkedExactly(slot, edge, e.kind);
    var marked, attestation := MarkedKind(slot, edge), SlotAttestation(slot, state);
    if marked == Some(e.kind) && attestation.Some? {
      AttestedIs(slot, edge, e.kind, attestation.value, digest, p, e);
    }
    if marked.Some? {
      FamilyTexts(marked.value);
    }
  }
}
