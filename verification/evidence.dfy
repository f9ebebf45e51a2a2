/**
 Public evidence of provider relationships. A collector marks a relationship privately; the daemon turns the
 mark into evidence only for the slot that produced it, labelled with that slot's freshness.
 */
module Evidence {
  import opened Prelude
  import opened RuntimeModel
  import opened ProviderSlots
  import opened Identity

  const US: string := "\U{1f}"

  /** The fixed part of the evidence a marked relationship receives. */
  datatype Family = Family(version: nat, idPrefix: string, provider: EvidenceProvider, kind: EvidenceKind,
                           assertionKind: AssertionKind)

  /** The fixed texts of a family. */
  function FamilyOf(kind: EvidenceKind): Family
    requires HostKind(kind)
  {
    match kind
    case SystemdRequires =>
      Family(2, "systemd_evidence_requires_", SystemdEvidence, kind, Declared)
    case SystemdWants =>
      Family(2, "systemd_evidence_wants_", SystemdEvidence, kind, Declared)
    case SystemdPartOf =>
      Family(2, "systemd_evidence_part-of_", SystemdEvidence, kind, Declared)
    case NpmPackageManifestDependency =>
      Family(3, "npm_evidence_manifest_dependency_", NpmEvidence, kind, Declared)
    case CronScheduleDeclaration =>
      Family(4, "cron_evidence_schedule_", CronEvidence, kind, Declared)
    case _ =>
      Family(5, "tmux_evidence_session_listing_", TmuxEvidence, kind, Observed)
  }

  predicate HostKind(kind: EvidenceKind) {
    || kind.SystemdRequires? || kind.SystemdWants? || kind.SystemdPartOf? || kind.NpmPackageManifestDependency?
    || kind.CronScheduleDeclaration? || kind.TmuxSessionListing?
  }

  /** What a systemd marker stands for, when the relationship says the same. */
  function SystemdKind(marker: Option<string>, relationship: RelationshipKind): Option<EvidenceKind> {
    if marker == Some("requires") then (if relationship == Requires then Some(SystemdRequires) else None)
    else if marker == Some("wants") then (if relationship == Wants then Some(SystemdWants) else None)
    else if marker == Some("part_of") then (if relationship == PartOf then Some(SystemdPartOf) else None)
    else None
  }

  function Marker(slot: ProviderSlot, edge: RuntimeEdge): Option<string>
    requires BindsEvidence(slot)
  {
    if MarkerKey(slot) in edge.metadata then Some(edge.metadata[MarkerKey(slot)]) else None
  }

  /** The kind of evidence a correctly marked relationship of a slot receives. */
  function MarkedKind(slot: ProviderSlot, edge: RuntimeEdge): (kind: Option<EvidenceKind>)
    requires BindsEvidence(slot)
    ensures kind.Some? ==> HostKind(kind.value)
  {
    var marker := Marker(slot, edge);
    if edge.source == edge.target then None
    else match slot
      case Systemd =>
        if StartsWith(edge.source, "systemd_service_") && StartsWith(edge.target, "systemd_service_")
        then SystemdKind(marker, edge.relationship) else None
      case ProjectNpm =>
        if marker == Some("declared") && edge.relationship == DependsOn
           && StartsWith(edge.source, "npm_project_") && StartsWith(edge.target, "npm_package_")
        then Some(NpmPackageManifestDependency) else None
      case Cron =>
        if marker == Some("declared") && edge.relationship == RunsOn
           && StartsWith(edge.source, "scheduled_job_") && edge.target == "host_local"
        then Some(CronScheduleDeclaration) else None
      case _ =>
        if marker == Some("observed") && edge.relationship == RunsOn
           && StartsWith(edge.source, "tmux_session_") && edge.target == "host_local"
        then Some(TmuxSessionListing) else None
  }

  /** What a slot can attest now; nothing without retained data, a revision and a success, nor when disabled. */
  datatype Attestation = Attestation(freshness: EvidenceFreshness, revision: string, collectedAt: nat)

  function RetainedFreshness(observation: SlotObservation): Option<EvidenceFreshness> {
    match observation
    case Fresh(_) => Some(FreshEvidence)
    case Collecting(retained) => if retained.Some? then Some(StaleEvidence) else None
    case Degraded(retained) => if retained.Some? then Some(StaleEvidence) else None
    case TimedOut(retained) => if retained.Some? then Some(TimedOutEvidence) else None
    case Unavailable => None
  }

  predicate RetainsDisabled(slot: ProviderSlot, observation: SlotObservation) {
    var retained := RetainedCollection(observation);
    retained.Some? && ReportsDisabled(slot, retained.value)
  }

  function SlotAttestation(slot: ProviderSlot, state: SlotState): Option<Attestation> {
    var freshness := RetainedFreshness(state.observation);
    if RetainsDisabled(slot, state.observation) || freshness.None?
       || state.freshness.dataRevision.None? || state.freshness.lastSuccessMs.None?
    then None
    else Some(Attestation(freshness.value, PublicRevision(state.freshness.dataRevision.value),
                          state.freshness.lastSuccessMs.value))
  }

  function AttestedRef(slot: ProviderSlot, edge: RuntimeEdge, family: Family, a: Attestation,
                       digest: string -> HexDigest): EvidenceRef
  {
    EvidenceRef(family.version, family.idPrefix + Component(digest, edge.source + US + edge.target), family.provider,
                family.kind, family.assertionKind, edge.source, a.collectedAt, a.revision, Some(slot),
                a.freshness)
  }

  function ClearEdge(slot: ProviderSlot, edge: RuntimeEdge): RuntimeEdge
    requires BindsEvidence(slot)
  {
    edge.(metadata := edge.metadata - {MarkerKey(slot)}, evidenceRefs := [])
  }

  /** What an attesting slot makes of one relationship. */
  function BoundWith(slot: ProviderSlot, edge: RuntimeEdge, a: Attestation, digest: string -> HexDigest): RuntimeEdge
    requires BindsEvidence(slot)
  {
    var kind := MarkedKind(slot, edge);
    if kind.None? then ClearEdge(slot, edge)
    else ClearEdge(slot, edge).(evidenceRefs := [AttestedRef(slot, edge, FamilyOf(kind.value), a, digest)])
  }

  function BindEdge(slot: ProviderSlot, edge: RuntimeEdge, state: SlotState, digest: string -> HexDigest): RuntimeEdge
    requires BindsEvidence(slot)
  {
    match SlotAttestation(slot, state)
    case None => ClearEdge(slot, edge)
    case Some(attestation) => BoundWith(slot, edge, attestation, digest)
  }

  function BindEdges(slot: ProviderSlot, edges: seq<RuntimeEdge>, state: SlotState, digest: string -> HexDigest)
    : (r: seq<RuntimeEdge>)
    requires BindsEvidence(slot)
    ensures |r| == |edges| && forall i :: 0 <= i < |r| ==> r[i] == BindEdge(slot, edges[i], state, digest)
  {
    seq(|edges|, i requires 0 <= i < |edges| => BindEdge(slot, edges[i], state, digest))
  }

  /** One pass over the relationships, each rewritten in place. */
  method RewriteEach(edges: array<RuntimeEdge>, rewrite: RuntimeEdge -> RuntimeEdge)
    modifies edges
    ensures forall i :: 0 <= i < edges.Length ==> edges[i] == rewrite(old(edges[i]))
  {
    for k := 0 to edges.Length
      invariant forall i :: 0 <= i < k ==> edges[i] == rewrite(old(edges[i]))
      invariant forall i :: k <= i < edges.Length ==> edges[i] == old(edges[i])
    {
      edges[k] := rewrite(edges[k]);
    }
  }

  /** The binder of one slot, in place: every early exit clears, and the loop binds or clears edge by edge. */
  method BindEvidence(slot: ProviderSlot, edges: array<RuntimeEdge>, state: SlotState, digest: string -> HexDigest)
    requires BindsEvidence(slot)
    modifies edges
    ensures edges[..] == BindEdges(slot, old(edges[..]), state, digest)
  {
    var freshness := RetainedFreshness(state.observation);
    var revision := state.freshness.dataRevision;
    var collectedAt := state.freshness.lastSuccessMs;
    if RetainsDisabled(slot, state.observation) || freshness.None? || revision.None? || collectedAt.None? {
      RewriteEach(edges, edge => ClearEdge(slot, edge));
      return;
    }
    var attestation := Attestation(freshness.value, PublicRevision(revision.value), collectedAt.value);
    RewriteEach(edges, edge => BoundWith(slot, edge, attestation, digest));
  }

  // ---------------------------------------------------------------- what bound evidence says

  /** `has_valid_evidence_refs` for host-provider evidence, apart from the caps on text length. */
  predicate AttestsEdge(edge: RuntimeEdge, e: EvidenceRef) {
    && e.id != "" && e.providerRevision != "" && e.subjectRef == edge.source
    && edge.source != edge.target
    && KindAttests(edge, e)
  }

  predicate KindAttests(edge: RuntimeEdge, e: EvidenceRef) {
    match e.kind
    case SystemdRequires | SystemdWants | SystemdPartOf =>
      && e.version == 2 && e.provider == SystemdEvidence && e.assertionKind == Declared
      && e.providerSlot == Some(Systemd)
      && edge.relationship == (if e.kind.SystemdRequires? then Requires else if e.kind.SystemdWants? then Wants else PartOf)
      && StartsWith(edge.source, "systemd_service_") && StartsWith(edge.target, "systemd_service_")
    case NpmPackageManifestDependency =>
      && e.version == 3 && e.provider == NpmEvidence && e.assertionKind == Declared
      && e.providerSlot == Some(ProjectNpm) && edge.relationship == DependsOn
      && StartsWith(edge.source, "npm_project_") && StartsWith(edge.target, "npm_package_")
    case CronScheduleDeclaration =>
      && e.version == 4 && e.provider == CronEvidence && e.assertionKind == Declared
      && e.providerSlot == Some(Cron) && edge.relationship == RunsOn
      && StartsWith(edge.source, "scheduled_job_") && edge.target == "host_local"
    case TmuxSessionListing =>
      && e.version == 5 && e.provider == TmuxEvidence && e.assertionKind == Observed
      && e.providerSlot == Some(Tmux) && edge.relationship == RunsOn
      && StartsWith(edge.source, "tmux_session_") && edge.target == "host_local"
    case _ => false
  }

  /** How the public state of a slot reads as the freshness of its evidence. */
  function FreshnessOfState(kind: ProviderStateKind): Option<EvidenceFreshness> {
    match kind
    case Fresh => Some(FreshEvidence)
    case Stale => Some(StaleEvidence)
    case TimedOut => Some(TimedOutEvidence)
    case _ => None
  }

  /** In a coherent slot the revision-less and success-less exits are never taken with retained data. */
  lemma AttestsExactlyWhenRetained(slot: ProviderSlot, state: SlotState, clock: nat)
    requires SlotCoherent(slot, state, clock)
    ensures SlotAttestation(slot, state).Some?
            <==> RetainedCollection(state.observation).Some? && !RetainsDisabled(slot, state.observation)
    ensures RetainedCollection(state.observation).Some? ==>
              state.freshness.dataRevision.Some? && state.freshness.lastSuccessMs.Some?
  {
  }

  /** With retained data, an attestation's freshness is the slot's public state; a disabled slot attests nothing. */
  lemma AttestationMatchesState(slot: ProviderSlot, state: SlotState, clock: nat)
    requires SlotCoherent(slot, state, clock) && RetainedCollection(state.observation).Some?
    ensures var kind := ProjectSlot(slot, state).state;
            var attestation := SlotAttestation(slot, state);
            && (attestation.Some? <==> FreshnessOfState(kind).Some?)
            && (attestation.Some? ==> FreshnessOfState(kind) == Some(attestation.value.freshness))
            && (attestation.None? <==> kind.Disabled?)
  {
    var retained := RetainedCollection(state.observation).value;
    assert FindState(slot, retained.states) == retained.states[0].state;
    assert ReportsDisabled(slot, retained) <==> retained.states[0].state.Disabled?;
  }

  /** On every path a binder removes the private marker and nothing else of the relationship. */
  lemma MarkerNeverSurvives(slot: ProviderSlot, edge: RuntimeEdge, state: SlotState, digest: string -> HexDigest)
    requires BindsEvidence(slot)
    ensures var bound := BindEdge(slot, edge, state, digest);
            && MarkerKey(slot) !in bound.metadata
            && bound.metadata == edge.metadata - {MarkerKey(slot)}
            && bound.source == edge.source && bound.target == edge.target && bound.relationship == edge.relationship
  {
  }

  lemma FamilyTexts(kind: EvidenceKind)
    requires HostKind(kind)
    ensures FamilyOf(kind).idPrefix != "" && FamilyOf(kind).kind == kind
  {
  }

  lemma AttestedIdNonEmpty(slot: ProviderSlot, edge: RuntimeEdge, family: Family, a: Attestation,
                           digest: string -> HexDigest)
    requires family.idPrefix != ""
    ensures AttestedRef(slot, edge, family, a, digest).id != ""
  {
  }

  lemma MarkedKindAttests(slot: ProviderSlot, edge: RuntimeEdge, e: EvidenceRef)
    requires BindsEvidence(slot) && MarkedKind(slot, edge) == Some(e.kind) && e.providerSlot == Some(slot)
    requires e.version == FamilyOf(e.kind).version && e.provider == FamilyOf(e.kind).provider
    requires e.assertionKind == FamilyOf(e.kind).assertionKind
    ensures KindAttests(edge, e) && edge.source != edge.target
  {
  }

  /** Evidence of a correctly marked relationship attests that relationship. */
  lemma MarkedEdgeIsAttested(slot: ProviderSlot, edge: RuntimeEdge, kind: EvidenceKind, a: Attestation,
                             digest: string -> HexDigest)
    requires BindsEvidence(slot) && MarkedKind(slot, edge) == Some(kind) && a.revision != ""
    ensures AttestsEdge(edge, AttestedRef(slot, edge, FamilyOf(kind), a, digest))
  {
    FamilyTexts(kind);
    AttestedIdNonEmpty(slot, edge, FamilyOf(kind), a, digest);
    MarkedKindAttests(slot, edge, AttestedRef(slot, edge, FamilyOf(kind), a, digest));
  }

  /**
   In a coherent slot with retained data, an edge carries evidence exactly when it was correctly marked and the
   slot is not disabled; that evidence attests the edge and its freshness is the slot's public state.
   */
  lemma BoundEdgeEvidence(slot: ProviderSlot, edge: RuntimeEdge, state: SlotState, clock: nat,
                          digest: string -> HexDigest)
    requires BindsEvidence(slot) && SlotCoherent(slot, state, clock) && RetainedCollection(state.observation).Some?
    ensures var bound := BindEdge(slot, edge, state, digest);
            var kind := ProjectSlot(slot, state).state;
            && |bound.evidenceRefs| == (if MarkedKind(slot, edge).Some? && !kind.Disabled? then 1 else 0)
            && (bound.evidenceRefs != [] ==>
                  && FreshnessOfState(kind) == Some(bound.evidenceRefs[0].freshness)
                  && AttestsEdge(edge, bound.evidenceRefs[0]))
  {
    AttestationMatchesState(slot, state, clock);
    var attestation, marked := SlotAttestation(slot, state), MarkedKind(slot, edge);
    if attestation.Some? && marked.Some? {
      MarkedEdgeIsAttested(slot, edge, marked.value, attestation.value, digest);
    }
  }
}
