/** The wire vocabulary shared by the scheduler, the evidence binders and the findings. */
module RuntimeModel {
  import opened Prelude

  datatype RuntimeMode = Docker | Mock

  /** The fixed provider slots. */
  datatype ProviderSlot =
    | NetworkInfrastructure
    | HostScoped
    | Tmux
    | Cron
    | Systemd
    | PythonProcesses
    | NativeProcesses
    | ProjectNpm

  const STATIC_PROVIDER_SLOTS: seq<ProviderSlot> :=
    [NetworkInfrastructure, HostScoped, Tmux, Cron, Systemd, PythonProcesses, NativeProcesses, ProjectNpm]

  lemma StaticSlotsAreAll(slot: ProviderSlot)
    ensures slot in STATIC_PROVIDER_SLOTS
    ensures forall i, j :: 0 <= i < j < |STATIC_PROVIDER_SLOTS| ==> STATIC_PROVIDER_SLOTS[i] != STATIC_PROVIDER_SLOTS[j]
  {
    match slot
    case NetworkInfrastructure => assert slot == STATIC_PROVIDER_SLOTS[0];
    case HostScoped => assert slot == STATIC_PROVIDER_SLOTS[1];
    case Tmux => assert slot == STATIC_PROVIDER_SLOTS[2];
    case Cron => assert slot == STATIC_PROVIDER_SLOTS[3];
    case Systemd => assert slot == STATIC_PROVIDER_SLOTS[4];
    case PythonProcesses => assert slot == STATIC_PROVIDER_SLOTS[5];
    case NativeProcesses => assert slot == STATIC_PROVIDER_SLOTS[6];
    case ProjectNpm => assert slot == STATIC_PROVIDER_SLOTS[7];
  }

  datatype ProviderStateKind = Fresh | Stale | Collecting | Unavailable | TimedOut | Disabled

  datatype ProviderStatusReason =
    Initial | Refreshing | CollectionFailed | CollectionTimedOut | SourceReset | SlotDisabled

  /** The public state of one slot. */
  datatype ProviderState = ProviderState(
    slot: ProviderSlot,
    state: ProviderStateKind,
    lastAttemptMs: Option<nat>,
    lastSuccessMs: Option<nat>,
    lastDurationMs: Option<nat>,
    consecutiveFailureCount: nat,
    dataRevision: Option<string>,
    statusReason: Option<ProviderStatusReason>)

  datatype RelationshipKind =
    | ConnectedTo | Mounts | DependsOn | Exposes | ExposesDaemonState | Requires | Wants | PartOf | RunsOn | RelatedTo
    | OtherRelationship(name: string)

  datatype NodeProvider =
    | DockerProvider | NetworkProvider | HostProvider | TmuxProvider | SystemdProvider | OtherProvider(name: string)

  datatype NodeKind =
    | Container | DockerNetwork | DockerVolume | NetworkListener | Host | HostRisk | IntegrityScope
    | SystemdService | TmuxSession | OtherKind(name: string)

  datatype RuntimeNode = RuntimeNode(
    id: string,
    provider: NodeProvider,
    kind: NodeKind,
    nodeLabel: string,
    status: Option<string>,
    layer: Option<string>,
    metadata: map<string, string>,
    service: Option<string>,
    package: Option<string>)

  function WithId(id: string): RuntimeNode -> bool {
    (node: RuntimeNode) => node.id == id
  }

  datatype EvidenceProvider = DockerEvidence | SystemdEvidence | NpmEvidence | CronEvidence | TmuxEvidence
                            | ComposeEvidence | DockermapEvidence

  datatype EvidenceKind =
    | DockerNetworkMembership | DockerVolumeMount | DockerPortPublication | DockerUnspecifiedAddressPortPublication
    | DockerComposeDependsOn | DockerDaemonStateBindMount
    | SystemdRequires | SystemdWants | SystemdPartOf
    | NpmPackageManifestDependency | CronScheduleDeclaration | TmuxSessionListing
    | ComposeDeclaredMount | DockerComposeRuntimeBinding | RuntimeIdentityCollision

  datatype AssertionKind = Observed | Declared

  datatype EvidenceFreshness = FreshEvidence | StaleEvidence | TimedOutEvidence

  datatype EvidenceRef = EvidenceRef(
    version: nat,
    id: string,
    provider: EvidenceProvider,
    kind: EvidenceKind,
    assertionKind: AssertionKind,
    subjectRef: string,
    collectedAt: nat,
    providerRevision: string,
    providerSlot: Option<ProviderSlot>,
    freshness: EvidenceFreshness)

  datatype RuntimeEdge = RuntimeEdge(
    source: string,
    target: string,
    relationship: RelationshipKind,
    metadata: map<string, string>,
    evidenceRefs: seq<EvidenceRef>)

  /** The identities of facts the daemon adds to the topology itself. */
  datatype Reserved = IntegrityScopeId | CollisionRiskId | DaemonStateRiskId | UnspecifiedAddressRiskId

  function ReservedId(reserved: Reserved): string {
    match reserved
    case IntegrityScopeId => "runtime_integrity_scope"
    case CollisionRiskId => "runtime_integrity_risk_identity_collision"
    case DaemonStateRiskId => "host_risk_docker_daemon_state"
    case UnspecifiedAddressRiskId => "host_risk_docker_unspecified_address_port"
  }

  predicate StartsWith(s: string, prefix: string) {
    prefix <= s
  }
}
