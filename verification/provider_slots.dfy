/**
 One provider slot of the daemon's cache: claiming it, folding an outcome back in, and projecting its public
 state. The browser-side truth table for that state is the specification.
 */
module ProviderSlots {
  import opened Prelude
  import opened RuntimeModel
  import Decimal

  /** Monotonic times are in nanoseconds, wall-clock times in milliseconds. */
  const SECOND: nat := 1_000_000_000

  const MAX_CONCURRENT_PROVIDER_SLOTS: nat := 2

  function SlotInterval(slot: ProviderSlot): (interval: nat)
    ensures interval >= 10 * SECOND
  {
    match slot
    case NetworkInfrastructure => 10 * SECOND
    case HostScoped => 15 * SECOND
    case Tmux => 15 * SECOND
    case Cron => 15 * SECOND
    case Systemd => 15 * SECOND
    case PythonProcesses => 10 * SECOND
    case NativeProcesses => 10 * SECOND
    case ProjectNpm => 60 * SECOND
  }

  datatype CollectedState = CollectedState(slot: ProviderSlot, state: ProviderStateKind)

  /** One pass of one slot, as sanitized for retention. */
  datatype ProviderCollection = ProviderCollection(
    states: seq<CollectedState>, nodes: seq<RuntimeNode>, edges: seq<RuntimeEdge>, diagnostics: seq<string>)

  datatype SlotObservation =
    | Unavailable
    | Fresh(collection: ProviderCollection)
    | Collecting(retained: Option<ProviderCollection>)
    | Degraded(retained: Option<ProviderCollection>)
    | TimedOut(retained: Option<ProviderCollection>)

  datatype SlotDataRevision = SlotDataRevision(boot: string, sequence: nat)

  datatype SlotFreshness = SlotFreshness(
    lastAttemptMs: Option<nat>,
    lastSuccessMs: Option<nat>,
    lastDurationMs: Option<nat>,
    consecutiveFailureCount: nat,
    dataRevision: Option<SlotDataRevision>,
    dataObservable: Option<ProviderCollection>,
    statusReason: Option<ProviderStatusReason>)

  datatype SlotState = SlotState(observation: SlotObservation, completedAt: Option<nat>, freshness: SlotFreshness)

  const UNTOUCHED_FRESHNESS := SlotFreshness(None, None, None, 0, None, None, None)
  const UNTOUCHED_SLOT := SlotState(SlotObservation.Unavailable, None, UNTOUCHED_FRESHNESS)
  const RESET_SLOT := SlotState(SlotObservation.Unavailable, None, UNTOUCHED_FRESHNESS.(statusReason := Some(SourceReset)))

  datatype Outcome = Collected(collection: ProviderCollection) | InFlight | Failed | AttemptTimedOut

  // ---------------------------------------------------------------- transitions of one slot

  function RetainedCollection(observation: SlotObservation): Option<ProviderCollection> {
    match observation
    case Fresh(collection) => Some(collection)
    case Collecting(retained) => retained
    case Degraded(retained) => retained
    case TimedOut(retained) => retained
    case Unavailable => None
  }

  predicate ReportsDisabled(slot: ProviderSlot, collection: ProviderCollection) {
    CollectedState(slot, ProviderStateKind.Disabled) in collection.states
  }

  predicate Due(slot: ProviderSlot, state: SlotState, now: nat) {
    state.completedAt.None? || SaturatingSub(now, state.completedAt.value) >= SlotInterval(slot)
  }

  /** A slot the scheduler may start now: idle, due, and not settled as disabled. */
  predicate Claimable(slot: ProviderSlot, state: SlotState, now: nat) {
    && !state.observation.Collecting?
    && Due(slot, state, now)
    && !(state.observation.Fresh? && ReportsDisabled(slot, state.observation.collection))
  }

  function ClaimSlot(state: SlotState, wall: Option<nat>): SlotState {
    state.(observation := SlotObservation.Collecting(RetainedCollection(state.observation)),
           freshness := state.freshness.(lastAttemptMs := wall, statusReason := Some(Refreshing)))
  }

  function SuccessfulDuration(attempt: Option<nat>, completed: Option<nat>): Option<nat> {
    if attempt.Some? && completed.Some? then Some(SaturatingSub(completed.value, attempt.value)) else None
  }

  function UpdateDataRevision(freshness: SlotFreshness, collection: ProviderCollection, boot: string): SlotFreshness {
    if freshness.dataObservable == Some(collection) then freshness
    else
      var next := match freshness.dataRevision
        case Some(revision) => revision.(sequence := revision.sequence + 1)
        case None => SlotDataRevision(boot, 1);
      freshness.(dataRevision := Some(next), dataObservable := Some(collection))
  }

  function RecordSuccess(freshness: SlotFreshness, collection: ProviderCollection, wall: Option<nat>, boot: string)
    : SlotFreshness
  {
    UpdateDataRevision(freshness, collection, boot).(
      lastSuccessMs := wall,
      lastDurationMs := SuccessfulDuration(freshness.lastAttemptMs, wall),
      consecutiveFailureCount := 0,
      statusReason := None)
  }

  function RecordFailure(freshness: SlotFreshness, reason: ProviderStatusReason): SlotFreshness {
    freshness.(consecutiveFailureCount := Min(freshness.consecutiveFailureCount + 1, U32_MAX),
               statusReason := Some(reason))
  }

  /** Fold one outcome in. `sameEvidence`: the pass observed the Docker snapshot that is published now. */
  function ApplyOutcome(state: SlotState, outcome: Outcome, sameEvidence: bool, completedAt: nat, wall: Option<nat>,
                        boot: string): SlotState
  {
    match outcome
    case Collected(collection) =>
      SlotState(if sameEvidence then SlotObservation.Fresh(collection) else Degraded(Some(collection)), Some(completedAt),
                RecordSuccess(state.freshness, collection, wall, boot))
    case InFlight =>
      state.(observation := SlotObservation.TimedOut(RetainedCollection(state.observation)),
             freshness := RecordFailure(state.freshness, CollectionTimedOut))
    case Failed =>
      SlotState(Degraded(RetainedCollection(state.observation)), Some(completedAt),
                RecordFailure(state.freshness, CollectionFailed))
    case AttemptTimedOut =>
      SlotState(SlotObservation.TimedOut(RetainedCollection(state.observation)), Some(completedAt),
                RecordFailure(state.freshness, CollectionTimedOut))
  }

  /** A published Docker change makes a fresh network observation stale. */
  function MarkStale(state: SlotState): SlotState {
    match state.observation
    case Fresh(collection) => state.(observation := Degraded(Some(collection)))
    case _ => state
  }

  // ---------------------------------------------------------------- the public projection

  function FindState(slot: ProviderSlot, states: seq<CollectedState>): ProviderStateKind {
    if states == [] then ProviderStateKind.Unavailable
    else if states[0].slot == slot then states[0].state
    else FindState(slot, states[1..])
  }

  function BaseKind(slot: ProviderSlot, observation: SlotObservation): ProviderStateKind {
    match RetainedCollection(observation)
    case Some(collection) => FindState(slot, collection.states)
    case None => ProviderStateKind.Unavailable
  }

  function ProjectedKind(slot: ProviderSlot, observation: SlotObservation): ProviderStateKind {
    var base := BaseKind(slot, observation);
    match observation
    case Fresh(_) => base
    case Collecting(_) =>
      if base.Disabled? then ProviderStateKind.Disabled
      else if base.Unavailable? then ProviderStateKind.Collecting
      else ProviderStateKind.Stale
    case Degraded(retained) =>
      if base.Disabled? then ProviderStateKind.Disabled
      else if retained.Some? then ProviderStateKind.Stale
      else ProviderStateKind.Unavailable
    case TimedOut(_) => if base.Disabled? then ProviderStateKind.Disabled else ProviderStateKind.TimedOut
    case Unavailable => ProviderStateKind.Unavailable
  }

  function PublicRevision(revision: SlotDataRevision): string {
    revision.boot + ['-'] + Decimal.Print(revision.sequence)
  }

  function ProjectSlot(slot: ProviderSlot, state: SlotState): ProviderState {
    var kind := ProjectedKind(slot, state.observation);
    var f := state.freshness;
    ProviderState(slot, kind, f.lastAttemptMs, f.lastSuccessMs, f.lastDurationMs, f.consecutiveFailureCount,
                  match f.dataRevision { case Some(revision) => Some(PublicRevision(revision)) case None => None },
                  if kind.Disabled? then Some(SlotDisabled) else f.statusReason)
  }

  // ---------------------------------------------------------------- the browser's truth table

  predicate SafeInteger(value: Option<nat>) {
    value.Some? ==> value.value <= MAX_SAFE_INTEGER
  }

  /** `hasCoherentProviderFreshness` on one candidate of the declared wire types. */
  predicate FreshnessAccepted(s: ProviderState) {
    var attempt, success, duration, revision := s.lastAttemptMs, s.lastSuccessMs, s.lastDurationMs, s.dataRevision;
    && s.consecutiveFailureCount <= U32_MAX
    && SafeInteger(attempt) && SafeInteger(success) && SafeInteger(duration)
    && (revision.Some? ==> revision.value != "")
    && (success.Some? ==> attempt.Some?)
    && (duration.Some? ==> success.Some? && duration.value <= success.value)
    && (success.None? <==> duration.None?)
    && (revision.Some? ==> success.Some?)
    && match s.state
       case Fresh =>
         && s.statusReason.None? && s.consecutiveFailureCount == 0
         && success.Some? && attempt.Some? && attempt.value <= success.value && revision.Some?
       case Collecting =>
         s.statusReason == Some(Refreshing) && attempt.Some? && success.None? && duration.None? && revision.None?
       case TimedOut =>
         s.statusReason == Some(CollectionTimedOut) && s.consecutiveFailureCount > 0 && attempt.Some?
       case Disabled => s.statusReason == Some(SlotDisabled)
       case Stale =>
         && success.Some? && revision.Some?
         && ((s.statusReason == Some(Refreshing) && attempt.Some?)
             || (s.statusReason == Some(CollectionFailed) && attempt.Some? && s.consecutiveFailureCount > 0)
             || (s.statusReason.None? && attempt.Some? && attempt.value <= success.value))
       case Unavailable =>
         if s.statusReason == Some(CollectionFailed) then
           && attempt.Some? && success.None? && duration.None? && revision.None? && s.consecutiveFailureCount > 0
         else
           && (s.statusReason.None? || s.statusReason == Some(Initial) || s.statusReason == Some(SourceReset))
           && attempt.None? && success.None? && duration.None? && revision.None? && s.consecutiveFailureCount == 0
  }

  // ---------------------------------------------------------------- the slot invariant

  /** The slots whose relationships carry evidence. */
  predicate BindsEvidence(slot: ProviderSlot) {
    slot.Systemd? || slot.ProjectNpm? || slot.Cron? || slot.Tmux?
  }

  function MarkerKey(slot: ProviderSlot): string
    requires BindsEvidence(slot)
  {
    match slot
    case Systemd => "__dockermapSystemdEvidenceKind"
    case ProjectNpm => "__dockermapNpmManifestDependency"
    case Cron => "__dockermapCronScheduleDeclaration"
    case _ => "__dockermapTmuxSessionListing"
  }

  /** A collector's relationships carry no evidence yet and at most its own private marker. */
  predicate OwnEdge(slot: ProviderSlot, edge: RuntimeEdge) {
    && edge.evidenceRefs == []
    && forall other: ProviderSlot :: BindsEvidence(other) && other != slot ==> MarkerKey(other) !in edge.metadata
  }

  predicate OwnEdges(slot: ProviderSlot, edges: seq<RuntimeEdge>) {
    forall i :: 0 <= i < |edges| ==> OwnEdge(slot, edges[i])
  }

  /** What a collector reports: one state, for its own slot, Fresh or Disabled, and its own relationships. */
  predicate OwnReport(slot: ProviderSlot, collection: ProviderCollection) {
    && (collection.states == [CollectedState(slot, ProviderStateKind.Fresh)]
        || collection.states == [CollectedState(slot, ProviderStateKind.Disabled)])
    && OwnEdges(slot, collection.edges)
  }

  predicate OwnOutcome(slot: ProviderSlot, outcome: Outcome) {
    outcome.Collected? ==> OwnReport(slot, outcome.collection)
  }

  /** What every reachable slot satisfies; `clock` bounds the wall-clock times seen so far. */
  predicate SlotCoherent(slot: ProviderSlot, state: SlotState, clock: nat) {
    var f := state.freshness;
    && clock <= MAX_SAFE_INTEGER
    && (f.lastAttemptMs.Some? ==> f.lastAttemptMs.value <= clock)
    && f.consecutiveFailureCount <= U32_MAX
    && (f.dataObservable.Some? <==> f.dataRevision.Some?)
    && (match RetainedCollection(state.observation)
        case Some(collection) =>
          && OwnReport(slot, collection)
          && f.lastAttemptMs.Some? && f.lastSuccessMs.Some? && f.lastDurationMs.Some?
          && f.lastDurationMs.value <= f.lastSuccessMs.value <= clock
          && f.dataRevision.Some?
        case None => f.lastSuccessMs.None? && f.lastDurationMs.None? && f.dataRevision.None?)
    && match state.observation
       case Unavailable =>
         && f.lastAttemptMs.None? && f.consecutiveFailureCount == 0
         && (f.statusReason.None? || f.statusReason == Some(SourceReset))
       case Fresh(_) =>
         && f.statusReason.None? && f.consecutiveFailureCount == 0 && f.lastAttemptMs.value <= f.lastSuccessMs.value
       case Collecting(_) => f.statusReason == Some(Refreshing) && f.lastAttemptMs.Some?
       case Degraded(retained) =>
         && f.lastAttemptMs.Some?
         && ((f.statusReason == Some(CollectionFailed) && f.consecutiveFailureCount > 0)
             || (f.statusReason.None? && retained.Some? && f.lastAttemptMs.value <= f.lastSuccessMs.value))
       case TimedOut(_) =>
         f.statusReason == Some(CollectionTimedOut) && f.consecutiveFailureCount > 0 && f.lastAttemptMs.Some?
  }

  lemma CoherentIsAccepted(slot: ProviderSlot, state: SlotState, clock: nat)
    requires SlotCoherent(slot, state, clock)
    ensures FreshnessAccepted(ProjectSlot(slot, state))
  {
    var retained := RetainedCollection(state.observation);
    if retained.Some? {
      assert FindState(slot, retained.value.states) == retained.value.states[0].state;
    }
  }

  lemma ClaimKeepsCoherence(slot: ProviderSlot, state: SlotState, clock: nat, wall: nat)
    requires SlotCoherent(slot, state, clock) && clock <= wall <= MAX_SAFE_INTEGER
    ensures SlotCoherent(slot, ClaimSlot(state, Some(wall)), wall)
  {
  }

  lemma OutcomeKeepsCoherence(slot: ProviderSlot, state: SlotState, outcome: Outcome, same: bool, completedAt: nat,
                              clock: nat, wall: nat, boot: string)
    requires SlotCoherent(slot, state, clock) && clock <= wall <= MAX_SAFE_INTEGER
    requires state.observation.Collecting? && OwnOutcome(slot, outcome)
    ensures SlotCoherent(slot, ApplyOutcome(state, outcome, same, completedAt, Some(wall), boot), wall)
  {
  }

  lemma StaleKeepsCoherence(slot: ProviderSlot, state: SlotState, clock: nat)
    requires SlotCoherent(slot, state, clock)
    ensures SlotCoherent(slot, MarkStale(state), clock)
    ensures RetainedCollection(MarkStale(state).observation) == RetainedCollection(state.observation)
  {
  }

  lemma ResetIsCoherent(slot: ProviderSlot, clock: nat)
    requires clock <= MAX_SAFE_INTEGER
    ensures SlotCoherent(slot, UNTOUCHED_SLOT, clock) && SlotCoherent(slot, RESET_SLOT, clock)
  {
  }

  lemma ClockAdvanceKeepsCoherence(slot: ProviderSlot, state: SlotState, clock: nat, later: nat)
    requires SlotCoherent(slot, state, clock) && clock <= later <= MAX_SAFE_INTEGER
    ensures SlotCoherent(slot, state, later)
  {
  }

  /**
   Where the truth table fails. A success folded into any coherent slot is accepted exactly when the slot carries
   an attempt of this source generation and the wall clock is readable and, unless the slot is disabled, not behind
   that attempt. A claim whose generation is read after two source flips lands its outcome on a slot without an
   attempt.
   */
  lemma SuccessAcceptedExactly(slot: ProviderSlot, state: SlotState, collection: ProviderCollection, same: bool,
                               completedAt: nat, clock: nat, wall: Option<nat>, boot: string)
    requires SlotCoherent(slot, state, clock) && OwnReport(slot, collection) && SafeInteger(wall)
    ensures FreshnessAccepted(
              ProjectSlot(slot, ApplyOutcome(state, Collected(collection), same, completedAt, wall, boot)))
            <==>
            && state.freshness.lastAttemptMs.Some? && wall.Some?
            && (ReportsDisabled(slot, collection) || state.freshness.lastAttemptMs.value <= wall.value)
  {
    assert FindState(slot, collection.states) == collection.states[0].state;
  }

  /** An unsuccessful outcome is accepted exactly on a slot that carries an attempt of this source generation. */
  lemma FailureAcceptedExactly(slot: ProviderSlot, state: SlotState, outcome: Outcome, same: bool, completedAt: nat,
                               clock: nat, wall: Option<nat>, boot: string)
    requires SlotCoherent(slot, state, clock) && !outcome.Collected?
    ensures FreshnessAccepted(ProjectSlot(slot, ApplyOutcome(state, outcome, same, completedAt, wall, boot)))
            <==> state.freshness.lastAttemptMs.Some?
  {
    var retained := RetainedCollection(state.observation);
    if retained.Some? {
      assert FindState(slot, retained.value.states) == retained.value.states[0].state;
    }
  }

  /** A claim of a coherent slot stays accepted exactly when the wall clock is readable. */
  lemma ClaimAcceptedExactly(slot: ProviderSlot, state: SlotState, clock: nat, wall: Option<nat>)
    requires SlotCoherent(slot, state, clock) && SafeInteger(wall)
    ensures FreshnessAccepted(ProjectSlot(slot, ClaimSlot(state, wall))) <==> wall.Some?
  {
    var retained := RetainedCollection(state.observation);
    if retained.Some? {
      assert FindState(slot, retained.value.states) == retained.value.states[0].state;
    }
  }
}
