/** What the browser sees of a slot before and after each step, in terms of the public states alone. */
module SlotTable {
  import opened Prelude
  import opened RuntimeModel
  import opened ProviderSlots
  import opened Scheduler

  predicate KeepsRecord(before: ProviderState, after: ProviderState) {
    && after.lastAttemptMs == before.lastAttemptMs && after.lastSuccessMs == before.lastSuccessMs
    && after.lastDurationMs == before.lastDurationMs && after.dataRevision == before.dataRevision
  }

  /** A collection: fresh on the evidence it was taken from, stale on any other, and a clean record. */
  predicate ShowsCollection(before: ProviderState, after: ProviderState, disabled: bool, same: bool, wall: nat) {
    && after.state == (if disabled then ProviderStateKind.Disabled
                       else if same then ProviderStateKind.Fresh else ProviderStateKind.Stale)
    && after.statusReason == (if disabled then Some(SlotDisabled) else None)
    && after.lastAttemptMs == before.lastAttemptMs && after.lastSuccessMs == Some(wall)
    && after.lastDurationMs == (if before.lastAttemptMs.None? then None
                                else if before.lastAttemptMs.value <= wall then Some(wall - before.lastAttemptMs.value)
                                else Some(0))
    && after.consecutiveFailureCount == 0 && after.dataRevision.Some?
  }

  /** A failure keeps the record, counts one more up to the largest 32-bit number, and says why. */
  predicate ShowsFailure(before: ProviderState, after: ProviderState, timedOut: bool) {
    && KeepsRecord(before, after)
    && after.consecutiveFailureCount
       == (if before.consecutiveFailureCount < 4_294_967_295 then before.consecutiveFailureCount + 1 else 4_294_967_295)
    && after.state == (if before.state.Disabled? then ProviderStateKind.Disabled
                       else if timedOut then ProviderStateKind.TimedOut
                       else if before.lastSuccessMs.Some? then ProviderStateKind.Stale
                       else ProviderStateKind.Unavailable)
    && after.statusReason == Some(if before.state.Disabled? then SlotDisabled
                                  else if timedOut then CollectionTimedOut else CollectionFailed)
  }

  /** A claim notes the attempt; what was collected before shows as stale meanwhile. */
  predicate ShowsClaim(before: ProviderState, after: ProviderState, wall: nat) {
    && after.lastAttemptMs == Some(wall) && after.lastSuccessMs == before.lastSuccessMs
    && after.lastDurationMs == before.lastDurationMs && after.dataRevision == before.dataRevision
    && after.consecutiveFailureCount == before.consecutiveFailureCount
    && after.state == (if before.state.Disabled? then ProviderStateKind.Disabled
                       else if before.lastSuccessMs.Some? then ProviderStateKind.Stale
                       else ProviderStateKind.Collecting)
    && after.statusReason == Some(if before.state.Disabled? then SlotDisabled else Refreshing)
  }

  /** A source flip: nothing is known, nothing was tried. */
  predicate ShowsReset(after: ProviderState) {
    && after.state.Unavailable? && after.statusReason == Some(SourceReset) && after.consecutiveFailureCount == 0
    && after.lastAttemptMs.None? && after.lastSuccessMs.None? && after.lastDurationMs.None? && after.dataRevision.None?
  }

  /** Evidence the slot was not collected from: a fresh state becomes stale, and nothing else moves. */
  predicate ShowsStale(before: ProviderState, after: ProviderState) {
    after == if before.state.Fresh? then before.(state := ProviderStateKind.Stale) else before
  }

  /** Whether the slot retains a collection, and whether that reports it disabled, can be read off its public state. */
  lemma RetainedShows(slot: ProviderSlot, state: SlotState, clock: nat)
    requires SlotCoherent(slot, state, clock)
    ensures var p, retained := ProjectSlot(slot, state), RetainedCollection(state.observation);
            && p.slot == slot
            && (p.lastSuccessMs.Some? <==> retained.Some?)
            && (p.state.Disabled? <==> retained.Some? && retained.value.states == [CollectedState(slot, ProviderStateKind.Disabled)])
            && (retained.Some? ==> BaseKind(slot, state.observation) == retained.value.states[0].state)
            && (retained.None? ==> BaseKind(slot, state.observation).Unavailable?)
  {
    var retained := RetainedCollection(state.observation);
    if retained.Some? {
      assert FindState(slot, retained.value.states) == retained.value.states[0].state;
    }
  }

  lemma CollectionShows(slot: ProviderSlot, state: SlotState, collection: ProviderCollection, same: bool, now: nat, clock: nat,
                        wall: nat, boot: string)
    requires SlotCoherent(slot, state, clock) && state.observation.Collecting? && OwnReport(slot, collection)
    ensures ShowsCollection(ProjectSlot(slot, state),
                            ProjectSlot(slot, ApplyOutcome(state, Collected(collection), same, now, Some(wall), boot)),
                            collection.states == [CollectedState(slot, ProviderStateKind.Disabled)], same, wall)
  {
    assert FindState(slot, collection.states) == collection.states[0].state;
  }

  lemma FailureShows(slot: ProviderSlot, state: SlotState, outcome: Outcome, same: bool, now: nat, clock: nat, wall: nat,
                     boot: string)
    requires SlotCoherent(slot, state, clock) && state.observation.Collecting? && !outcome.Collected?
    ensures ShowsFailure(ProjectSlot(slot, state),
                         ProjectSlot(slot, ApplyOutcome(state, outcome, same, now, Some(wall), boot)), !outcome.Failed?)
  {
    RetainedShows(slot, state, clock);
  }

  lemma ClaimShows(slot: ProviderSlot, state: SlotState, clock: nat, wall: nat)
    requires SlotCoherent(slot, state, clock)
    ensures ShowsClaim(ProjectSlot(slot, state), ProjectSlot(slot, ClaimSlot(state, Some(wall))), wall)
  {
    RetainedShows(slot, state, clock);
  }

  lemma ResetShows(slot: ProviderSlot)
    ensures ShowsReset(ProjectSlot(slot, RESET_SLOT))
  {
  }

  lemma StaleShows(slot: ProviderSlot, state: SlotState, clock: nat)
    requires SlotCoherent(slot, state, clock)
    ensures ShowsStale(ProjectSlot(slot, state), ProjectSlot(slot, MarkStale(state)))
  {
    RetainedShows(slot, state, clock);
  }
}
