/**
 The provider scheduler: the fixed slots as one state, claiming them within the worker budget, and the
 publications and outcomes that move them.
 */
module Scheduler {
  import opened Prelude
  import opened RuntimeModel
  import opened ProviderSlots

  /** One state for every fixed slot. */
  type Slots = m: map<ProviderSlot, SlotState> | forall slot: ProviderSlot :: slot in m
    ghost witness map slot: ProviderSlot | true :: UNTOUCHED_SLOT

  /** The table of all slots that have a collection interval, each in the same state. */
  function SlotsOf(state: SlotState): (slots: Slots)
    ensures forall slot: ProviderSlot :: slots[slot] == state
  {
    map slot: ProviderSlot | SlotInterval(slot) > 0 :: state
  }

  /** The part of the cache the scheduler moves. */
  datatype Core = Core(mode: RuntimeMode, generation: nat, slots: Slots)

  const STARTED: Core := Core(Mock, 0, SlotsOf(UNTOUCHED_SLOT))

  // ---------------------------------------------------------------- claiming

  function CollectingSlots(slots: Slots): set<ProviderSlot> {
    set slot: ProviderSlot | slots[slot].observation.Collecting?
  }

  /** The slots a claim starts: the claimable ones in their fixed order, as far as the budget goes. */
  function FirstClaimable(order: seq<ProviderSlot>, slots: Slots, now: nat, budget: nat): seq<ProviderSlot> {
    if order == [] || budget == 0 then []
    else if Claimable(order[0], slots[order[0]], now) then
      [order[0]] + FirstClaimable(order[1..], slots, now, budget - 1)
    else FirstClaimable(order[1..], slots, now, budget)
  }

  function Budget(slots: Slots, active: nat): nat {
    SaturatingSub(MAX_CONCURRENT_PROVIDER_SLOTS, Max(|CollectingSlots(slots)|, active))
  }

  function Claimed(slots: Slots, now: nat, active: nat): seq<ProviderSlot> {
    FirstClaimable(STATIC_PROVIDER_SLOTS, slots, now, Budget(slots, active))
  }

  function StartSlots(slots: Slots, claimed: seq<ProviderSlot>, wall: Option<nat>): (started: Slots)
    ensures forall slot: ProviderSlot ::
              started[slot] == if slot in claimed then ClaimSlot(slots[slot], wall) else slots[slot]
  {
    map slot | slot in slots :: if slot in claimed then ClaimSlot(slots[slot], wall) else slots[slot]
  }

  predicate Distinct<T(==)>(s: seq<T>) {
    forall i, j :: 0 <= i < j < |s| ==> s[i] != s[j]
  }

  /** A claim stays in budget, takes only claimable slots, each once, and leaves one out only when the budget is used. */
  lemma {:induction false} FirstClaimableIs(order: seq<ProviderSlot>, slots: Slots, now: nat, budget: nat)
    requires Distinct(order)
    ensures var claimed := FirstClaimable(order, slots, now, budget);
            && |claimed| <= budget && Distinct(claimed)
            && (forall slot :: slot in claimed ==> slot in order && Claimable(slot, slots[slot], now))
            && (|claimed| < budget ==> forall slot :: slot in order && Claimable(slot, slots[slot], now) ==> slot in claimed)
  {
    if order != [] && budget > 0 {
      assert order == [order[0]] + order[1..];
      if Claimable(order[0], slots[order[0]], now) {
        FirstClaimableIs(order[1..], slots, now, budget - 1);
        var rest := FirstClaimable(order[1..], slots, now, budget - 1);
        assert forall slot :: slot in rest ==> slot in order[1..];
      } else {
        FirstClaimableIs(order[1..], slots, now, budget);
      }
    }
  }

  lemma ClaimedIs(slots: Slots, now: nat, active: nat)
    ensures var claimed := Claimed(slots, now, active);
            && |claimed| <= Budget(slots, active) && Distinct(claimed)
            && (forall slot :: slot in claimed ==> Claimable(slot, slots[slot], now))
            && (|claimed| < Budget(slots, active) ==>
                  forall slot: ProviderSlot :: Claimable(slot, slots[slot], now) ==> slot in claimed)
  {
    forall slot: ProviderSlot ensures slot in STATIC_PROVIDER_SLOTS {
      StaticSlotsAreAll(slot);
    }
    StaticSlotsAreAll(Tmux);
    FirstClaimableIs(STATIC_PROVIDER_SLOTS, slots, now, Budget(slots, active));
  }

  /** The claiming loop, slot by slot over the live table. */
  method ClaimDueSlots(slots: Slots, now: nat, active: nat, wall: Option<nat>)
    returns (started: Slots, claimed: seq<ProviderSlot>)
    ensures claimed == Claimed(slots, now, active)
    ensures started == StartSlots(slots, claimed, wall)
  {
    StaticSlotsAreAll(Tmux);
    var occupied := |CollectingSlots(slots)|;
    var remaining := SaturatingSub(MAX_CONCURRENT_PROVIDER_SLOTS, Max(occupied, active));
    started, claimed := ClaimInOrder(STATIC_PROVIDER_SLOTS, slots, now, remaining, wall);
  }

  method ClaimInOrder(order: seq<ProviderSlot>, slots: Slots, now: nat, budget: nat, wall: Option<nat>)
    returns (started: Slots, claimed: seq<ProviderSlot>)
    requires Distinct(order)
    ensures claimed == FirstClaimable(order, slots, now, budget)
    ensures started == StartSlots(slots, claimed, wall)
  {
    var remaining := budget;
    started, claimed := slots, [];
    for k := 0 to |order|
      invariant started == StartSlots(slots, claimed, wall)
      invariant forall slot :: slot in claimed ==> slot in order[..k]
      invariant FirstClaimable(order, slots, now, budget) == claimed + FirstClaimable(order[k..], slots, now, remaining)
    {
      if remaining == 0 {
        return;
      }
      var slot := order[k];
      RemainingOrder(order, k, claimed);
      var current := started[slot];
      if current.observation.Collecting? {
        continue;
      }
      var due := current.completedAt.None? || SaturatingSub(now, current.completedAt.value) >= SlotInterval(slot);
      if !due || (current.observation.Fresh? && ReportsDisabled(slot, current.observation.collection)) {
        continue;
      }
      StartOneMore(slots, claimed, slot, wall);
      started := started[slot := ClaimSlot(current, wall)];
      claimed := claimed + [slot];
      remaining := remaining - 1;
    }
  }

  lemma RemainingOrder(order: seq<ProviderSlot>, k: nat, claimed: seq<ProviderSlot>)
    requires k < |order| && Distinct(order)
    requires forall slot :: slot in claimed ==> slot in order[..k]
    ensures order[k] !in claimed
    ensures order[k..][0] == order[k] && order[k..][1..] == order[k + 1..]
    ensures order[..k + 1] == order[..k] + [order[k]]
  {
  }

  lemma StartOneMore(slots: Slots, claimed: seq<ProviderSlot>, slot: ProviderSlot, wall: Option<nat>)
    requires slot !in claimed
    ensures StartSlots(slots, claimed + [slot], wall)
            == StartSlots(slots, claimed, wall)[slot := ClaimSlot(StartSlots(slots, claimed, wall)[slot], wall)]
  {
    var a := StartSlots(slots, claimed + [slot], wall);
    var b := StartSlots(slots, claimed, wall)[slot := ClaimSlot(StartSlots(slots, claimed, wall)[slot], wall)];
    forall s: ProviderSlot ensures a[s] == b[s] {
    }
  }

  // ---------------------------------------------------------------- transitions

  function ClaimCore(c: Core, now: nat, active: nat, wall: Option<nat>): Core {
    c.(slots := StartSlots(c.slots, Claimed(c.slots, now, active), wall))
  }

  function StaleNetwork(slots: Slots): (r: Slots)
    ensures forall slot: ProviderSlot ::
              r[slot] == if slot == NetworkInfrastructure then MarkStale(slots[slot]) else slots[slot]
  {
    slots[NetworkInfrastructure := MarkStale(slots[NetworkInfrastructure])]
  }

  /** A publication: a source flip drops every slot; changed Docker evidence makes the network slot stale. */
  function PublishCore(c: Core, mode: RuntimeMode, sameEvidence: bool): Core {
    if mode != c.mode then Core(mode, c.generation + 1, SlotsOf(RESET_SLOT))
    else if sameEvidence then c
    else c.(slots := StaleNetwork(c.slots))
  }

  /** An outcome counts only for the source generation it was started in. */
  function OutcomeCore(c: Core, slot: ProviderSlot, mode: RuntimeMode, generation: nat, outcome: Outcome,
                       sameEvidence: bool, completedAt: nat, wall: Option<nat>, boot: string): Core
  {
    if c.mode != mode || c.generation != generation then c
    else c.(slots := c.slots[slot := ApplyOutcome(c.slots[slot], outcome, sameEvidence, completedAt, wall, boot)])
  }

  /** `provider_states_for`. */
  function ProviderStatesFor(slots: Slots): (states: seq<ProviderState>)
    ensures |states| == |STATIC_PROVIDER_SLOTS|
    ensures forall i :: 0 <= i < |states| ==>
              states[i] == ProjectSlot(STATIC_PROVIDER_SLOTS[i], slots[STATIC_PROVIDER_SLOTS[i]])
  {
    seq(|STATIC_PROVIDER_SLOTS|, i requires 0 <= i < |STATIC_PROVIDER_SLOTS| =>
      ProjectSlot(STATIC_PROVIDER_SLOTS[i], slots[STATIC_PROVIDER_SLOTS[i]]))
  }

  predicate CoreCoherent(c: Core, clock: nat) {
    && (forall slot: ProviderSlot :: SlotCoherent(slot, c.slots[slot], clock))
    && (c.mode == Mock ==> forall slot: ProviderSlot :: RetainedCollection(c.slots[slot].observation).None?)
  }

  ghost predicate Listed(states: seq<ProviderState>, slot: ProviderSlot) {
    exists i :: 0 <= i < |states| && states[i].slot == slot
  }

  /** The browser's complete vector: every slot exactly once, each state accepted by the freshness truth table. */
  ghost predicate VectorAccepted(states: seq<ProviderState>) {
    && (forall slot :: Listed(states, slot))
    && (forall i, j :: 0 <= i < j < |states| ==> states[i].slot != states[j].slot)
    && (forall i :: 0 <= i < |states| ==> FreshnessAccepted(states[i]))
  }

  lemma ProjectedInOrder(order: seq<ProviderSlot>, states: seq<ProviderState>, slots: Slots, clock: nat)
    requires Distinct(order) && |states| == |order|
    requires forall slot: ProviderSlot :: slot in order
    requires forall i :: 0 <= i < |order| ==> states[i] == ProjectSlot(order[i], slots[order[i]])
    requires forall slot: ProviderSlot :: SlotCoherent(slot, slots[slot], clock)
    ensures VectorAccepted(states)
  {
    forall slot ensures Listed(states, slot) {
      assert slot in order;
      var i :| 0 <= i < |order| && order[i] == slot;
      assert states[i].slot == slot;
    }
    forall i | 0 <= i < |states| ensures FreshnessAccepted(states[i]) {
      CoherentIsAccepted(order[i], slots[order[i]], clock);
    }
    forall i | 0 <= i < |states| ensures states[i].slot == order[i] {
    }
  }

  lemma CoherentVectorAccepted(c: Core, clock: nat)
    requires CoreCoherent(c, clock)
    ensures VectorAccepted(ProviderStatesFor(c.slots))
  {
    StaticSlotsAreAll(Tmux);
    forall slot: ProviderSlot ensures slot in STATIC_PROVIDER_SLOTS {
      StaticSlotsAreAll(slot);
    }
    ProjectedInOrder(STATIC_PROVIDER_SLOTS, ProviderStatesFor(c.slots), c.slots, clock);
  }
}
