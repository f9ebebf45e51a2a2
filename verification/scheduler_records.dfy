/** Exactly which slots a claim starts, in terms of what the table holds. */
module SchedulerRecords {
  import opened Prelude
  import opened RuntimeModel
  import opened ProviderSlots
  import opened Scheduler

  /** The place of a slot in the fixed order. */
  function Rank(slot: ProviderSlot): nat {
    match slot
    case NetworkInfrastructure => 0
    case HostScoped => 1
    case Tmux => 2
    case Cron => 3
    case Systemd => 4
    case PythonProcesses => 5
    case NativeProcesses => 6
    case ProjectNpm => 7
  }

  lemma RankIsPlace(k: nat)
    requires k < |STATIC_PROVIDER_SLOTS|
    ensures Rank(STATIC_PROVIDER_SLOTS[k]) == k
  {
  }

  /** Ten seconds for processes and the network, a minute for npm, fifteen seconds for the others, in nanoseconds. */
  function Pause(slot: ProviderSlot): nat {
    if slot.NetworkInfrastructure? || slot.PythonProcesses? || slot.NativeProcesses? then 10_000_000_000
    else if slot.ProjectNpm? then 60_000_000_000
    else 15_000_000_000
  }

  /** An interval has passed since the slot last completed, nothing runs for it, and it is not settled as disabled. */
  predicate Eligible(slot: ProviderSlot, state: SlotState, now: nat) {
    && !state.observation.Collecting?
    && (state.completedAt.Some? ==> state.completedAt.value + Pause(slot) <= now)
    && !(state.observation.Fresh?
         && exists reported :: reported in state.observation.collection.states
                               && reported.slot == slot && reported.state.Disabled?)
  }

  lemma EligibleIsClaimable(slot: ProviderSlot, state: SlotState, now: nat)
    ensures Claimable(slot, state, now) <==> Eligible(slot, state, now)
  {
    if state.observation.Fresh? {
      if reported :| reported in state.observation.collection.states && reported.slot == slot && reported.state.Disabled? {
        assert reported == CollectedState(slot, ProviderStateKind.Disabled);
      }
    }
  }

  function Among(s: seq<ProviderSlot>, slots: Slots, now: nat): nat {
    if s == [] then 0 else (if Claimable(s[0], slots[s[0]], now) then 1 else 0) + Among(s[1..], slots, now)
  }

  lemma {:induction false} FirstClaimableHas(order: seq<ProviderSlot>, slots: Slots, now: nat, budget: nat, k: nat)
    requires Distinct(order) && k < |order|
    ensures order[k] in FirstClaimable(order, slots, now, budget)
            <==> Claimable(order[k], slots[order[k]], now) && Among(order[..k], slots, now) < budget
  {
    FirstClaimableIs(order, slots, now, budget);
    if k > 0 && budget > 0 {
      var rest := order[1..];
      assert order[..k][0] == order[0] && order[..k][1..] == rest[..k - 1] && rest[k - 1] == order[k];
      if Claimable(order[0], slots[order[0]], now) {
        FirstClaimableHas(rest, slots, now, budget - 1, k - 1);
      } else {
        FirstClaimableHas(rest, slots, now, budget, k - 1);
      }
    }
  }

  /** The eligible slots that come before a place in the order. */
  ghost function EligibleBefore(slots: Slots, now: nat, k: nat): set<ProviderSlot> {
    set slot: ProviderSlot | Rank(slot) < k && Eligible(slot, slots[slot], now)
  }

  lemma AmongAppend(s: seq<ProviderSlot>, slot: ProviderSlot, slots: Slots, now: nat)
    ensures Among(s + [slot], slots, now)
            == Among(s, slots, now) + (if Claimable(slot, slots[slot], now) then 1 else 0)
  {
    if s != [] {
      assert (s + [slot])[1..] == s[1..] + [slot];
      AmongAppend(s[1..], slot, slots, now);
    }
  }

  lemma {:induction false} AmongIsCount(slots: Slots, now: nat, k: nat)
    requires k <= |STATIC_PROVIDER_SLOTS|
    ensures Among(STATIC_PROVIDER_SLOTS[..k], slots, now) == |EligibleBefore(slots, now, k)|
  {
    var order := STATIC_PROVIDER_SLOTS;
    if k == 0 {
      assert EligibleBefore(slots, now, 0) == {};
    } else {
      var slot := order[k - 1];
      AmongIsCount(slots, now, k - 1);
      assert order[..k] == order[..k - 1] + [slot];
      AmongAppend(order[..k - 1], slot, slots, now);
      EligibleIsClaimable(slot, slots[slot], now);
      RankIsPlace(k - 1);
      OnlyRank(slots, now, k - 1, slot);
    }
  }

  lemma OnlyRank(slots: Slots, now: nat, k: nat, slot: ProviderSlot)
    requires Rank(slot) == k
    ensures EligibleBefore(slots, now, k + 1)
            == EligibleBefore(slots, now, k) + if Eligible(slot, slots[slot], now) then {slot} else {}
    ensures slot !in EligibleBefore(slots, now, k)
  {
  }

  /** What is left of the two places for workers, running and collecting ones counted once. */
  ghost function Free(slots: Slots, active: nat): nat {
    var collecting := |set slot: ProviderSlot | slots[slot].observation.Collecting?|;
    var taken := if collecting < active then active else collecting;
    if taken < 2 then 2 - taken else 0
  }

  /**
   A slot is claimed exactly when it is eligible and fewer eligible slots come before it in the fixed order than there
   are free places.
   */
  lemma ClaimedExactly(slots: Slots, now: nat, active: nat, slot: ProviderSlot)
    ensures slot in Claimed(slots, now, active)
            <==> Eligible(slot, slots[slot], now) && |EligibleBefore(slots, now, Rank(slot))| < Free(slots, active)
  {
    StaticSlotsAreAll(slot);
    var k :| 0 <= k < |STATIC_PROVIDER_SLOTS| && STATIC_PROVIDER_SLOTS[k] == slot;
    RankIsPlace(k);
    FirstClaimableHas(STATIC_PROVIDER_SLOTS, slots, now, Budget(slots, active), k);
    AmongIsCount(slots, now, k);
    EligibleIsClaimable(slot, slots[slot], now);
  }

  /** A claim turns the slots it starts to collecting and leaves every other slot as it is. */
  lemma ClaimStartsThem(c: Core, now: nat, active: nat, wall: Option<nat>, slot: ProviderSlot)
    ensures var before, after := c.slots[slot], ClaimCore(c, now, active, wall).slots[slot];
            if slot in Claimed(c.slots, now, active) then
              after.observation.Collecting? && after.completedAt == before.completedAt
              && RetainedCollection(after.observation) == RetainedCollection(before.observation)
            else after == before
  {
  }
}
