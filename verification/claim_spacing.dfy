/** Completion-relative scheduling: how often one slot is claimed, within a source generation and across flips. */
module ClaimSpacing {
  import opened Prelude
  import opened RuntimeModel
  import opened ProviderSlots
  import opened Scheduler
  import opened WorkerRuns
  import opened WorkerBounds

  /** One claim of a slot, when its outcome came unless that was in flight, and the source generation of both. */
  datatype Attempt = Attempt(claimedAt: nat, completedAt: Option<nat>, generation: nat)

  predicate Claims(s: System, step: Step, slot: ProviderSlot) {
    step.Claim? && slot in Claimed(s.core.slots, step.now, |s.guards|)
  }

  /** An outcome of the slot is applied. */
  predicate Applies(s: System, step: Step, slot: ProviderSlot)
    requires Enabled(s, step)
  {
    && step.Deliver?
    && var task := s.tasks[step.task];
       task.slot == slot && task.mode == s.core.mode && task.generation == s.core.generation
  }

  predicate Completes(s: System, step: Step, slot: ProviderSlot)
    requires Enabled(s, step)
  {
    Applies(s, step, slot) && !step.outcome.InFlight?
  }

  function CompleteLast(attempts: seq<Attempt>, now: nat): (r: seq<Attempt>)
    ensures |r| == |attempts|
  {
    if attempts == [] then []
    else attempts[|attempts| - 1 := attempts[|attempts| - 1].(completedAt := Some(now))]
  }

  predicate FlipsSource(s: System, step: Step) {
    step.Publish? && step.mode != s.core.mode
  }

  function StepAttempts(s: System, step: Step, slot: ProviderSlot, before: seq<Attempt>): seq<Attempt>
    requires Enabled(s, step)
  {
    if Claims(s, step, slot) then before + [Attempt(step.now, None, s.core.generation)]
    else if Completes(s, step, slot) then CompleteLast(before, step.now)
    else before
  }

  /** All attempts of a slot, oldest first. */
  function Attempts(steps: seq<Step>, boot: string, slot: ProviderSlot): seq<Attempt>
    requires After(steps, boot).Some?
  {
    if steps == [] then []
    else
      var front := steps[..|steps| - 1];
      StepAttempts(After(front, boot).value, steps[|steps| - 1], slot, Attempts(front, boot, slot))
  }

  /** When the slot last completed in a generation that is still running, in-flight outcomes not counted. */
  function LastCompletion(attempts: seq<Attempt>, generation: nat): Option<nat> {
    if attempts == [] || attempts[|attempts| - 1].generation != generation then None
    else if attempts[|attempts| - 1].completedAt.Some? then attempts[|attempts| - 1].completedAt
    else LastCompletion(attempts[..|attempts| - 1], generation)
  }

  /** Every claim rests an interval behind every completion before it in its generation. */
  predicate Rested(attempts: seq<Attempt>, interval: nat) {
    forall i, j :: 0 <= i < j < |attempts| ==> RestsBehind(attempts[i], attempts[j], interval)
  }

  predicate RestsBehind(a: Attempt, b: Attempt, interval: nat) {
    && a.claimedAt <= b.claimedAt && a.generation <= b.generation
    && (a.generation == b.generation && a.completedAt.Some? ==>
          a.claimedAt <= a.completedAt.value && a.completedAt.value + interval <= b.claimedAt)
  }

  predicate Ordered(a: Attempt, now: nat, generation: nat) {
    && a.claimedAt <= now && a.generation <= generation
    && (a.completedAt.Some? ==> a.claimedAt <= a.completedAt.value)
  }

  predicate AllOrdered(attempts: seq<Attempt>, now: nat, generation: nat) {
    forall i :: 0 <= i < |attempts| ==> Ordered(attempts[i], now, generation)
  }

  predicate Open(attempts: seq<Attempt>, generation: nat) {
    && attempts != [] && attempts[|attempts| - 1].completedAt.None?
    && attempts[|attempts| - 1].generation == generation
  }

  /**
   How the attempts show in the slot: its completion time is the last one of the running generation, and a collecting
   slot's last claim is open.
   */
  ghost predicate Tracked(s: System, slot: ProviderSlot, attempts: seq<Attempt>) {
    var state := s.core.slots[slot];
    && state.completedAt == LastCompletion(attempts, s.core.generation)
    && (state.observation.Collecting? ==> Open(attempts, s.core.generation))
    && AllOrdered(attempts, s.now, s.core.generation)
  }

  lemma {:induction false} LastIsLatest(attempts: seq<Attempt>, interval: nat, now: nat, generation: nat, i: nat)
    requires Rested(attempts, interval) && AllOrdered(attempts, now, generation)
    requires i < |attempts| && attempts[i].generation == generation && attempts[i].completedAt.Some?
    ensures LastCompletion(attempts, generation).Some?
    ensures attempts[i].completedAt.value <= LastCompletion(attempts, generation).value
  {
    var n := |attempts| - 1;
    assert Ordered(attempts[n], now, generation);
    assert i < n ==> RestsBehind(attempts[i], attempts[n], interval);
    if attempts[n].completedAt.None? {
      var front := attempts[..n];
      assert forall k, j :: 0 <= k < j < |front| ==> RestsBehind(attempts[k], attempts[j], interval);
      LastIsLatest(front, interval, now, generation, i);
    }
  }

  lemma ClaimKeepsRest(attempts: seq<Attempt>, interval: nat, now: nat, generation: nat)
    requires Rested(attempts, interval) && AllOrdered(attempts, now, generation)
    requires LastCompletion(attempts, generation).Some? ==> LastCompletion(attempts, generation).value + interval <= now
    ensures Rested(attempts + [Attempt(now, None, generation)], interval)
    ensures LastCompletion(attempts + [Attempt(now, None, generation)], generation) == LastCompletion(attempts, generation)
  {
    var after := attempts + [Attempt(now, None, generation)];
    assert after[..|attempts|] == attempts;
    forall i, j | 0 <= i < j < |after| ensures RestsBehind(after[i], after[j], interval) {
      if j < |attempts| {
        assert RestsBehind(attempts[i], attempts[j], interval);
      } else {
        assert Ordered(attempts[i], now, generation);
        if attempts[i].generation == generation && attempts[i].completedAt.Some? {
          LastIsLatest(attempts, interval, now, generation, i);
        }
      }
    }
  }

  lemma CompletionKeepsRest(attempts: seq<Attempt>, interval: nat, now: nat, generation: nat)
    requires Rested(attempts, interval) && AllOrdered(attempts, now, generation) && Open(attempts, generation)
    ensures Rested(CompleteLast(attempts, now), interval)
    ensures LastCompletion(CompleteLast(attempts, now), generation) == Some(now)
  {
    var after := CompleteLast(attempts, now);
    forall i, j | 0 <= i < j < |after| ensures RestsBehind(after[i], after[j], interval) {
      assert RestsBehind(attempts[i], attempts[j], interval);
    }
  }

  lemma ClaimIsDue(s: System, step: Step, slot: ProviderSlot)
    requires Claims(s, step, slot) && Enabled(s, step)
    ensures !s.core.slots[slot].observation.Collecting? && Due(slot, s.core.slots[slot], step.now)
  {
    ClaimedIs(s.core.slots, step.now, |s.guards|);
  }

  lemma ClaimKeepsTracking(s: System, step: Step, boot: string, slot: ProviderSlot, attempts: seq<Attempt>)
    requires Enabled(s, step) && step.Claim?
    requires Tracked(s, slot, attempts) && Rested(attempts, SlotInterval(slot))
    ensures var after := StepAttempts(s, step, slot, attempts);
            Tracked(Next(s, step, boot), slot, after) && Rested(after, SlotInterval(slot))
  {
    if Claims(s, step, slot) {
      ClaimIsDue(s, step, slot);
      ClaimKeepsRest(attempts, SlotInterval(slot), step.now, s.core.generation);
    }
  }

  lemma OutcomeKeepsTracking(s: System, step: Step, boot: string, slot: ProviderSlot, attempts: seq<Attempt>)
    requires Coherent(s) && Enabled(s, step) && Applies(s, step, slot)
    requires Tracked(s, slot, attempts) && Rested(attempts, SlotInterval(slot))
    ensures var after := StepAttempts(s, step, slot, attempts);
            Tracked(Next(s, step, boot), slot, after) && Rested(after, SlotInterval(slot))
  {
    assert TaskOwned(s, step.task);
    CompletionKeepsRest(attempts, SlotInterval(slot), step.now, s.core.generation);
  }

  lemma OtherStepKeepsTracking(s: System, step: Step, boot: string, slot: ProviderSlot, attempts: seq<Attempt>)
    requires Enabled(s, step) && !step.Claim? && !Applies(s, step, slot) && !FlipsSource(s, step)
    requires Tracked(s, slot, attempts)
    ensures Tracked(Next(s, step, boot), slot, attempts)
  {
    if step.Deliver? {
      var task := s.tasks[step.task];
      OutcomeMovesOneSlot(s.core, task.slot, task.mode, task.generation, step.outcome, step.sameEvidence, step.now,
                          Some(step.wall), boot);
    }
  }

  lemma FlipKeepsTracking(s: System, step: Step, boot: string, slot: ProviderSlot, attempts: seq<Attempt>)
    requires Enabled(s, step) && FlipsSource(s, step) && Tracked(s, slot, attempts)
    ensures Tracked(Next(s, step, boot), slot, attempts)
  {
    forall i | 0 <= i < |attempts| ensures Ordered(attempts[i], s.now, s.core.generation + 1) {
      assert Ordered(attempts[i], s.now, s.core.generation);
    }
  }

  lemma StepKeepsTracking(s: System, step: Step, boot: string, slot: ProviderSlot, attempts: seq<Attempt>)
    requires Coherent(s) && Enabled(s, step)
    requires Tracked(s, slot, attempts) && Rested(attempts, SlotInterval(slot))
    ensures var after := StepAttempts(s, step, slot, attempts);
            Tracked(Next(s, step, boot), slot, after) && Rested(after, SlotInterval(slot))
  {
    if step.Claim? {
      ClaimKeepsTracking(s, step, boot, slot, attempts);
    } else if Applies(s, step, slot) {
      OutcomeKeepsTracking(s, step, boot, slot, attempts);
    } else if FlipsSource(s, step) {
      FlipKeepsTracking(s, step, boot, slot, attempts);
    } else {
      OtherStepKeepsTracking(s, step, boot, slot, attempts);
    }
  }

  /**
   In every run, in-flight outcomes included, a slot's completion time is that of its last completion in the running
   source generation, and every claim of the slot lies at least its interval behind every completion before it in the
   same generation.
   */
  lemma {:induction false} ClaimsRestAfterCompletion(steps: seq<Step>, boot: string, slot: ProviderSlot)
    requires After(steps, boot).Some?
    ensures var c := After(steps, boot).value.core;
            c.slots[slot].completedAt == LastCompletion(Attempts(steps, boot, slot), c.generation)
    ensures Rested(Attempts(steps, boot, slot), SlotInterval(slot))
    ensures Tracked(After(steps, boot).value, slot, Attempts(steps, boot, slot))
  {
    if steps != [] {
      var front := steps[..|steps| - 1];
      ClaimsRestAfterCompletion(front, boot, slot);
      EveryRunIsCoherent(front, boot);
      StepKeepsTracking(After(front, boot).value, steps[|steps| - 1], boot, slot, Attempts(front, boot, slot));
    }
  }

  // ---------------------------------------------------------------- how many claims a window holds

  /** Attempts whose slot was claimed again in the same generation before they completed: they ended in flight. */
  function EndedInFlight(attempts: seq<Attempt>): nat {
    if |attempts| < 2 then 0
    else
      var n := |attempts| - 1;
      var cut := attempts[n - 1].completedAt.None? && attempts[n - 1].generation == attempts[n].generation;
      EndedInFlight(attempts[..n]) + (if cut then 1 else 0)
  }

  /** How often the generation changes between two attempts that follow each other. */
  function Restarts(attempts: seq<Attempt>): nat {
    if |attempts| < 2 then 0
    else
      var n := |attempts| - 1;
      Restarts(attempts[..n]) + (if attempts[n - 1].generation != attempts[n].generation then 1 else 0)
  }

  /** Source flips between the claims bound the restarts. */
  lemma {:induction false} RestartsAreFlips(attempts: seq<Attempt>, interval: nat)
    requires attempts != [] && Rested(attempts, interval)
    ensures attempts[0].generation + Restarts(attempts) <= attempts[|attempts| - 1].generation
  {
    var n := |attempts| - 1;
    if n > 0 {
      assert RestsBehind(attempts[n - 1], attempts[n], interval);
      RestartsAreFlips(attempts[..n], interval);
    }
  }

  lemma {:induction false} RestedApart(attempts: seq<Attempt>, interval: nat)
    requires attempts != [] && Rested(attempts, interval)
    ensures EndedInFlight(attempts) + Restarts(attempts) <= |attempts| - 1
    ensures attempts[0].claimedAt + (|attempts| - 1 - EndedInFlight(attempts) - Restarts(attempts)) * interval
            <= attempts[|attempts| - 1].claimedAt
  {
    var n := |attempts| - 1;
    if n > 0 {
      assert RestsBehind(attempts[n - 1], attempts[n], interval);
      RestedApart(attempts[..n], interval);
      var apart := n - 1 - EndedInFlight(attempts[..n]) - Restarts(attempts[..n]);
      assert (apart + 1) * interval == apart * interval + interval;
    }
  }

  /**
   In every run, a window of length `span` holds at most `1 + span / interval` claims of a slot, and one more for each
   source flip between them and for each of them that ended in flight.
   */
  lemma ClaimsInWindow(steps: seq<Step>, boot: string, slot: ProviderSlot, i: nat, j: nat, from: nat, span: nat)
    requires After(steps, boot).Some?
    requires i <= j < |Attempts(steps, boot, slot)|
    requires from <= Attempts(steps, boot, slot)[i].claimedAt && Attempts(steps, boot, slot)[j].claimedAt <= from + span
    ensures var window := Attempts(steps, boot, slot)[i..j + 1];
            && |window| <= 1 + span / SlotInterval(slot) + Restarts(window) + EndedInFlight(window)
            && Restarts(window) <= window[|window| - 1].generation - window[0].generation
  {
    ClaimsRestAfterCompletion(steps, boot, slot);
    RestedInWindow(Attempts(steps, boot, slot), SlotInterval(slot), i, j, from, span, Attempts(steps, boot, slot)[i..j + 1]);
  }

  lemma RestedInWindow(attempts: seq<Attempt>, interval: nat, i: nat, j: nat, from: nat, span: nat, window: seq<Attempt>)
    requires Rested(attempts, interval) && interval > 0 && i <= j < |attempts| && window == attempts[i..j + 1]
    requires from <= attempts[i].claimedAt && attempts[j].claimedAt <= from + span
    ensures |window| <= 1 + span / interval + Restarts(window) + EndedInFlight(window)
    ensures Restarts(window) <= window[|window| - 1].generation - window[0].generation
  {
    forall k, m | 0 <= k < m < |window| ensures RestsBehind(window[k], window[m], interval) {
      assert RestsBehind(attempts[i + k], attempts[i + m], interval);
    }
    RestartsAreFlips(window, interval);
    RestedApart(window, interval);
    QuotientBound(j - i - EndedInFlight(window) - Restarts(window), interval, span);
  }

  lemma QuotientBound(count: nat, interval: nat, span: nat)
    requires interval > 0 && count * interval <= span
    ensures count <= span / interval
  {
    var q := span / interval;
    assert span == q * interval + span % interval;
    Monotone(q + 1, count, interval);
    assert (q + 1) * interval == q * interval + interval;
  }

  lemma Monotone(a: nat, b: nat, k: nat)
    ensures a <= b ==> a * k <= b * k
  {
    if a <= b {
      assert b * k == a * k + (b - a) * k;
    }
  }

  // ---------------------------------------------------------------- without in-flight outcomes

  /** Since the last source flip no in-flight outcome of the slot was applied. */
  predicate Undisturbed(steps: seq<Step>, boot: string, slot: ProviderSlot)
    requires After(steps, boot).Some?
  {
    steps == [] ||
    (var front, step := steps[..|steps| - 1], steps[|steps| - 1];
     var s := After(front, boot).value;
     FlipsSource(s, step)
     || (Undisturbed(front, boot, slot) && !(Applies(s, step, slot) && step.outcome.InFlight?)))
  }

  /** In the running generation, all attempts but an open last one have completed. */
  ghost predicate Finished(s: System, slot: ProviderSlot, attempts: seq<Attempt>) {
    var collecting := s.core.slots[slot].observation.Collecting?;
    forall i :: 0 <= i < |attempts| && attempts[i].generation == s.core.generation ==>
                  attempts[i].completedAt.Some? || (i == |attempts| - 1 && collecting)
  }

  lemma ClaimKeepsFinished(s: System, step: Step, boot: string, slot: ProviderSlot, attempts: seq<Attempt>)
    requires Enabled(s, step) && Finished(s, slot, attempts) && step.Claim?
    ensures Finished(Next(s, step, boot), slot, StepAttempts(s, step, slot, attempts))
  {
    if Claims(s, step, slot) {
      ClaimIsDue(s, step, slot);
    }
  }

  lemma OtherStepKeepsFinished(s: System, step: Step, boot: string, slot: ProviderSlot, attempts: seq<Attempt>)
    requires Enabled(s, step) && !step.Claim? && !Applies(s, step, slot) && !FlipsSource(s, step)
    requires Finished(s, slot, attempts)
    ensures Finished(Next(s, step, boot), slot, attempts)
  {
    if step.Deliver? {
      var task := s.tasks[step.task];
      OutcomeMovesOneSlot(s.core, task.slot, task.mode, task.generation, step.outcome, step.sameEvidence, step.now,
                          Some(step.wall), boot);
    }
  }

  lemma StepKeepsFinished(s: System, step: Step, boot: string, slot: ProviderSlot, attempts: seq<Attempt>)
    requires Enabled(s, step) && Finished(s, slot, attempts)
    requires !FlipsSource(s, step) && !(Applies(s, step, slot) && step.outcome.InFlight?)
    ensures Finished(Next(s, step, boot), slot, StepAttempts(s, step, slot, attempts))
  {
    if step.Claim? {
      ClaimKeepsFinished(s, step, boot, slot, attempts);
    } else if !Applies(s, step, slot) {
      OtherStepKeepsFinished(s, step, boot, slot, attempts);
    }
  }

  lemma FlipFinishes(s: System, step: Step, boot: string, slot: ProviderSlot, attempts: seq<Attempt>)
    requires Enabled(s, step) && FlipsSource(s, step) && AllOrdered(attempts, s.now, s.core.generation)
    ensures Finished(Next(s, step, boot), slot, attempts)
  {
    forall i | 0 <= i < |attempts| ensures attempts[i].generation != s.core.generation + 1 {
      assert Ordered(attempts[i], s.now, s.core.generation);
    }
  }

  lemma {:induction false} UndisturbedFinishes(steps: seq<Step>, boot: string, slot: ProviderSlot)
    requires After(steps, boot).Some? && Undisturbed(steps, boot, slot)
    ensures Finished(After(steps, boot).value, slot, Attempts(steps, boot, slot))
  {
    if steps != [] {
      var front, step := steps[..|steps| - 1], steps[|steps| - 1];
      var s := After(front, boot).value;
      ClaimsRestAfterCompletion(front, boot, slot);
      if FlipsSource(s, step) {
        FlipFinishes(s, step, boot, slot, Attempts(front, boot, slot));
      } else {
        UndisturbedFinishes(front, boot, slot);
        EveryRunIsCoherent(front, boot);
        StepKeepsFinished(s, step, boot, slot, Attempts(front, boot, slot));
      }
    }
  }

  /**
   As long as no in-flight outcome was applied in the running generation, each of its attempts completes before the
   next begins, an interval earlier.
   */
  lemma AttemptsAreSpaced(steps: seq<Step>, boot: string, slot: ProviderSlot, i: nat)
    requires After(steps, boot).Some? && Undisturbed(steps, boot, slot)
    requires i + 1 < |Attempts(steps, boot, slot)|
    requires Attempts(steps, boot, slot)[i].generation == After(steps, boot).value.core.generation
    ensures var a, b := Attempts(steps, boot, slot)[i], Attempts(steps, boot, slot)[i + 1];
            && a.completedAt.Some? && a.claimedAt <= a.completedAt.value
            && a.completedAt.value + SlotInterval(slot) <= b.claimedAt
  {
    ClaimsRestAfterCompletion(steps, boot, slot);
    UndisturbedFinishes(steps, boot, slot);
    var a, b := Attempts(steps, boot, slot)[i], Attempts(steps, boot, slot)[i + 1];
    var c := After(steps, boot).value;
    assert RestsBehind(a, b, SlotInterval(slot));
    assert Ordered(b, c.now, c.core.generation);
  }

  // ---------------------------------------------------------------- what an in-flight outcome does

  /**
   An in-flight outcome keeps the old completion time, so a slot that was claimable stays claimable at every later
   time, however soon.
   */
  lemma InFlightStaysClaimable(slot: ProviderSlot, state: SlotState, now: nat, later: nat, wall: Option<nat>,
                               same: bool, completedAt: nat, boot: string)
    requires Claimable(slot, state, now) && now <= later
    ensures Claimable(slot, ApplyOutcome(ClaimSlot(state, wall), InFlight, same, completedAt, wall, boot), later)
  {
  }

  /** A possible step between two states, and what it adds to the attempts of the network slot. */
  predicate Leads(s: System, step: Step, boot: string, next: System, attempts: seq<Attempt>, more: seq<Attempt>) {
    Enabled(s, step) && next == Next(s, step, boot) && more == StepAttempts(s, step, NetworkInfrastructure, attempts)
  }

  predicate Reaches(steps: seq<Step>, boot: string, s: System, attempts: seq<Attempt>) {
    After(steps, boot) == Some(s) && Attempts(steps, boot, NetworkInfrastructure) == attempts
  }

  lemma OneMoreStep(steps: seq<Step>, step: Step, boot: string, s: System, attempts: seq<Attempt>, next: System,
                    more: seq<Attempt>)
    requires Reaches(steps, boot, s, attempts) && Leads(s, step, boot, next, attempts, more)
    ensures Reaches(steps + [step], boot, next, more)
  {
    var all, t := Further(steps, step, boot, s);
    assert all[..|steps|] == steps;
  }

  /** With one other slot collecting and one live worker, a due network slot is the one claimed. */
  lemma NetworkClaimed(slots: Slots, now: nat)
    requires |CollectingSlots(slots)| == 1 && Claimable(NetworkInfrastructure, slots[NetworkInfrastructure], now)
    ensures Claimed(slots, now, 1) == [NetworkInfrastructure]
  {
    var order := STATIC_PROVIDER_SLOTS;
    assert order[0] == NetworkInfrastructure;
    assert FirstClaimable(order[1..], slots, now, 0) == [];
  }

  const LATER: nat := 10 * SECOND

  lemma ClaimAppends(s: System, now: nat, boot: string, attempts: seq<Attempt>)
    requires Enabled(s, Claim(now, 0)) && |s.guards| == 1 && CollectingSlots(s.core.slots) == {HostScoped}
    requires Claimable(NetworkInfrastructure, s.core.slots[NetworkInfrastructure], now)
    ensures Claimed(s.core.slots, now, |s.guards|) == [NetworkInfrastructure]
    ensures Leads(s, Claim(now, 0), boot, Next(s, Claim(now, 0), boot), attempts, attempts + [Attempt(now, None, s.core.generation)])
  {
    NetworkClaimed(s.core.slots, now);
  }

  /** Docker, one live network worker, the host slot collecting, time `now`. */
  predicate Stage(s: System, now: nat, collecting: set<ProviderSlot>) {
    && s.core.mode == Docker && s.core.generation == 1
    && s.guards == {NetworkInfrastructure} && s.now == now && s.clock == 0
    && CollectingSlots(s.core.slots) == collecting
    && s.core.slots[NetworkInfrastructure].completedAt == Some(0)
  }

  const HOST_TASK := Task(HostScoped, Docker, 1, Spawned)

  /** The network slot, timed out with its worker unwinding, is claimed again at the interval. */
  lemma ClaimedAgain(s: System, boot: string, attempts: seq<Attempt>) returns (next: System)
    requires Stage(s, 0, {HostScoped}) && s.tasks == [HOST_TASK]
    requires s.core.slots[NetworkInfrastructure].observation == SlotObservation.TimedOut(None)
    ensures Leads(s, Claim(LATER, 0), boot, next, attempts, attempts + [Attempt(LATER, None, 1)])
    ensures Stage(next, LATER, {HostScoped, NetworkInfrastructure})
    ensures next.tasks == [HOST_TASK, Task(NetworkInfrastructure, Docker, 1, Spawned)]
  {
    next := Next(s, Claim(LATER, 0), boot);
    ClaimAppends(s, LATER, boot, attempts);
    ClaimCollects(s.core, LATER, 1, Some(0));
    assert (set slot | slot in [NetworkInfrastructure]) == {NetworkInfrastructure};
    assert [HOST_TASK] + Spawn([NetworkInfrastructure], 1) == [HOST_TASK, Task(NetworkInfrastructure, Docker, 1, Spawned)];
  }

  /** Its new task finds the guard held. */
  lemma RefusedAgain(s: System, boot: string, attempts: seq<Attempt>) returns (next: System)
    requires Stage(s, LATER, {HostScoped, NetworkInfrastructure})
    requires s.tasks == [HOST_TASK, Task(NetworkInfrastructure, Docker, 1, Spawned)]
    ensures Leads(s, TakeGuard(1), boot, next, attempts, attempts)
    ensures Stage(next, LATER, {HostScoped, NetworkInfrastructure})
    ensures next.tasks == [HOST_TASK, Task(NetworkInfrastructure, Docker, 1, Refused)]
  {
    next := Next(s, TakeGuard(1), boot);
  }

  /** An in-flight outcome frees the slot and leaves its completion time. */
  lemma InFlightFrees(c: Core, now: nat, boot: string)
    requires CollectingSlots(c.slots) == {HostScoped, NetworkInfrastructure} && c.mode == Docker && c.generation == 1
    requires c.slots[NetworkInfrastructure].completedAt == Some(0)
    ensures var after := OutcomeCore(c, NetworkInfrastructure, Docker, 1, InFlight, true, now, Some(0), boot);
            && CollectingSlots(after.slots) == {HostScoped}
            && after.slots[NetworkInfrastructure].completedAt == Some(0)
            && after.slots[NetworkInfrastructure].observation.TimedOut?
            && after.mode == Docker && after.generation == 1
  {
    var after := OutcomeCore(c, NetworkInfrastructure, Docker, 1, InFlight, true, now, Some(0), boot);
    forall slot: ProviderSlot ensures slot in CollectingSlots(after.slots) <==> slot == HostScoped {
      assert slot in CollectingSlots(c.slots) <==> slot == HostScoped || slot == NetworkInfrastructure;
    }
  }

  /** The refusal is delivered; the slot is free again with its old completion time. */
  lemma FreedAgain(s: System, boot: string, attempts: seq<Attempt>) returns (next: System)
    requires Stage(s, LATER, {HostScoped, NetworkInfrastructure})
    requires s.tasks == [HOST_TASK, Task(NetworkInfrastructure, Docker, 1, Refused)]
    ensures Leads(s, Deliver(1, InFlight, true, LATER, 0), boot, next, attempts, attempts)
    ensures Stage(next, LATER, {HostScoped})
    ensures Claimable(NetworkInfrastructure, next.core.slots[NetworkInfrastructure], LATER)
  {
    InFlightFrees(s.core, LATER, boot);
    next := Next(s, Deliver(1, InFlight, true, LATER, 0), boot);
  }

  /** Two claims of one slot in one generation at the same moment: the outcome between them was in flight. */
  lemma InFlightClaimsTwice(boot: string) returns (steps: seq<Step>)
    ensures After(steps, boot).Some?
    ensures var attempts := Attempts(steps, boot, NetworkInfrastructure);
            && |attempts| >= 2
            && attempts[|attempts| - 1].claimedAt == attempts[|attempts| - 2].claimedAt
            && attempts[|attempts| - 1].generation == attempts[|attempts| - 2].generation
  {
    var before, slots := OneUnwinding(boot);
    var s := After(before, boot).value;
    var first := Attempts(before, boot, NetworkInfrastructure);
    var second := first + [Attempt(LATER, None, 1)];
    var third := second + [Attempt(LATER, None, 1)];
    var claimed := ClaimedAgain(s, boot, first);
    var refused := RefusedAgain(claimed, boot, second);
    var freed := FreedAgain(refused, boot, second);
    ClaimAppends(freed, LATER, boot, second);
    steps := FourSteps(before, boot, first, second, third, s, claimed, refused, freed);
  }

  lemma FourSteps(before: seq<Step>, boot: string, first: seq<Attempt>, second: seq<Attempt>, third: seq<Attempt>,
                  s: System, claimed: System, refused: System, freed: System) returns (steps: seq<Step>)
    requires Reaches(before, boot, s, first)
    requires Leads(s, Claim(LATER, 0), boot, claimed, first, second)
    requires Leads(claimed, TakeGuard(1), boot, refused, second, second)
    requires Leads(refused, Deliver(1, InFlight, true, LATER, 0), boot, freed, second, second)
    requires Enabled(freed, Claim(LATER, 0))
    requires Leads(freed, Claim(LATER, 0), boot, Next(freed, Claim(LATER, 0), boot), second, third)
    ensures After(steps, boot).Some? && Attempts(steps, boot, NetworkInfrastructure) == third
  {
    OneMoreStep(before, Claim(LATER, 0), boot, s, first, claimed, second);
    var a := before + [Claim(LATER, 0)];
    OneMoreStep(a, TakeGuard(1), boot, claimed, second, refused, second);
    var b := a + [TakeGuard(1)];
    OneMoreStep(b, Deliver(1, InFlight, true, LATER, 0), boot, refused, second, freed, second);
    var c := b + [Deliver(1, InFlight, true, LATER, 0)];
    OneMoreStep(c, Claim(LATER, 0), boot, freed, second, Next(freed, Claim(LATER, 0), boot), third);
    steps := c + [Claim(LATER, 0)];
  }
}
