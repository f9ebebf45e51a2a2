/** What the data revision of a slot, which its evidence carries, says about the collection behind it. */
module SlotRevisions {
  import opened Prelude
  import opened RuntimeModel
  import opened ProviderSlots
  import opened Scheduler
  import opened WorkerRuns
  import WorkerBounds
  import Decimal

  /** A slot remembers the collection it retains, under a revision of this process. */
  predicate Remembers(state: SlotState, boot: string) {
    var retained := RetainedCollection(state.observation);
    && state.freshness.dataObservable == retained
    && (state.freshness.dataRevision.Some? <==> retained.Some?)
    && (state.freshness.dataRevision.Some? ==> state.freshness.dataRevision.value.boot == boot)
  }

  predicate AllRemember(slots: Slots, boot: string) {
    forall slot: ProviderSlot :: Remembers(slots[slot], boot)
  }

  /** A later state of the slot in one generation: revisions only grow, and an unmoved one kept its collection. */
  predicate Follows(a: SlotState, b: SlotState) {
    a.freshness.dataRevision.Some? ==>
      && b.freshness.dataRevision.Some?
      && a.freshness.dataRevision.value.sequence <= b.freshness.dataRevision.value.sequence
      && (a.freshness.dataRevision.value.sequence == b.freshness.dataRevision.value.sequence ==>
            a.freshness.dataObservable == b.freshness.dataObservable)
  }

  predicate AllFollow(a: Slots, b: Slots) {
    forall slot: ProviderSlot :: Follows(a[slot], b[slot])
  }

  /** One applied outcome moves the revision exactly when it brings another collection, and then by one. */
  lemma OutcomeAdvancesExactly(state: SlotState, outcome: Outcome, same: bool, now: nat, wall: Option<nat>, boot: string,
                               next: SlotState)
    requires Remembers(state, boot) && next == ApplyOutcome(state, outcome, same, now, wall, boot)
    ensures Remembers(next, boot) && Follows(state, next)
    ensures next.freshness.dataRevision == state.freshness.dataRevision
            <==> RetainedCollection(next.observation) == RetainedCollection(state.observation)
    ensures next.freshness.dataRevision != state.freshness.dataRevision ==>
              next.freshness.dataRevision
              == Some(SlotDataRevision(boot, if state.freshness.dataRevision.Some?
                                             then state.freshness.dataRevision.value.sequence + 1 else 1))
  {
  }

  lemma ResetRemembers(boot: string)
    ensures AllRemember(SlotsOf(RESET_SLOT), boot) && AllRemember(SlotsOf(UNTOUCHED_SLOT), boot)
  {
  }

  lemma PublishRemembers(c: Core, mode: RuntimeMode, sameEvidence: bool, boot: string, next: Core)
    requires AllRemember(c.slots, boot) && next == PublishCore(c, mode, sameEvidence)
    ensures AllRemember(next.slots, boot)
    ensures next.generation == c.generation ==> AllFollow(c.slots, next.slots)
  {
    if mode != c.mode {
      ResetRemembers(boot);
    } else {
      StaleRemembers(c.slots, boot);
    }
  }

  lemma StaleRemembers(slots: Slots, boot: string)
    requires AllRemember(slots, boot)
    ensures AllRemember(StaleNetwork(slots), boot) && AllFollow(slots, StaleNetwork(slots))
  {
  }

  lemma ClaimRemembers(c: Core, now: nat, active: nat, wall: Option<nat>, boot: string, next: Core)
    requires AllRemember(c.slots, boot) && next == ClaimCore(c, now, active, wall)
    ensures AllRemember(next.slots, boot) && AllFollow(c.slots, next.slots)
  {
  }

  lemma OutcomeRemembers(c: Core, slot: ProviderSlot, mode: RuntimeMode, generation: nat, outcome: Outcome, same: bool,
                         now: nat, wall: Option<nat>, boot: string, next: Core)
    requires AllRemember(c.slots, boot)
    requires next == OutcomeCore(c, slot, mode, generation, outcome, same, now, wall, boot)
    ensures AllRemember(next.slots, boot) && AllFollow(c.slots, next.slots)
  {
    OutcomeMovesOneSlot(c, slot, mode, generation, outcome, same, now, wall, boot);
    if c.mode == mode && c.generation == generation {
      OutcomeAdvancesExactly(c.slots[slot], outcome, same, now, wall, boot, next.slots[slot]);
    }
  }

  lemma StepRemembers(s: System, step: Step, boot: string, next: System)
    requires AllRemember(s.core.slots, boot) && Enabled(s, step) && next == Next(s, step, boot)
    ensures AllRemember(next.core.slots, boot)
    ensures next.core.generation == s.core.generation ==> AllFollow(s.core.slots, next.core.slots)
  {
    match step
    case Publish(mode, same) => PublishRemembers(s.core, mode, same, boot, next.core);
    case Claim(now, wall) => ClaimRemembers(s.core, now, |s.guards|, Some(wall), boot, next.core);
    case Deliver(i, outcome, same, now, wall) =>
      var task := s.tasks[i];
      OutcomeRemembers(s.core, task.slot, task.mode, task.generation, outcome, same, now, Some(wall), boot, next.core);
    case _ =>
  }

  lemma {:induction false} EveryRunRemembers(steps: seq<Step>, boot: string)
    ensures After(steps, boot).Some? ==> AllRemember(After(steps, boot).value.core.slots, boot)
  {
    if steps == [] {
      ResetRemembers(boot);
    } else if After(steps, boot).Some? {
      var front := steps[..|steps| - 1];
      EveryRunRemembers(front, boot);
      StepRemembers(After(front, boot).value, steps[|steps| - 1], boot, After(steps, boot).value);
    }
  }

  predicate Reaches(steps: seq<Step>, boot: string, s: System) {
    After(steps, boot) == Some(s)
  }

  predicate Moves(steps: seq<Step>, step: Step, boot: string, s: System, next: System) {
    Reaches(steps, boot, s) && Enabled(s, step) && next == Next(s, step, boot)
  }

  lemma LastMove(steps: seq<Step>, step: Step, boot: string, next: System) returns (s: System)
    requires Reaches(steps + [step], boot, next)
    ensures Reaches(steps, boot, s) && Moves(steps, step, boot, s, next)
  {
    assert (steps + [step])[..|steps|] == steps;
    s := After(steps, boot).value;
  }

  /** A state of the same generation or a later one; in the same one every slot has moved on from what it was. */
  predicate Later(a: Core, b: Core) {
    a.generation <= b.generation && (a.generation == b.generation ==> AllFollow(a.slots, b.slots))
  }

  lemma MoveIsLater(steps: seq<Step>, step: Step, boot: string, s: System, next: System)
    requires Moves(steps, step, boot, s, next)
    ensures Later(s.core, next.core)
  {
    EveryRunRemembers(steps, boot);
    StepRemembers(s, step, boot, next);
    if step.Deliver? {
      var task := s.tasks[step.task];
      OutcomeMovesOneSlot(s.core, task.slot, task.mode, task.generation, step.outcome, step.sameEvidence, step.now,
                          Some(step.wall), boot);
    }
  }

  lemma LaterStill(a: Core, b: Core, c: Core)
    requires Later(a, b) && Later(b, c)
    ensures Later(a, c)
  {
    if a.generation == c.generation {
      forall slot: ProviderSlot ensures Follows(a.slots[slot], c.slots[slot]) {
        assert Follows(a.slots[slot], b.slots[slot]) && Follows(b.slots[slot], c.slots[slot]);
      }
    }
  }

  lemma OneState(steps: seq<Step>, boot: string, s: System, t: System)
    requires Reaches(steps, boot, s) && Reaches(steps, boot, t)
    ensures s == t && Later(s.core, t.core)
  {
  }

  lemma {:induction false} RunsGoOn(steps: seq<Step>, more: seq<Step>, boot: string, s: System, t: System)
    requires Reaches(steps, boot, s) && Reaches(steps + more, boot, t)
    ensures Later(s.core, t.core)
    decreases |more|
  {
    if more == [] {
      assert steps + more == steps;
      OneState(steps, boot, s, t);
    } else {
      var front, step := more[..|more| - 1], more[|more| - 1];
      assert steps + more == (steps + front) + [step];
      var before := LastMove(steps + front, step, boot, t);
      RunsGoOn(steps, front, boot, s, before);
      MoveIsLater(steps + front, step, boot, before, t);
      LaterStill(s.core, before.core, t.core);
    }
  }

  /** Within one source generation, equal published data revisions of a slot stand for equal collections. */
  lemma EqualSlotRevisionsEqualCollections(steps: seq<Step>, more: seq<Step>, boot: string, slot: ProviderSlot, s: System,
                                           t: System)
    requires After(steps, boot) == Some(s) && After(steps + more, boot) == Some(t)
    requires s.core.generation == t.core.generation
    requires ProjectSlot(slot, s.core.slots[slot]).dataRevision.Some?
    requires ProjectSlot(slot, s.core.slots[slot]).dataRevision == ProjectSlot(slot, t.core.slots[slot]).dataRevision
    ensures RetainedCollection(s.core.slots[slot].observation).Some?
    ensures RetainedCollection(s.core.slots[slot].observation) == RetainedCollection(t.core.slots[slot].observation)
  {
    EveryRunRemembers(steps, boot);
    EveryRunRemembers(steps + more, boot);
    RunsGoOn(steps, more, boot, s, t);
    var a, b := s.core.slots[slot], t.core.slots[slot];
    assert Remembers(a, boot) && Remembers(b, boot) && Follows(a, b);
    Decimal.SameTextSameNumber(boot, a.freshness.dataRevision.value.sequence, b.freshness.dataRevision.value.sequence);
  }

  // ---------------------------------------------------------------- across a source flip

  /** The first two slots are claimed in this generation, other tasks stand before theirs, and no worker lives. */
  predicate BothClaimed(s: System, others: seq<Task>, generation: nat) {
    && s.core == Core(Docker, generation, StartSlots(SlotsOf(RESET_SLOT), [NetworkInfrastructure, HostScoped], Some(0)))
    && s.tasks == others + [Task(NetworkInfrastructure, Docker, generation, Spawned), Task(HostScoped, Docker, generation, Spawned)]
    && s.live == [] && s.guards == {} && s.now == 0 && s.clock == 0
  }

  /** The network slot's first collection of its generation is applied, and its worker has exited. */
  predicate FirstCollected(s: System, collection: ProviderCollection, boot: string, others: seq<Task>, generation: nat) {
    var state := s.core.slots[NetworkInfrastructure];
    && s.core.mode == Docker && s.core.generation == generation
    && state.observation == SlotObservation.Fresh(collection)
    && state.freshness.dataRevision == Some(SlotDataRevision(boot, 1))
    && s.tasks == others + [Task(HostScoped, Docker, generation, Spawned)]
    && s.live == [] && s.guards == {} && s.now == 0 && s.clock == 0
  }

  lemma CollectFirst(steps: seq<Step>, boot: string, s: System, others: seq<Task>, generation: nat,
                     collection: ProviderCollection) returns (more: seq<Step>, next: System)
    requires After(steps, boot) == Some(s) && BothClaimed(s, others, generation)
    requires OwnReport(NetworkInfrastructure, collection)
    ensures |more| >= |steps| && more[..|steps|] == steps && After(more, boot) == Some(next)
    ensures FirstCollected(next, collection, boot, others, generation)
  {
    var working, applied;
    more, working := Further(steps, TakeGuard(|others|), boot, s);
    more, applied := Further(more, Deliver(|others|, Collected(collection), true, 0, 0), boot, working);
    assert applied.tasks == others + [Task(HostScoped, Docker, generation, Spawned)];
    more, next := Further(more, Release(0), boot, applied);
    assert next.guards == {};
  }

  lemma FlipTwice(steps: seq<Step>, boot: string, s: System, collection: ProviderCollection)
    returns (more: seq<Step>, next: System)
    requires After(steps, boot) == Some(s) && FirstCollected(s, collection, boot, [], 1)
    ensures |more| >= |steps| && more[..|steps|] == steps && After(more, boot) == Some(next)
    ensures next == s.(core := Core(Docker, 3, SlotsOf(RESET_SLOT)))
  {
    var mocked;
    more, mocked := Further(steps, Publish(Mock, true), boot, s);
    more, next := Further(more, Publish(Docker, true), boot, mocked);
  }

  lemma ClaimAgain(steps: seq<Step>, boot: string, s: System) returns (more: seq<Step>, next: System)
    requires After(steps, boot) == Some(s) && s.core == Core(Docker, 3, SlotsOf(RESET_SLOT))
    requires s.live == [] && s.guards == {} && s.now == 0 && s.clock == 0
    ensures |more| >= |steps| && more[..|steps|] == steps && After(more, boot) == Some(next)
    ensures BothClaimed(next, s.tasks, 3)
  {
    assert |s.guards| == 0;
    WorkerBounds.FirstClaims();
    more, next := Further(steps, Claim(0, 0), boot, s);
    assert Spawn([NetworkInfrastructure, HostScoped], 3)
        == [Task(NetworkInfrastructure, Docker, 3, Spawned), Task(HostScoped, Docker, 3, Spawned)];
  }

  /**
   Across source flips it fails: every generation starts counting anew under the process's one token, so two
   different collections of one slot are published under the same data revision.
   */
  lemma FlipsReissueRevisions(boot: string, first: ProviderCollection, second: ProviderCollection)
    returns (steps: seq<Step>, more: seq<Step>, s: System, t: System)
    requires OwnReport(NetworkInfrastructure, first) && OwnReport(NetworkInfrastructure, second) && first != second
    ensures After(steps, boot) == Some(s) && After(steps + more, boot) == Some(t)
    ensures var a, b := s.core.slots[NetworkInfrastructure], t.core.slots[NetworkInfrastructure];
            && ProjectSlot(NetworkInfrastructure, a).dataRevision.Some?
            && ProjectSlot(NetworkInfrastructure, a).dataRevision == ProjectSlot(NetworkInfrastructure, b).dataRevision
            && RetainedCollection(a.observation) == Some(first) && RetainedCollection(b.observation) == Some(second)
  {
    var claimed := WorkerBounds.TwoClaimed(boot);
    steps, s := CollectFirst(claimed, boot, After(claimed, boot).value, [], 1, first);
    var again, u := FlipTwice(steps, boot, s, first);
    again, u := ClaimAgain(again, boot, u);
    var all;
    all, t := CollectFirst(again, boot, u, s.tasks, 3, second);
    more := all[|steps|..];
    assert all[..|steps|] == steps;
    assert steps + more == all;
  }
}
