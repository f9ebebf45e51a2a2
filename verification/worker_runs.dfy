/**
 Whole runs of the daemon's scheduler and its background workers: publications, claims, workers taking and
 releasing their guards, and outcomes delivered in any order, late ones included.
 */
module WorkerRuns {
  import opened Prelude
  import opened RuntimeModel
  import opened ProviderSlots
  import opened Scheduler

  /** A spawned collection: about to take its guard, refused because the guard was held, or holding it. */
  datatype Phase = Spawned | Refused | Working

  datatype Task = Task(slot: ProviderSlot, mode: RuntimeMode, generation: nat, phase: Phase)

  /** A blocking worker that has not exited; it may outlive the delivery of its timeout. */
  datatype Worker = Worker(slot: ProviderSlot, generation: nat)

  datatype System = System(
    core: Core, tasks: seq<Task>, live: seq<Worker>, guards: set<ProviderSlot>, now: nat, clock: nat)

  const INITIAL: System := System(STARTED, [], [], {}, 0, 0)

  datatype Step =
    | Publish(mode: RuntimeMode, sameEvidence: bool)
    | Claim(now: nat, wall: nat)
    | TakeGuard(task: nat)
    | Release(worker: nat)
    | Deliver(task: nat, outcome: Outcome, sameEvidence: bool, now: nat, wall: nat)

  /** Clocks never run backwards and are readable; a task delivers what its phase allows, for its own slot. */
  predicate Enabled(s: System, step: Step) {
    match step
    case Publish(_, _) => true
    case Claim(now, wall) => s.now <= now && s.clock <= wall <= MAX_SAFE_INTEGER
    case TakeGuard(task) => task < |s.tasks| && s.tasks[task].phase.Spawned?
    case Release(worker) => worker < |s.live|
    case Deliver(task, outcome, _, now, wall) =>
      && task < |s.tasks| && !s.tasks[task].phase.Spawned?
      && (outcome.InFlight? <==> s.tasks[task].phase.Refused?)
      && OwnOutcome(s.tasks[task].slot, outcome)
      && s.now <= now && s.clock <= wall <= MAX_SAFE_INTEGER
  }

  function Drop<T>(s: seq<T>, i: nat): (r: seq<T>)
    requires i < |s|
    ensures |r| == |s| - 1
    ensures forall k :: 0 <= k < |r| ==> r[k] == if k < i then s[k] else s[k + 1]
  {
    s[..i] + s[i + 1..]
  }

  /** The tasks a claim spawns carry the generation read together with it; only a Docker tick spawns them. */
  function Spawn(claimed: seq<ProviderSlot>, generation: nat): (tasks: seq<Task>)
    ensures |tasks| == |claimed|
    ensures forall i :: 0 <= i < |tasks| ==> tasks[i] == Task(claimed[i], Docker, generation, Spawned)
  {
    seq(|claimed|, i requires 0 <= i < |claimed| => Task(claimed[i], Docker, generation, Spawned))
  }

  function Next(s: System, step: Step, boot: string): System
    requires Enabled(s, step)
  {
    match step
    case Publish(mode, sameEvidence) => s.(core := PublishCore(s.core, mode, sameEvidence))
    case Claim(now, wall) =>
      s.(core := ClaimCore(s.core, now, |s.guards|, Some(wall)),
         tasks := s.tasks + Spawn(Claimed(s.core.slots, now, |s.guards|), s.core.generation),
         now := now, clock := wall)
    case TakeGuard(i) =>
      var task := s.tasks[i];
      if task.slot in s.guards then s.(tasks := s.tasks[i := task.(phase := Refused)])
      else s.(tasks := s.tasks[i := task.(phase := Working)],
              live := s.live + [Worker(task.slot, task.generation)], guards := s.guards + {task.slot})
    case Release(i) => s.(live := Drop(s.live, i), guards := s.guards - {s.live[i].slot})
    case Deliver(i, outcome, sameEvidence, now, wall) =>
      var task := s.tasks[i];
      s.(core := OutcomeCore(s.core, task.slot, task.mode, task.generation, outcome, sameEvidence, now, Some(wall), boot),
         tasks := Drop(s.tasks, i), now := now, clock := wall)
  }

  /** The state after a run, if every step of it was possible. */
  function After(steps: seq<Step>, boot: string): Option<System> {
    if steps == [] then Some(INITIAL)
    else match After(steps[..|steps| - 1], boot)
      case None => None
      case Some(s) =>
        var step := steps[|steps| - 1];
        if Enabled(s, step) then Some(Next(s, step, boot)) else None
  }

  /** A run goes on with any possible step. */
  lemma Further(steps: seq<Step>, step: Step, boot: string, s: System) returns (more: seq<Step>, next: System)
    requires After(steps, boot) == Some(s) && Enabled(s, step)
    ensures more == steps + [step] && next == Next(s, step, boot) && After(more, boot) == Some(next)
  {
    more, next := steps + [step], Next(s, step, boot);
    assert more[..|steps|] == steps;
  }

  // ---------------------------------------------------------------- the invariant

  ghost predicate TaskOwned(s: System, i: nat)
    requires i < |s.tasks|
  {
    var task := s.tasks[i];
    && task.generation <= s.core.generation
    && (task.generation == s.core.generation ==> s.core.slots[task.slot].observation.Collecting?)
  }

  /** A task of the running generation owns its collecting slot, and no slot is owned twice in one generation. */
  ghost predicate TasksCoherent(s: System) {
    && (forall i :: 0 <= i < |s.tasks| ==> TaskOwned(s, i))
    && (forall i, j :: 0 <= i < j < |s.tasks| && s.tasks[i].slot == s.tasks[j].slot ==>
                         s.tasks[i].generation != s.tasks[j].generation)
  }

  /** One guard per live worker, and no slot has two. */
  ghost predicate GuardsCoherent(s: System) {
    && (forall slot :: slot in s.guards <==> HasWorker(s.live, slot))
    && (forall i, j :: 0 <= i < j < |s.live| ==> s.live[i].slot != s.live[j].slot)
  }

  ghost predicate HasWorker(live: seq<Worker>, slot: ProviderSlot) {
    exists i :: 0 <= i < |live| && live[i].slot == slot
  }

  ghost predicate Coherent(s: System) {
    CoreCoherent(s.core, s.clock) && TasksCoherent(s) && GuardsCoherent(s)
  }

  lemma PublishKeepsCore(c: Core, clock: nat, mode: RuntimeMode, sameEvidence: bool)
    requires CoreCoherent(c, clock)
    ensures CoreCoherent(PublishCore(c, mode, sameEvidence), clock)
  {
    var after := PublishCore(c, mode, sameEvidence);
    forall slot: ProviderSlot
      ensures SlotCoherent(slot, after.slots[slot], clock)
      ensures after.mode == Mock ==> RetainedCollection(after.slots[slot].observation).None?
    {
      ResetIsCoherent(slot, clock);
      StaleKeepsCoherence(slot, c.slots[slot], clock);
      assert after.slots[slot] == RESET_SLOT || after.slots[slot] == c.slots[slot]
             || after.slots[slot] == MarkStale(c.slots[slot]);
    }
  }

  lemma ClaimKeepsCore(c: Core, clock: nat, now: nat, active: nat, wall: nat)
    requires CoreCoherent(c, clock) && clock <= wall <= MAX_SAFE_INTEGER
    ensures CoreCoherent(ClaimCore(c, now, active, Some(wall)), wall)
  {
    var after := ClaimCore(c, now, active, Some(wall));
    forall slot: ProviderSlot
      ensures SlotCoherent(slot, after.slots[slot], wall)
      ensures RetainedCollection(after.slots[slot].observation) == RetainedCollection(c.slots[slot].observation)
    {
      ClaimKeepsCoherence(slot, c.slots[slot], clock, wall);
      ClockAdvanceKeepsCoherence(slot, c.slots[slot], clock, wall);
    }
  }

  lemma OutcomeKeepsCore(c: Core, clock: nat, slot: ProviderSlot, generation: nat, outcome: Outcome, same: bool,
                         completedAt: nat, wall: nat, boot: string)
    requires CoreCoherent(c, clock) && clock <= wall <= MAX_SAFE_INTEGER
    requires OwnOutcome(slot, outcome)
    requires generation == c.generation ==> c.slots[slot].observation.Collecting?
    ensures CoreCoherent(OutcomeCore(c, slot, Docker, generation, outcome, same, completedAt, Some(wall), boot), wall)
  {
    forall other: ProviderSlot ensures SlotCoherent(other, c.slots[other], wall) {
      ClockAdvanceKeepsCoherence(other, c.slots[other], clock, wall);
    }
    if c.mode == Docker && c.generation == generation {
      var state := ApplyOutcome(c.slots[slot], outcome, same, completedAt, Some(wall), boot);
      OutcomeKeepsCoherence(slot, c.slots[slot], outcome, same, completedAt, clock, wall, boot);
      OneSlotKeepsCore(c, slot, state, wall);
    }
  }

  lemma OneSlotKeepsCore(c: Core, slot: ProviderSlot, state: SlotState, clock: nat)
    requires c.mode == Docker && SlotCoherent(slot, state, clock)
    requires forall other: ProviderSlot :: SlotCoherent(other, c.slots[other], clock)
    ensures CoreCoherent(c.(slots := c.slots[slot := state]), clock)
  {
  }

  lemma ClaimKeepsTasks(s: System, now: nat, wall: nat, boot: string)
    requires Coherent(s) && Enabled(s, Claim(now, wall))
    ensures TasksCoherent(Next(s, Claim(now, wall), boot))
  {
    var t := Next(s, Claim(now, wall), boot);
    var claimed := Claimed(s.core.slots, now, |s.guards|);
    ClaimedIs(s.core.slots, now, |s.guards|);
    forall i | 0 <= i < |t.tasks| ensures TaskOwned(t, i) {
      if i < |s.tasks| {
        assert TaskOwned(s, i);
      } else {
        assert t.tasks[i].slot in claimed;
      }
    }
    forall i, j | 0 <= i < j < |t.tasks| && t.tasks[i].slot == t.tasks[j].slot
      ensures t.tasks[i].generation != t.tasks[j].generation
    {
      if i < |s.tasks| <= j {
        assert TaskOwned(s, i);
        assert t.tasks[j].slot in claimed;
      }
    }
  }

  lemma GuardStepKeepsTasks(s: System, step: Step, boot: string)
    requires Coherent(s) && Enabled(s, step) && (step.TakeGuard? || step.Release?)
    ensures TasksCoherent(Next(s, step, boot))
  {
    var t := Next(s, step, boot);
    assert |t.tasks| == |s.tasks|;
    forall i | 0 <= i < |t.tasks| ensures TaskOwned(t, i) {
      assert TaskOwned(s, i);
    }
  }

  /** An outcome moves neither the source nor any slot but its own. */
  lemma OutcomeMovesOneSlot(c: Core, slot: ProviderSlot, mode: RuntimeMode, generation: nat, outcome: Outcome,
                            same: bool, completedAt: nat, wall: Option<nat>, boot: string)
    ensures var after := OutcomeCore(c, slot, mode, generation, outcome, same, completedAt, wall, boot);
            && after.mode == c.mode && after.generation == c.generation
            && (generation != c.generation ==> after == c)
            && forall other: ProviderSlot :: other != slot ==> after.slots[other] == c.slots[other]
  {
  }

  lemma DeliverKeepsTasks(s: System, step: Step, boot: string)
    requires Coherent(s) && Enabled(s, step) && step.Deliver?
    ensures TasksCoherent(Next(s, step, boot))
  {
    var t := Next(s, step, boot);
    var task := s.tasks[step.task];
    OutcomeMovesOneSlot(s.core, task.slot, task.mode, task.generation, step.outcome, step.sameEvidence, step.now,
                        Some(step.wall), boot);
    RemainingTasks(s, step.task, t.core);
    assert t.tasks == Drop(s.tasks, step.task);
    forall k | 0 <= k < |t.tasks| ensures TaskOwned(t, k) {
      assert TaskOwned(s.(core := t.core, tasks := Drop(s.tasks, step.task)), k);
    }
  }

  lemma RemainingTasks(s: System, i: nat, core: Core)
    requires TasksCoherent(s) && i < |s.tasks| && core.generation == s.core.generation
    requires forall other: ProviderSlot :: other != s.tasks[i].slot ==> core.slots[other] == s.core.slots[other]
    requires s.tasks[i].generation == s.core.generation || core == s.core
    ensures TasksCoherent(s.(core := core, tasks := Drop(s.tasks, i)))
  {
    var t := s.(core := core, tasks := Drop(s.tasks, i));
    assert TaskOwned(s, i);
    forall k | 0 <= k < |t.tasks| ensures TaskOwned(t, k) {
      var from := if k < i then k else k + 1;
      assert TaskOwned(s, from) && t.tasks[k] == s.tasks[from];
      assert s.tasks[from].slot == s.tasks[i].slot ==> s.tasks[from].generation != s.tasks[i].generation;
    }
  }

  lemma PublishKeepsTasks(s: System, step: Step, boot: string)
    requires Coherent(s) && step.Publish?
    ensures TasksCoherent(Next(s, step, boot))
  {
    var t := Next(s, step, boot);
    forall i | 0 <= i < |t.tasks| ensures TaskOwned(t, i) {
      assert TaskOwned(s, i);
    }
  }

  lemma TakeGuardKeepsGuards(s: System, i: nat, boot: string)
    requires GuardsCoherent(s) && Enabled(s, TakeGuard(i))
    ensures GuardsCoherent(Next(s, TakeGuard(i), boot))
  {
    var t := Next(s, TakeGuard(i), boot);
    var slot := s.tasks[i].slot;
    if slot !in s.guards {
      assert !HasWorker(s.live, slot);
      assert t.live[|s.live|].slot == slot;
      forall other ensures other in t.guards <==> HasWorker(t.live, other) {
        if HasWorker(s.live, other) {
          var k :| 0 <= k < |s.live| && s.live[k].slot == other;
          assert t.live[k].slot == other;
        }
        if HasWorker(t.live, other) && other != slot {
          var k :| 0 <= k < |t.live| && t.live[k].slot == other;
          assert s.live[k].slot == other;
        }
      }
    }
  }

  lemma ReleaseKeepsGuards(s: System, i: nat, boot: string)
    requires GuardsCoherent(s) && Enabled(s, Release(i))
    ensures GuardsCoherent(Next(s, Release(i), boot))
  {
    var t := Next(s, Release(i), boot);
    forall other ensures other in t.guards <==> HasWorker(t.live, other) {
      if HasWorker(s.live, other) && other != s.live[i].slot {
        var k :| 0 <= k < |s.live| && s.live[k].slot == other;
        assert t.live[if k < i then k else k - 1].slot == other;
      }
      if HasWorker(t.live, other) {
        var k :| 0 <= k < |t.live| && t.live[k].slot == other;
        assert s.live[if k < i then k else k + 1].slot == other;
      }
    }
  }

  lemma NextIsCoherent(s: System, step: Step, boot: string)
    requires Coherent(s) && Enabled(s, step) && (forall i :: 0 <= i < |s.tasks| ==> s.tasks[i].mode == Docker)
    ensures Coherent(Next(s, step, boot))
    ensures var t := Next(s, step, boot); forall i :: 0 <= i < |t.tasks| ==> t.tasks[i].mode == Docker
  {
    match step
    case Publish(mode, sameEvidence) =>
      PublishKeepsCore(s.core, s.clock, mode, sameEvidence);
      PublishKeepsTasks(s, step, boot);
    case Claim(now, wall) =>
      ClaimKeepsCore(s.core, s.clock, now, |s.guards|, wall);
      ClaimKeepsTasks(s, now, wall, boot);
    case TakeGuard(i) =>
      GuardStepKeepsTasks(s, step, boot);
      TakeGuardKeepsGuards(s, i, boot);
    case Release(i) =>
      GuardStepKeepsTasks(s, step, boot);
      ReleaseKeepsGuards(s, i, boot);
    case Deliver(i, outcome, same, now, wall) =>
      assert TaskOwned(s, i);
      OutcomeKeepsCore(s.core, s.clock, s.tasks[i].slot, s.tasks[i].generation, outcome, same, now, wall, boot);
      DeliverKeepsTasks(s, step, boot);
  }

  lemma {:induction false} EveryRunIsCoherent(steps: seq<Step>, boot: string)
    ensures After(steps, boot).Some? ==>
              var s := After(steps, boot).value;
              Coherent(s) && forall i :: 0 <= i < |s.tasks| ==> s.tasks[i].mode == Docker
  {
    if steps != [] && After(steps, boot).Some? {
      EveryRunIsCoherent(steps[..|steps| - 1], boot);
      NextIsCoherent(After(steps[..|steps| - 1], boot).value, steps[|steps| - 1], boot);
    }
  }

  /** After every run each slot is published exactly once, in a state the browser's truth table accepts. */
  lemma EveryPublishedVectorIsAccepted(steps: seq<Step>, boot: string)
    requires After(steps, boot).Some?
    ensures VectorAccepted(ProviderStatesFor(After(steps, boot).value.core.slots))
  {
    EveryRunIsCoherent(steps, boot);
    CoherentVectorAccepted(After(steps, boot).value.core, After(steps, boot).value.clock);
  }

  /** No reachable mock cache retains a provider collection. */
  lemma MockRetainsNothing(steps: seq<Step>, boot: string, slot: ProviderSlot)
    requires After(steps, boot).Some? && After(steps, boot).value.core.mode == Mock
    ensures RetainedCollection(After(steps, boot).value.core.slots[slot].observation).None?
  {
    EveryRunIsCoherent(steps, boot);
  }

  /** No slot ever has two live workers. */
  lemma OneWorkerPerSlot(steps: seq<Step>, boot: string, i: nat, j: nat)
    requires After(steps, boot).Some? && i < j < |After(steps, boot).value.live|
    ensures After(steps, boot).value.live[i].slot != After(steps, boot).value.live[j].slot
  {
    EveryRunIsCoherent(steps, boot);
  }
}
