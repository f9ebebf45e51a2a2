/** How many workers the budget admits, and why an outcome of an earlier source can never be applied. */
module WorkerBounds {
  import opened Prelude
  import opened RuntimeModel
  import opened ProviderSlots
  import opened Scheduler
  import opened WorkerRuns

  lemma SubsetSize<T>(a: set<T>, b: set<T>)
    requires a <= b
    ensures |a| <= |b|
  {
    assert b == a + (b - a);
  }

  // ---------------------------------------------------------------- at most two slots are collecting

  lemma {:induction false} AsSet<T>(s: seq<T>)
    requires Distinct(s)
    ensures |set x | x in s| == |s|
  {
    if s != [] {
      var n := |s| - 1;
      AsSet(s[..n]);
      assert s == s[..n] + [s[n]];
      assert (set x | x in s) == (set x | x in s[..n]) + {s[n]};
      assert s[n] !in s[..n];
    }
  }

  lemma ClaimCollects(c: Core, now: nat, active: nat, wall: Option<nat>)
    ensures var claimed := Claimed(c.slots, now, active);
            && |claimed| <= Budget(c.slots, active)
            && CollectingSlots(ClaimCore(c, now, active, wall).slots)
               == CollectingSlots(c.slots) + set slot | slot in claimed
            && |CollectingSlots(ClaimCore(c, now, active, wall).slots)| <= |CollectingSlots(c.slots)| + |claimed|
  {
    var claimed := Claimed(c.slots, now, active);
    ClaimedIs(c.slots, now, active);
    AsSet(claimed);
    var after := ClaimCore(c, now, active, wall);
    forall slot: ProviderSlot
      ensures slot in CollectingSlots(after.slots) <==> slot in CollectingSlots(c.slots) || slot in claimed
    {
    }
    assert CollectingSlots(after.slots) == CollectingSlots(c.slots) + set slot | slot in claimed;
  }

  lemma CollectingNeverGrowsOtherwise(s: System, step: Step, boot: string)
    requires Enabled(s, step) && !step.Claim?
    ensures CollectingSlots(Next(s, step, boot).core.slots) <= CollectingSlots(s.core.slots)
  {
    if step.Deliver? {
      var task := s.tasks[step.task];
      OutcomeMovesOneSlot(s.core, task.slot, task.mode, task.generation, step.outcome, step.sameEvidence, step.now,
                          Some(step.wall), boot);
    }
  }

  lemma {:induction false} AtMostTwoCollecting(steps: seq<Step>, boot: string)
    ensures After(steps, boot).Some? ==> |CollectingSlots(After(steps, boot).value.core.slots)| <= 2
  {
    if steps == [] {
      assert CollectingSlots(STARTED.slots) == {};
    } else if After(steps, boot).Some? {
      var front, step := steps[..|steps| - 1], steps[|steps| - 1];
      AtMostTwoCollecting(front, boot);
      var s := After(front, boot).value;
      if step.Claim? {
        ClaimCollects(s.core, step.now, |s.guards|, Some(step.wall));
      } else {
        CollectingNeverGrowsOtherwise(s, step, boot);
        SubsetSize(CollectingSlots(Next(s, step, boot).core.slots), CollectingSlots(s.core.slots));
      }
    }
  }

  // ---------------------------------------------------------------- live workers of one source generation

  /** Slots of the tasks of a generation that have not reached their guard yet. */
  ghost function Pending(tasks: seq<Task>, generation: nat): set<ProviderSlot> {
    set i | 0 <= i < |tasks| && tasks[i].phase.Spawned? && tasks[i].generation == generation :: tasks[i].slot
  }

  /** Slots of the live workers of a generation; each has one worker, so this counts workers. */
  ghost function Live(live: seq<Worker>, generation: nat): set<ProviderSlot> {
    set i | 0 <= i < |live| && live[i].generation == generation :: live[i].slot
  }

  ghost predicate Within(s: System, generation: nat) {
    |Pending(s.tasks, generation)| + |Live(s.live, generation)| <= 2 * MAX_CONCURRENT_PROVIDER_SLOTS - 1
  }

  lemma LiveAreGuarded(s: System, generation: nat)
    requires GuardsCoherent(s)
    ensures Live(s.live, generation) <= s.guards && |Live(s.live, generation)| <= |s.guards|
  {
    forall slot | slot in Live(s.live, generation) ensures slot in s.guards {
      assert HasWorker(s.live, slot);
    }
    SubsetSize(Live(s.live, generation), s.guards);
  }

  lemma PendingAreCollecting(s: System)
    requires TasksCoherent(s)
    ensures Pending(s.tasks, s.core.generation) <= CollectingSlots(s.core.slots)
    ensures |Pending(s.tasks, s.core.generation)| <= |CollectingSlots(s.core.slots)|
  {
    forall slot | slot in Pending(s.tasks, s.core.generation) ensures slot in CollectingSlots(s.core.slots) {
      var i :| 0 <= i < |s.tasks| && s.tasks[i].phase.Spawned? && s.tasks[i].generation == s.core.generation
               && s.tasks[i].slot == slot;
      assert TaskOwned(s, i);
    }
    SubsetSize(Pending(s.tasks, s.core.generation), CollectingSlots(s.core.slots));
  }

  lemma PendingConcat(a: seq<Task>, b: seq<Task>, generation: nat)
    ensures Pending(a + b, generation) == Pending(a, generation) + Pending(b, generation)
  {
    var all := a + b;
    forall slot | slot in Pending(a, generation) ensures slot in Pending(all, generation) {
      var i :| 0 <= i < |a| && a[i].phase.Spawned? && a[i].generation == generation && a[i].slot == slot;
      assert all[i] == a[i];
    }
    forall slot | slot in Pending(b, generation) ensures slot in Pending(all, generation) {
      var i :| 0 <= i < |b| && b[i].phase.Spawned? && b[i].generation == generation && b[i].slot == slot;
      assert all[|a| + i] == b[i];
    }
  }

  lemma PendingSpawned(claimed: seq<ProviderSlot>, current: nat, generation: nat)
    ensures Pending(Spawn(claimed, current), generation)
            == if generation == current then set slot | slot in claimed else {}
  {
    var tasks := Spawn(claimed, current);
    if generation == current {
      forall slot | slot in claimed ensures slot in Pending(tasks, generation) {
        var i :| 0 <= i < |claimed| && claimed[i] == slot;
        assert tasks[i].slot == slot;
      }
    }
  }

  lemma ClaimStaysWithin(s: System, now: nat, wall: nat, boot: string, generation: nat)
    requires Coherent(s) && Enabled(s, Claim(now, wall)) && Within(s, generation)
    ensures Within(Next(s, Claim(now, wall), boot), generation)
  {
    var claimed := Claimed(s.core.slots, now, |s.guards|);
    PendingConcat(s.tasks, Spawn(claimed, s.core.generation), generation);
    PendingSpawned(claimed, s.core.generation, generation);
    ClaimedIs(s.core.slots, now, |s.guards|);
    AsSet(claimed);
    LiveAreGuarded(s, generation);
    if generation == s.core.generation && claimed != [] {
      PendingAreCollecting(s);
    } else {
      assert claimed == [] ==> (set slot | slot in claimed) == {};
    }
  }

  lemma TakeGuardStaysWithin(s: System, i: nat, boot: string, generation: nat)
    requires Coherent(s) && Enabled(s, TakeGuard(i)) && Within(s, generation)
    ensures Within(Next(s, TakeGuard(i), boot), generation)
  {
    var t := Next(s, TakeGuard(i), boot);
    var task := s.tasks[i];
    LeavesPending(s.tasks, i, t.tasks[i], generation);
    var moved := if task.generation == generation then {task.slot} else {};
    assert moved <= Pending(s.tasks, generation);
    SubsetSize(Pending(t.tasks, generation), Pending(s.tasks, generation) - moved);
    assert t.tasks == s.tasks[i := t.tasks[i]];
    assert |Pending(t.tasks, generation)| <= |Pending(s.tasks, generation)| - |moved|;
    if task.slot !in s.guards {
      LiveGrows(s.live, Worker(task.slot, task.generation), generation);
      assert |Live(s.live, generation) + moved| <= |Live(s.live, generation)| + |moved|;
    }
  }

  lemma LiveGrows(live: seq<Worker>, worker: Worker, generation: nat)
    ensures Live(live + [worker], generation)
            == Live(live, generation) + (if worker.generation == generation then {worker.slot} else {})
  {
    var after := live + [worker];
    assert after[|live|] == worker;
    forall slot | slot in Live(live, generation) ensures slot in Live(after, generation) {
      var i :| 0 <= i < |live| && live[i].generation == generation && live[i].slot == slot;
      assert after[i] == live[i];
    }
  }

  /** Advancing one task takes its slot out of the pending ones of its generation. */
  lemma LeavesPending(tasks: seq<Task>, i: nat, advanced: Task, generation: nat)
    requires i < |tasks| && tasks[i].phase.Spawned? && !advanced.phase.Spawned?
    requires forall j, k :: 0 <= j < k < |tasks| && tasks[j].slot == tasks[k].slot ==>
                              tasks[j].generation != tasks[k].generation
    ensures Pending(tasks[i := advanced], generation)
            <= Pending(tasks, generation) - (if tasks[i].generation == generation then {tasks[i].slot} else {})
  {
    var after := tasks[i := advanced];
    forall slot | slot in Pending(after, generation)
      ensures slot in Pending(tasks, generation)
      ensures tasks[i].generation == generation ==> slot != tasks[i].slot
    {
      var k :| 0 <= k < |after| && after[k].phase.Spawned? && after[k].generation == generation && after[k].slot == slot;
      assert k != i && tasks[k] == after[k];
    }
  }

  lemma OtherStepsStayWithin(s: System, step: Step, boot: string, generation: nat)
    requires Enabled(s, step) && (step.Publish? || step.Release? || step.Deliver?) && Within(s, generation)
    ensures Within(Next(s, step, boot), generation)
  {
    var t := Next(s, step, boot);
    forall slot | slot in Pending(t.tasks, generation) ensures slot in Pending(s.tasks, generation) {
      var k :| 0 <= k < |t.tasks| && t.tasks[k].phase.Spawned? && t.tasks[k].generation == generation
               && t.tasks[k].slot == slot;
      var from := if step.Deliver? && k >= step.task then k + 1 else k;
      assert t.tasks[k] == s.tasks[from];
    }
    forall slot | slot in Live(t.live, generation) ensures slot in Live(s.live, generation) {
      var k :| 0 <= k < |t.live| && t.live[k].generation == generation && t.live[k].slot == slot;
      var from := if step.Release? && k >= step.worker then k + 1 else k;
      assert t.live[k] == s.live[from];
    }
    SubsetSize(Pending(t.tasks, generation), Pending(s.tasks, generation));
    SubsetSize(Live(t.live, generation), Live(s.live, generation));
  }

  /**
   Without any assumption on when workers take their guards, the workers of one source generation that are live,
   timed-out ones still unwinding included, or about to be, never exceed the bound the claim formula gives.
   */
  lemma {:induction false} FormulaBoundsWorkers(steps: seq<Step>, boot: string, generation: nat)
    requires After(steps, boot).Some?
    ensures Within(After(steps, boot).value, generation)
  {
    if steps == [] {
      assert Pending([], generation) == {} && Live([], generation) == {};
    } else {
      var front, step := steps[..|steps| - 1], steps[|steps| - 1];
      FormulaBoundsWorkers(front, boot, generation);
      EveryRunIsCoherent(front, boot);
      var s := After(front, boot).value;
      match step
      case Claim(now, wall) => ClaimStaysWithin(s, now, wall, boot, generation);
      case TakeGuard(i) => TakeGuardStaysWithin(s, i, boot, generation);
      case _ => OtherStepsStayWithin(s, step, boot, generation);
    }
  }

  // ---------------------------------------------------------------- prompt workers

  /** Every claim finds all earlier tasks at, or past, their guard. */
  ghost predicate Prompt(steps: seq<Step>, boot: string) {
    forall k :: 0 <= k < |steps| && steps[k].Claim? ==> NothingSpawned(steps[..k], boot)
  }

  ghost predicate NothingSpawned(steps: seq<Step>, boot: string) {
    After(steps, boot).Some? ==>
      forall i :: 0 <= i < |After(steps, boot).value.tasks| ==> !After(steps, boot).value.tasks[i].phase.Spawned?
  }

  ghost function PendingTasks(tasks: seq<Task>): set<(ProviderSlot, nat)> {
    set i | 0 <= i < |tasks| && tasks[i].phase.Spawned? :: (tasks[i].slot, tasks[i].generation)
  }

  lemma PromptClaim(s: System, now: nat, wall: nat, boot: string)
    requires Enabled(s, Claim(now, wall)) && |PendingTasks(s.tasks)| + |s.guards| <= 2
    requires forall i :: 0 <= i < |s.tasks| ==> !s.tasks[i].phase.Spawned?
    ensures var t := Next(s, Claim(now, wall), boot); |PendingTasks(t.tasks)| + |t.guards| <= 2
  {
    var t := Next(s, Claim(now, wall), boot);
    var claimed := Claimed(s.core.slots, now, |s.guards|);
    ClaimedIs(s.core.slots, now, |s.guards|);
    AsSet(claimed);
    var bySlot := set slot | slot in claimed;
    var tagged := set slot | slot in bySlot :: (slot, s.core.generation);
    forall pair | pair in PendingTasks(t.tasks) ensures pair in tagged {
      var i :| 0 <= i < |t.tasks| && t.tasks[i].phase.Spawned? && pair == (t.tasks[i].slot, t.tasks[i].generation);
      assert i >= |s.tasks|;
      assert t.tasks[i].slot in claimed;
    }
    SubsetSize(PendingTasks(t.tasks), tagged);
    TaggedSize(bySlot, s.core.generation);
  }

  lemma {:induction false} TaggedSize(slots: set<ProviderSlot>, generation: nat)
    ensures |set slot | slot in slots :: (slot, generation)| == |slots|
  {
    if slots != {} {
      var one :| one in slots;
      TaggedSize(slots - {one}, generation);
      assert (set slot | slot in slots :: (slot, generation))
          == (set slot | slot in slots - {one} :: (slot, generation)) + {(one, generation)};
    }
  }

  lemma PromptOther(s: System, step: Step, boot: string)
    requires Coherent(s) && Enabled(s, step) && !step.Claim? && |PendingTasks(s.tasks)| + |s.guards| <= 2
    ensures var t := Next(s, step, boot); |PendingTasks(t.tasks)| + |t.guards| <= 2
  {
    var t := Next(s, step, boot);
    match step
    case TakeGuard(i) =>
      LeavesPendingTasks(s.tasks, i, t.tasks[i]);
      var taken := (s.tasks[i].slot, s.tasks[i].generation);
      assert taken in PendingTasks(s.tasks);
      SubsetSize(PendingTasks(t.tasks), PendingTasks(s.tasks) - {taken});
    case Deliver(i, _, _, _, _) =>
      DroppedPendingTasks(s.tasks, i);
      SubsetSize(PendingTasks(t.tasks), PendingTasks(s.tasks));
    case _ =>
      SubsetSize(t.guards, s.guards);
  }

  lemma LeavesPendingTasks(tasks: seq<Task>, i: nat, advanced: Task)
    requires i < |tasks| && tasks[i].phase.Spawned? && !advanced.phase.Spawned?
    requires forall j, k :: 0 <= j < k < |tasks| && tasks[j].slot == tasks[k].slot ==>
                              tasks[j].generation != tasks[k].generation
    ensures PendingTasks(tasks[i := advanced]) <= PendingTasks(tasks) - {(tasks[i].slot, tasks[i].generation)}
  {
    var after := tasks[i := advanced];
    forall pair | pair in PendingTasks(after)
      ensures pair in PendingTasks(tasks) && pair != (tasks[i].slot, tasks[i].generation)
    {
      var k :| 0 <= k < |after| && after[k].phase.Spawned? && pair == (after[k].slot, after[k].generation);
      assert k != i && tasks[k] == after[k];
    }
  }

  lemma DroppedPendingTasks(tasks: seq<Task>, i: nat)
    requires i < |tasks|
    ensures PendingTasks(Drop(tasks, i)) <= PendingTasks(tasks)
  {
    var after := Drop(tasks, i);
    forall pair | pair in PendingTasks(after) ensures pair in PendingTasks(tasks) {
      var k :| 0 <= k < |after| && after[k].phase.Spawned? && pair == (after[k].slot, after[k].generation);
      assert after[k] == tasks[if k < i then k else k + 1];
    }
  }

  /** If each claimed worker takes its guard before the next claim, live workers of all generations never exceed two. */
  lemma {:induction false} PromptWorkersFitTheBudget(steps: seq<Step>, boot: string)
    requires After(steps, boot).Some? && Prompt(steps, boot)
    ensures var s := After(steps, boot).value;
            |PendingTasks(s.tasks)| + |s.guards| <= 2 && |s.live| == |s.guards|
  {
    EveryRunIsCoherent(steps, boot);
    GuardsCountWorkers(After(steps, boot).value);
    if steps == [] {
      assert PendingTasks([]) == {};
    } else {
      var front, step := steps[..|steps| - 1], steps[|steps| - 1];
      forall k | 0 <= k < |front| && front[k].Claim? ensures NothingSpawned(front[..k], boot) {
        assert front[..k] == steps[..k] && steps[k].Claim?;
      }
      PromptWorkersFitTheBudget(front, boot);
      EveryRunIsCoherent(front, boot);
      if step.Claim? {
        assert NothingSpawned(steps[..|steps| - 1], boot);
        PromptClaim(After(front, boot).value, step.now, step.wall, boot);
      } else {
        PromptOther(After(front, boot).value, step, boot);
      }
    }
  }

  lemma GuardsCountWorkers(s: System)
    requires GuardsCoherent(s)
    ensures |s.live| == |s.guards|
  {
    var slots := seq(|s.live|, i requires 0 <= i < |s.live| => s.live[i].slot);
    AsSet(slots);
    forall slot ensures slot in s.guards <==> slot in slots {
      if slot in s.guards {
        assert HasWorker(s.live, slot);
        var i :| 0 <= i < |s.live| && s.live[i].slot == slot;
        assert slots[i] == slot;
      }
      if slot in slots {
        var i :| 0 <= i < |slots| && slots[i] == slot;
        assert s.live[i].slot == slot;
      }
    }
    assert s.guards == set slot | slot in slots;
  }

  // ---------------------------------------------------------------- the formula's bound is reached

  /** A reset table with two claims of budget: the first two slots start. */
  lemma FirstClaims()
    ensures Claimed(SlotsOf(RESET_SLOT), 0, 0) == [NetworkInfrastructure, HostScoped]
  {
    var slots := SlotsOf(RESET_SLOT);
    assert CollectingSlots(slots) == {};
    assert STATIC_PROVIDER_SLOTS[0] == NetworkInfrastructure && STATIC_PROVIDER_SLOTS[1..][0] == HostScoped;
    assert FirstClaimable(STATIC_PROVIDER_SLOTS[1..], slots, 0, 1) == [HostScoped] by {
      assert FirstClaimable(STATIC_PROVIDER_SLOTS[1..][1..], slots, 0, 0) == [];
    }
  }

  /** One slot timed out just now, one collecting, its worker not at its guard: the budget admits a third. */
  lemma ThirdClaim(slots: Slots)
    requires CollectingSlots(slots) == {HostScoped}
    requires slots[NetworkInfrastructure].completedAt == Some(0) && slots[Tmux] == RESET_SLOT
    ensures Claimed(slots, 0, 1) == [Tmux]
  {
    var order := STATIC_PROVIDER_SLOTS;
    assert HostScoped in CollectingSlots(slots) && NetworkInfrastructure !in CollectingSlots(slots);
    assert order[0] == NetworkInfrastructure && order[1..][0] == HostScoped && order[1..][1..][0] == Tmux;
    assert FirstClaimable(order[1..][1..], slots, 0, 1) == [Tmux] by {
      assert FirstClaimable(order[1..][1..][1..], slots, 0, 0) == [];
    }
    assert FirstClaimable(order[1..], slots, 0, 1) == [Tmux];
  }

  lemma DockerPublished(boot: string) returns (steps: seq<Step>)
    ensures After(steps, boot) == Some(System(Core(Docker, 1, SlotsOf(RESET_SLOT)), [], [], {}, 0, 0))
  {
    steps := [Publish(Docker, true)];
    assert After(steps[..0], boot) == Some(INITIAL);
  }

  /** Docker is published and the first two slots are claimed. */
  lemma TwoClaimed(boot: string) returns (steps: seq<Step>)
    ensures After(steps, boot) == Some(System(
              Core(Docker, 1, StartSlots(SlotsOf(RESET_SLOT), [NetworkInfrastructure, HostScoped], Some(0))),
              [Task(NetworkInfrastructure, Docker, 1, Spawned), Task(HostScoped, Docker, 1, Spawned)], [], {}, 0, 0))
  {
    var published := DockerPublished(boot);
    FirstClaims();
    var next;
    steps, next := Further(published, Claim(0, 0), boot, After(published, boot).value);
    var spawned := Spawn([NetworkInfrastructure, HostScoped], 1);
    assert [] + spawned
        == [Task(NetworkInfrastructure, Docker, 1, Spawned), Task(HostScoped, Docker, 1, Spawned)];
  }

  /** The first worker takes its guard and times out; the second has not reached its guard. */
  lemma OneUnwinding(boot: string) returns (steps: seq<Step>, slots: Slots)
    ensures After(steps, boot) == Some(System(
              Core(Docker, 1, slots), [Task(HostScoped, Docker, 1, Spawned)], [Worker(NetworkInfrastructure, 1)],
              {NetworkInfrastructure}, 0, 0))
    ensures CollectingSlots(slots) == {HostScoped}
    ensures slots[NetworkInfrastructure].completedAt == Some(0) && slots[Tmux] == RESET_SLOT
    ensures slots[NetworkInfrastructure].observation == SlotObservation.TimedOut(None)
  {
    steps := TwoClaimed(boot);
    var s, t;
    steps, s := Further(steps, TakeGuard(0), boot, After(steps, boot).value);
    assert s.live == [Worker(NetworkInfrastructure, 1)] && s.guards == {NetworkInfrastructure};
    steps, t := Further(steps, Deliver(0, AttemptTimedOut, true, 0, 0), boot, s);
    slots := t.core.slots;
    assert t.tasks == [Task(HostScoped, Docker, 1, Spawned)];
    assert HostScoped in CollectingSlots(slots);
  }

  lemma ThirdClaimed(boot: string) returns (steps: seq<Step>)
    ensures After(steps, boot).Some?
    ensures var s := After(steps, boot).value;
            && s.tasks == [Task(HostScoped, Docker, 1, Spawned), Task(Tmux, Docker, 1, Spawned)]
            && s.live == [Worker(NetworkInfrastructure, 1)] && s.guards == {NetworkInfrastructure}
  {
    var before, slots := OneUnwinding(boot);
    ThirdClaim(slots);
    var s;
    steps, s := Further(before, Claim(0, 0), boot, After(before, boot).value);
    assert s.tasks == [Task(HostScoped, Docker, 1, Spawned)] + Spawn([Tmux], 1);
  }

  /**
   Three workers of one generation can be live at once: the first times out while the second has not reached its
   guard, so the larger of the two counts is one and a third slot is claimed.
   */
  lemma FormulaBoundIsReached(boot: string) returns (steps: seq<Step>)
    ensures After(steps, boot).Some?
    ensures |Live(After(steps, boot).value.live, 1)| == 2 * MAX_CONCURRENT_PROVIDER_SLOTS - 1
  {
    steps := ThirdClaimed(boot);
    var s;
    steps, s := Further(steps, TakeGuard(0), boot, After(steps, boot).value);
    steps, s := Further(steps, TakeGuard(1), boot, s);
    var live := s.live;
    assert live == [Worker(NetworkInfrastructure, 1), Worker(HostScoped, 1), Worker(Tmux, 1)];
    assert Live(live, 1) == {NetworkInfrastructure, HostScoped, Tmux} by {
      assert live[0].slot in Live(live, 1) && live[1].slot in Live(live, 1) && live[2].slot in Live(live, 1);
    }
  }

  // ---------------------------------------------------------------- outcomes of an earlier source

  function ModeAfter(mode: RuntimeMode, steps: seq<Step>): RuntimeMode {
    if steps == [] then mode
    else if steps[|steps| - 1].Publish? then steps[|steps| - 1].mode
    else ModeAfter(mode, steps[..|steps| - 1])
  }

  /** Docker/mock transitions among the steps. */
  function Flips(mode: RuntimeMode, steps: seq<Step>): nat {
    if steps == [] then 0
    else
      var front, step := steps[..|steps| - 1], steps[|steps| - 1];
      Flips(mode, front) + (if step.Publish? && step.mode != ModeAfter(mode, front) then 1 else 0)
  }

  lemma StepFlips(s: System, step: Step, boot: string)
    requires Enabled(s, step)
    ensures var c := Next(s, step, boot).core;
            if step.Publish? then
              c.mode == step.mode && c.generation == s.core.generation + (if step.mode != s.core.mode then 1 else 0)
            else c.mode == s.core.mode && c.generation == s.core.generation
  {
    if step.Deliver? {
      var task := s.tasks[step.task];
      OutcomeMovesOneSlot(s.core, task.slot, task.mode, task.generation, step.outcome, step.sameEvidence, step.now,
                          Some(step.wall), boot);
    }
  }

  lemma {:induction false} GenerationCountsFlips(steps: seq<Step>, more: seq<Step>, boot: string)
    requires After(steps + more, boot).Some?
    ensures After(steps, boot).Some?
    ensures var c := After(steps, boot).value.core;
            && After(steps + more, boot).value.core.mode == ModeAfter(c.mode, more)
            && After(steps + more, boot).value.core.generation == c.generation + Flips(c.mode, more)
    decreases |more|
  {
    if more == [] {
      assert steps + more == steps;
    } else {
      var front, step := more[..|more| - 1], more[|more| - 1];
      assert (steps + more)[..|steps + more| - 1] == steps + front;
      GenerationCountsFlips(steps, front, boot);
      StepFlips(After(steps + front, boot).value, step, boot);
    }
  }

  ghost predicate HasTask(s: System, slot: ProviderSlot, generation: nat) {
    exists i :: 0 <= i < |s.tasks| && s.tasks[i].slot == slot && s.tasks[i].generation == generation
  }

  ghost predicate PendingAfter(steps: seq<Step>, boot: string, slot: ProviderSlot, generation: nat) {
    After(steps, boot).Some? && HasTask(After(steps, boot).value, slot, generation)
  }

  /** After `before`, a step claims the slot in this generation. */
  ghost predicate ClaimsAfter(before: seq<Step>, step: Step, boot: string, slot: ProviderSlot, generation: nat) {
    step.Claim? && After(before, boot).Some? && ClaimsIn(After(before, boot).value, step, slot, generation)
  }

  predicate ClaimsIn(s: System, step: Step, slot: ProviderSlot, generation: nat)
    requires step.Claim?
  {
    slot in Claimed(s.core.slots, step.now, |s.guards|) && s.core.generation == generation
  }

  /** Step `k` claims the slot in this generation, and the spawned task is pending after every later step. */
  ghost predicate SpawnedBy(steps: seq<Step>, boot: string, k: nat, slot: ProviderSlot, generation: nat) {
    && k < |steps| && ClaimsAfter(steps[..k], steps[k], boot, slot, generation)
    && forall m :: k < m <= |steps| ==> PendingAfter(steps[..m], boot, slot, generation)
  }

  /** A task of one state was there before the step, or the step claimed its slot in the current generation. */
  lemma TaskComesFrom(s: System, step: Step, boot: string, slot: ProviderSlot, generation: nat)
    requires Enabled(s, step) && HasTask(Next(s, step, boot), slot, generation)
    ensures HasTask(s, slot, generation)
            || (step.Claim? && ClaimsIn(s, step, slot, generation))
  {
    var t := Next(s, step, boot);
    var i :| 0 <= i < |t.tasks| && t.tasks[i].slot == slot && t.tasks[i].generation == generation;
    match step
    case Claim(now, _) =>
      var claimed := Claimed(s.core.slots, now, |s.guards|);
      if i < |s.tasks| {
        assert s.tasks[i] == t.tasks[i];
      } else {
        assert t.tasks[i] == Spawn(claimed, s.core.generation)[i - |s.tasks|];
      }
    case TakeGuard(k) => assert s.tasks[i].slot == slot && s.tasks[i].generation == generation;
    case Deliver(k, _, _, _, _) => assert t.tasks[i] == s.tasks[if i < k then i else i + 1];
    case _ => assert s.tasks[i] == t.tasks[i];
  }

  lemma PendingOrClaimed(front: seq<Step>, step: Step, boot: string, slot: ProviderSlot, generation: nat)
    requires PendingAfter(front + [step], boot, slot, generation)
    ensures PendingAfter(front, boot, slot, generation) || ClaimsAfter(front, step, boot, slot, generation)
  {
    assert (front + [step])[..|front|] == front;
    TaskComesFrom(After(front, boot).value, step, boot, slot, generation);
  }

  lemma SpawnedEarlier(steps: seq<Step>, boot: string, k: nat, slot: ProviderSlot, generation: nat)
    requires steps != [] && SpawnedBy(steps[..|steps| - 1], boot, k, slot, generation)
    requires PendingAfter(steps, boot, slot, generation)
    ensures SpawnedBy(steps, boot, k, slot, generation)
  {
    var front := steps[..|steps| - 1];
    assert front[..k] == steps[..k] && steps[..|steps|] == steps;
    forall m | k < m <= |steps| ensures PendingAfter(steps[..m], boot, slot, generation) {
      if m < |steps| {
        assert front[..m] == steps[..m];
      }
    }
  }

  lemma NothingPendingAtStart(boot: string, slot: ProviderSlot, generation: nat)
    ensures !PendingAfter([], boot, slot, generation)
  {
  }

  /** Every pending task was spawned by a claim of its slot in its generation. */
  lemma {:induction false} TaskWasClaimed(steps: seq<Step>, boot: string, slot: ProviderSlot, generation: nat)
    returns (k: nat)
    requires PendingAfter(steps, boot, slot, generation)
    ensures SpawnedBy(steps, boot, k, slot, generation)
  {
    NothingPendingAtStart(boot, slot, generation);
    var n := |steps| - 1;
    assert steps == steps[..n] + [steps[n]];
    PendingOrClaimed(steps[..n], steps[n], boot, slot, generation);
    if PendingAfter(steps[..n], boot, slot, generation) {
      k := TaskWasClaimed(steps[..n], boot, slot, generation);
      SpawnedEarlier(steps, boot, k, slot, generation);
    } else {
      k := n;
      assert steps[..|steps|] == steps;
    }
  }

  // ---------------------------------------------------------------- collecting slots and their tasks

  /** In Docker mode no slot is collecting without a task of the running generation. */
  ghost predicate Attended(s: System) {
    s.core.mode == Docker ==>
      forall slot: ProviderSlot :: s.core.slots[slot].observation.Collecting? ==> HasTask(s, slot, s.core.generation)
  }

  lemma KeptTask(s: System, next: System, slot: ProviderSlot, generation: nat)
    requires HasTask(s, slot, generation) && s.tasks <= next.tasks
    ensures HasTask(next, slot, generation)
  {
    var i :| 0 <= i < |s.tasks| && s.tasks[i].slot == slot && s.tasks[i].generation == generation;
    assert next.tasks[i] == s.tasks[i];
  }

  lemma SpawnedTask(tasks: seq<Task>, claimed: seq<ProviderSlot>, generation: nat, next: System, slot: ProviderSlot)
    requires slot in claimed && next.tasks == tasks + Spawn(claimed, generation)
    ensures HasTask(next, slot, generation)
  {
    var k :| 0 <= k < |claimed| && claimed[k] == slot;
    assert next.tasks[|tasks| + k] == Task(slot, Docker, generation, Spawned);
  }

  lemma ClaimAttends(s: System, now: nat, wall: nat, boot: string, claimed: seq<ProviderSlot>, next: System)
    requires Attended(s) && Enabled(s, Claim(now, wall)) && next == Next(s, Claim(now, wall), boot)
    requires claimed == Claimed(s.core.slots, now, |s.guards|)
    ensures Attended(next)
  {
    forall slot: ProviderSlot | s.core.mode == Docker && next.core.slots[slot].observation.Collecting?
      ensures HasTask(next, slot, next.core.generation)
    {
      if slot in claimed {
        SpawnedTask(s.tasks, claimed, s.core.generation, next, slot);
      } else {
        KeptTask(s, next, slot, s.core.generation);
      }
    }
  }

  lemma DeliveryEndsCollecting(c: Core, slot: ProviderSlot, outcome: Outcome, same: bool, now: nat, wall: Option<nat>,
                               boot: string)
    requires c.mode == Docker
    ensures !OutcomeCore(c, slot, Docker, c.generation, outcome, same, now, wall, boot).slots[slot].observation.Collecting?
  {
  }

  lemma DeliverAttends(s: System, step: Step, boot: string, next: System)
    requires Attended(s) && Enabled(s, step) && step.Deliver? && next == Next(s, step, boot)
    requires s.tasks[step.task].mode == Docker
    ensures Attended(next)
  {
    var task := s.tasks[step.task];
    OutcomeMovesOneSlot(s.core, task.slot, task.mode, task.generation, step.outcome, step.sameEvidence, step.now,
                        Some(step.wall), boot);
    forall slot: ProviderSlot | s.core.mode == Docker && next.core.slots[slot].observation.Collecting?
      ensures HasTask(next, slot, next.core.generation)
    {
      if task.generation == s.core.generation && slot == task.slot {
        DeliveryEndsCollecting(s.core, slot, step.outcome, step.sameEvidence, step.now, Some(step.wall), boot);
      } else {
        var i :| 0 <= i < |s.tasks| && s.tasks[i].slot == slot && s.tasks[i].generation == s.core.generation;
        assert next.tasks[if i < step.task then i else i - 1] == s.tasks[i];
      }
    }
  }

  lemma OtherStepAttends(s: System, step: Step, boot: string, next: System)
    requires Attended(s) && Enabled(s, step) && !step.Claim? && !step.Deliver? && next == Next(s, step, boot)
    ensures Attended(next)
  {
    forall slot: ProviderSlot | next.core.mode == Docker && next.core.slots[slot].observation.Collecting?
      ensures HasTask(next, slot, next.core.generation)
    {
      assert s.core.slots[slot].observation.Collecting?;
      var i :| 0 <= i < |s.tasks| && s.tasks[i].slot == slot && s.tasks[i].generation == s.core.generation;
      assert next.tasks[i].slot == slot && next.tasks[i].generation == s.core.generation;
    }
  }

  lemma {:induction false} EveryRunIsAttended(steps: seq<Step>, boot: string)
    requires After(steps, boot).Some?
    ensures Attended(After(steps, boot).value)
  {
    if steps != [] {
      var front, step := steps[..|steps| - 1], steps[|steps| - 1];
      EveryRunIsAttended(front, boot);
      EveryRunIsCoherent(front, boot);
      var s, next := After(front, boot).value, After(steps, boot).value;
      match step
      case Claim(now, wall) => ClaimAttends(s, now, wall, boot, Claimed(s.core.slots, now, |s.guards|), next);
      case Deliver(_, _, _, _, _) => DeliverAttends(s, step, boot, next);
      case _ => OtherStepAttends(s, step, boot, next);
    }
  }

  predicate IsTaskOf(s: System, i: int, slot: ProviderSlot) {
    0 <= i < |s.tasks| && s.tasks[i].slot == slot && s.tasks[i].generation == s.core.generation
  }

  /** In Docker mode the collecting slots are those with a task of the running generation, and each has just one. */
  lemma CollectingHasOneTask(steps: seq<Step>, boot: string, slot: ProviderSlot)
    requires After(steps, boot).Some? && After(steps, boot).value.core.mode == Docker
    ensures var s := After(steps, boot).value;
            && (s.core.slots[slot].observation.Collecting? <==> HasTask(s, slot, s.core.generation))
            && forall i, j :: IsTaskOf(s, i, slot) && IsTaskOf(s, j, slot) ==> i == j
  {
    EveryRunIsAttended(steps, boot);
    EveryRunIsCoherent(steps, boot);
    var s := After(steps, boot).value;
    if HasTask(s, slot, s.core.generation) {
      var i :| 0 <= i < |s.tasks| && s.tasks[i].slot == slot && s.tasks[i].generation == s.core.generation;
      assert TaskOwned(s, i);
    }
  }

  /** Applied outcomes, from a state of the task's generation on. */
  lemma OutcomeAfter(steps: seq<Step>, more: seq<Step>, boot: string, deliver: Step)
    requires After(steps + more, boot).Some? && deliver.Deliver? && After(steps, boot).Some?
    requires var t := After(steps + more, boot).value;
             Enabled(t, deliver) && t.tasks[deliver.task].generation == After(steps, boot).value.core.generation
    ensures var t := After(steps + more, boot).value;
            var mode := After(steps, boot).value.core.mode;
            var slot := t.tasks[deliver.task].slot;
            Next(t, deliver, boot).core
            == if mode == Docker && Flips(mode, more) == 0
               then t.core.(slots := t.core.slots[slot := ApplyOutcome(t.core.slots[slot], deliver.outcome,
                                                    deliver.sameEvidence, deliver.now, Some(deliver.wall), boot)])
               else t.core
  {
    EveryRunIsCoherent(steps + more, boot);
    GenerationCountsFlips(steps, more, boot);
    var mode := After(steps, boot).value.core.mode;
    if Flips(mode, more) == 0 {
      NoFlipKeepsMode(mode, more);
    }
  }

  /**
   An outcome is applied exactly when its worker was claimed in Docker mode and no Docker/mock transition happened
   since that claim; after any, Docker to mock to Docker included, it changes nothing.
   */
  lemma OutcomeNeedsItsSource(steps: seq<Step>, boot: string, deliver: Step) returns (k: nat)
    requires After(steps, boot).Some? && deliver.Deliver? && Enabled(After(steps, boot).value, deliver)
    ensures var t := After(steps, boot).value;
            var task := t.tasks[deliver.task];
            && SpawnedBy(steps, boot, k, task.slot, task.generation)
            && var mode := After(steps[..k], boot).value.core.mode;
               Next(t, deliver, boot).core
               == if mode == Docker && Flips(mode, steps[k..]) == 0
                  then t.core.(slots := t.core.slots[task.slot := ApplyOutcome(t.core.slots[task.slot], deliver.outcome,
                                                       deliver.sameEvidence, deliver.now, Some(deliver.wall), boot)])
                  else t.core
  {
    var task := After(steps, boot).value.tasks[deliver.task];
    k := TaskWasClaimed(steps, boot, task.slot, task.generation);
    assert steps[..k] + steps[k..] == steps;
    OutcomeAfter(steps[..k], steps[k..], boot, deliver);
  }

  lemma {:induction false} NoFlipKeepsMode(mode: RuntimeMode, steps: seq<Step>)
    requires Flips(mode, steps) == 0
    ensures ModeAfter(mode, steps) == mode
  {
    if steps != [] {
      NoFlipKeepsMode(mode, steps[..|steps| - 1]);
    }
  }
}
