/** What source flips add: workers of several generations at once, and claims that do not rest behind a completion. */
module WorkerFlips {
  import opened Prelude
  import opened RuntimeModel
  import opened ProviderSlots
  import opened Scheduler
  import opened WorkerRuns
  import opened ClaimSpacing
  import WorkerBounds

  // ---------------------------------------------------------------- live workers of all generations

  /** Workers of all generations together never exceed the slots there are. */
  lemma LiveWorkersFitTheSlots(steps: seq<Step>, boot: string)
    requires After(steps, boot).Some?
    ensures |After(steps, boot).value.live| <= |STATIC_PROVIDER_SLOTS|
  {
    EveryRunIsCoherent(steps, boot);
    var s := After(steps, boot).value;
    WorkerBounds.GuardsCountWorkers(s);
    forall slot: ProviderSlot ensures slot in STATIC_PROVIDER_SLOTS {
      StaticSlotsAreAll(slot);
    }
    StaticSlotsAreAll(Tmux);
    WorkerBounds.AsSet(STATIC_PROVIDER_SLOTS);
    WorkerBounds.SubsetSize(s.guards, set slot | slot in STATIC_PROVIDER_SLOTS);
  }

  /** What a failed first attempt at time zero makes of a reset slot. */
  const FAILED_SLOT := SlotState(Degraded(None), Some(0), SlotFreshness(Some(0), None, None, 1, None, None, Some(CollectionFailed)))

  /** These slots have failed just now, the others are reset. */
  predicate FailedAre(slots: Slots, failed: set<ProviderSlot>) {
    forall slot: ProviderSlot :: slots[slot] == if slot in failed then FAILED_SLOT else RESET_SLOT
  }

  /** The first slots in the fixed order. */
  function First(k: nat): set<ProviderSlot>
    requires k <= |STATIC_PROVIDER_SLOTS|
  {
    set slot | slot in STATIC_PROVIDER_SLOTS[..k]
  }

  /** No worker lives and nothing but these older tasks waits for its guard. */
  predicate Idle(s: System, generation: nat, failed: set<ProviderSlot>, older: seq<Task>) {
    && s.core.mode == Docker && s.core.generation == generation && FailedAre(s.core.slots, failed)
    && s.tasks == older && s.live == [] && s.guards == {} && s.now == 0 && s.clock == 0
  }

  predicate Reaches(steps: seq<Step>, boot: string, s: System) {
    After(steps, boot) == Some(s)
  }

  lemma GoOn(steps: seq<Step>, step: Step, boot: string, s: System) returns (more: seq<Step>, next: System)
    requires Reaches(steps, boot, s) && Enabled(s, step)
    ensures Reaches(more, boot, next) && next == Next(s, step, boot)
  {
    more, next := Further(steps, step, boot, s);
  }

  lemma {:induction false} SkipFailed(order: seq<ProviderSlot>, slots: Slots, k: nat)
    requires k <= |order| && forall i :: 0 <= i < k ==> slots[order[i]] == FAILED_SLOT
    ensures FirstClaimable(order, slots, 0, 2) == FirstClaimable(order[k..], slots, 0, 2)
  {
    if k > 0 {
      SkipFailed(order[1..], slots, k - 1);
      assert order[1..][k - 1..] == order[k..];
    } else {
      assert order[0..] == order;
    }
  }

  lemma FirstTwo(order: seq<ProviderSlot>, slots: Slots)
    requires |order| >= 2 && slots[order[0]] == RESET_SLOT && slots[order[1]] == RESET_SLOT
    ensures FirstClaimable(order, slots, 0, 2) == [order[0], order[1]]
  {
    assert order[1..][0] == order[1];
    assert FirstClaimable(order[1..][1..], slots, 0, 0) == [];
    assert FirstClaimable(order[1..], slots, 0, 1) == [order[1]];
  }

  /** The two slots that follow the first `k`. */
  predicate NextTwo(k: nat, a: ProviderSlot, b: ProviderSlot) {
    k + 2 <= |STATIC_PROVIDER_SLOTS| && a == STATIC_PROVIDER_SLOTS[k] && b == STATIC_PROVIDER_SLOTS[k + 1]
  }

  lemma FirstGrows(k: nat, a: ProviderSlot, b: ProviderSlot)
    requires NextTwo(k, a, b)
    ensures a != b && a !in First(k) && b !in First(k) && First(k + 2) == First(k) + {a, b}
  {
    var order := STATIC_PROVIDER_SLOTS;
    StaticSlotsAreAll(Tmux);
    assert order[..k + 2] == order[..k] + [a, b];
  }

  /** They are the ones claimed. */
  lemma NextTwoClaimed(slots: Slots, k: nat, a: ProviderSlot, b: ProviderSlot)
    requires NextTwo(k, a, b) && FailedAre(slots, First(k))
    ensures Claimed(slots, 0, 0) == [a, b]
  {
    var order := STATIC_PROVIDER_SLOTS;
    FirstGrows(k, a, b);
    forall i | 0 <= i < k ensures slots[order[i]] == FAILED_SLOT {
      assert order[i] == order[..k][i];
    }
    assert CollectingSlots(slots) == {};
    SkipFailed(order, slots, k);
    assert order[k..][0] == a && order[k..][1] == b;
    FirstTwo(order[k..], slots);
  }

  function NewTask(slot: ProviderSlot, generation: nat): Task {
    Task(slot, Docker, generation, Spawned)
  }

  function Pair(a: ProviderSlot, b: ProviderSlot, generation: nat): seq<Task> {
    [NewTask(a, generation), NewTask(b, generation)]
  }

  /** Two slots are claimed, their tasks behind the older ones. */
  predicate TwoStarted(s: System, generation: nat, failed: set<ProviderSlot>, a: ProviderSlot, b: ProviderSlot,
                       older: seq<Task>)
  {
    && s.core.mode == Docker && s.core.generation == generation
    && (forall slot: ProviderSlot ::
          s.core.slots[slot] == if slot == a || slot == b then ClaimSlot(RESET_SLOT, Some(0))
                                else if slot in failed then FAILED_SLOT else RESET_SLOT)
    && s.tasks == older + Pair(a, b, generation)
    && s.live == [] && s.guards == {} && s.now == 0 && s.clock == 0
  }

  lemma StartedSlots(slots: Slots, failed: set<ProviderSlot>, a: ProviderSlot, b: ProviderSlot, started: Slots)
    requires FailedAre(slots, failed) && a !in failed && b !in failed && started == StartSlots(slots, [a, b], Some(0))
    ensures forall slot: ProviderSlot ::
              started[slot] == if slot == a || slot == b then ClaimSlot(RESET_SLOT, Some(0))
                               else if slot in failed then FAILED_SLOT else RESET_SLOT
  {
  }

  lemma StartTwo(s: System, boot: string, generation: nat, failed: set<ProviderSlot>, a: ProviderSlot, b: ProviderSlot,
                 older: seq<Task>, next: System)
    requires Idle(s, generation, failed, older) && a !in failed && b !in failed
    requires Claimed(s.core.slots, 0, 0) == [a, b] && next == Next(s, Claim(0, 0), boot)
    ensures TwoStarted(next, generation, failed, a, b, older)
  {
    assert |s.guards| == 0;
    StartedSlots(s.core.slots, failed, a, b, next.core.slots);
    assert Spawn([a, b], generation) == Pair(a, b, generation);
  }

  lemma TakesGuard(s: System, boot: string, slot: ProviderSlot, before: seq<Task>, behind: seq<Task>, next: System)
    requires s.tasks == before + [NewTask(slot, s.core.generation)] + behind && s.live == [] && s.guards == {}
    requires next == Next(s, TakeGuard(|before|), boot)
    ensures next == s.(tasks := before + [Task(slot, Docker, s.core.generation, Working)] + behind,
                       live := [Worker(slot, s.core.generation)], guards := {slot})
  {
  }

  lemma Fails(s: System, boot: string, slot: ProviderSlot, before: seq<Task>, behind: seq<Task>, next: System)
    requires s.core.mode == Docker && s.core.slots[slot] == ClaimSlot(RESET_SLOT, Some(0)) && s.now == 0 && s.clock == 0
    requires s.tasks == before + [Task(slot, Docker, s.core.generation, Working)] + behind
    requires next == Next(s, Deliver(|before|, Failed, true, 0, 0), boot)
    ensures next == s.(core := s.core.(slots := s.core.slots[slot := FAILED_SLOT]), tasks := before + behind)
  {
    assert next.tasks == before + behind;
    assert next.core.slots == s.core.slots[slot := FAILED_SLOT];
  }

  /** One claimed task takes its guard, fails, and its worker exits. */
  lemma FailOne(steps: seq<Step>, boot: string, s: System, slot: ProviderSlot, before: seq<Task>, behind: seq<Task>)
    returns (more: seq<Step>, next: System)
    requires Reaches(steps, boot, s) && s.core.mode == Docker && s.core.slots[slot] == ClaimSlot(RESET_SLOT, Some(0))
    requires s.tasks == before + [NewTask(slot, s.core.generation)] + behind
    requires s.live == [] && s.guards == {} && s.now == 0 && s.clock == 0
    ensures Reaches(more, boot, next)
    ensures next == s.(core := s.core.(slots := s.core.slots[slot := FAILED_SLOT]), tasks := before + behind)
  {
    var working, applied;
    more, working := GoOn(steps, TakeGuard(|before|), boot, s);
    TakesGuard(s, boot, slot, before, behind, working);
    more, applied := GoOn(more, Deliver(|before|, Failed, true, 0, 0), boot, working);
    Fails(working, boot, slot, before, behind, applied);
    more, next := GoOn(more, Release(0), boot, applied);
    assert next.guards == {} && next.live == [];
  }

  lemma BothFailed(started: System, next: System, generation: nat, failed: set<ProviderSlot>, a: ProviderSlot,
                   b: ProviderSlot, older: seq<Task>)
    requires TwoStarted(started, generation, failed, a, b, older)
    requires next.core.slots == started.core.slots[a := FAILED_SLOT][b := FAILED_SLOT]
    ensures FailedAre(next.core.slots, failed + {a, b})
  {
  }

  /** Both claimed slots fail. */
  lemma FailBoth(steps: seq<Step>, boot: string, s: System, generation: nat, failed: set<ProviderSlot>, a: ProviderSlot,
                 b: ProviderSlot, older: seq<Task>) returns (more: seq<Step>, next: System)
    requires Reaches(steps, boot, s) && TwoStarted(s, generation, failed, a, b, older) && a != b
    ensures Reaches(more, boot, next) && Idle(next, generation, failed + {a, b}, older)
  {
    var one;
    assert older + Pair(a, b, generation) == older + [NewTask(a, generation)] + [NewTask(b, generation)];
    more, one := FailOne(steps, boot, s, a, older, [NewTask(b, generation)]);
    assert older + [NewTask(b, generation)] == older + [NewTask(b, generation)] + [];
    more, next := FailOne(more, boot, one, b, older, []);
    assert older + [] == older;
    BothFailed(s, next, generation, failed, a, b, older);
  }

  /** Two more slots are claimed. */
  lemma ClaimTwo(steps: seq<Step>, boot: string, s: System, generation: nat, k: nat, older: seq<Task>)
    returns (more: seq<Step>, next: System, a: ProviderSlot, b: ProviderSlot)
    requires k + 2 <= |STATIC_PROVIDER_SLOTS| && Reaches(steps, boot, s) && Idle(s, generation, First(k), older)
    ensures NextTwo(k, a, b) && a != b && First(k + 2) == First(k) + {a, b}
    ensures Reaches(more, boot, next) && TwoStarted(next, generation, First(k), a, b, older)
  {
    a, b := STATIC_PROVIDER_SLOTS[k], STATIC_PROVIDER_SLOTS[k + 1];
    FirstGrows(k, a, b);
    NextTwoClaimed(s.core.slots, k, a, b);
    more, next := GoOn(steps, Claim(0, 0), boot, s);
    StartTwo(s, boot, generation, First(k), a, b, older, next);
  }

  lemma {:induction false} FailRounds(steps: seq<Step>, boot: string, s: System, generation: nat, rounds: nat, older: seq<Task>)
    returns (more: seq<Step>, next: System)
    requires Reaches(steps, boot, s) && Idle(s, generation, {}, older) && 2 * rounds <= |STATIC_PROVIDER_SLOTS|
    ensures Reaches(more, boot, next) && Idle(next, generation, First(2 * rounds), older)
  {
    if rounds == 0 {
      more, next := steps, s;
      assert First(0) == {};
    } else {
      var a, b;
      more, next := FailRounds(steps, boot, s, generation, rounds - 1, older);
      more, next, a, b := ClaimTwo(more, boot, next, generation, 2 * (rounds - 1), older);
      more, next := FailBoth(more, boot, next, generation, First(2 * (rounds - 1)), a, b, older);
    }
  }

  /** Two more slots are claimed, and both flips come before their tasks reach their guards. */
  lemma LeaveTwo(steps: seq<Step>, boot: string, s: System, generation: nat, k: nat, older: seq<Task>)
    returns (more: seq<Step>, next: System, a: ProviderSlot, b: ProviderSlot)
    requires k + 2 <= |STATIC_PROVIDER_SLOTS| && Reaches(steps, boot, s) && Idle(s, generation, First(k), older)
    ensures Reaches(more, boot, next) && NextTwo(k, a, b)
    ensures Idle(next, generation + 2, {}, older + Pair(a, b, generation))
  {
    more, next, a, b := ClaimTwo(steps, boot, s, generation, k, older);
    more, next := GoOn(more, Publish(Mock, true), boot, next);
    more, next := GoOn(more, Publish(Docker, true), boot, next);
  }

  /** The first tasks are those of the first slots, none of them at its guard yet from `n` on. */
  predicate WaitingTasks(tasks: seq<Task>, n: nat) {
    && |tasks| <= |STATIC_PROVIDER_SLOTS|
    && forall i :: 0 <= i < |tasks| ==> tasks[i].slot == STATIC_PROVIDER_SLOTS[i] && (n <= i ==> tasks[i].phase.Spawned?)
  }

  lemma TwoMoreWait(older: seq<Task>, k: nat, a: ProviderSlot, b: ProviderSlot, generation: nat)
    requires WaitingTasks(older, 0) && |older| == k && NextTwo(k, a, b)
    ensures WaitingTasks(older + Pair(a, b, generation), 0)
  {
  }

  /** After `m` generations the tasks of the first `2 * m` slots wait, each pair in its own generation. */
  lemma {:induction false} LeaveRounds(boot: string, m: nat) returns (steps: seq<Step>, s: System, older: seq<Task>)
    requires 2 * m <= |STATIC_PROVIDER_SLOTS|
    ensures Reaches(steps, boot, s) && Idle(s, 2 * m + 1, {}, older)
    ensures |older| == 2 * m && WaitingTasks(older, 0)
  {
    if m == 0 {
      steps := WorkerBounds.DockerPublished(boot);
      s, older := After(steps, boot).value, [];
    } else {
      var a, b;
      steps, s, older := LeaveRounds(boot, m - 1);
      steps, s := FailRounds(steps, boot, s, 2 * m - 1, m - 1, older);
      steps, s, a, b := LeaveTwo(steps, boot, s, 2 * m - 1, 2 * (m - 1), older);
      TwoMoreWait(older, 2 * (m - 1), a, b, 2 * m - 1);
      older := s.tasks;
    }
  }

  /** The first `n` tasks hold their guards. */
  predicate Taken(s: System, n: nat) {
    && WaitingTasks(s.tasks, n) && n <= |s.tasks| == |STATIC_PROVIDER_SLOTS| && |s.live| == n
    && s.guards == First(n)
  }

  lemma TakeOne(s: System, boot: string, n: nat, next: System)
    requires Taken(s, n) && n < |s.tasks| && next == Next(s, TakeGuard(n), boot)
    ensures Taken(next, n + 1)
  {
    var order := STATIC_PROVIDER_SLOTS;
    StaticSlotsAreAll(Tmux);
    assert order[n] !in order[..n];
    assert order[..n + 1] == order[..n] + [order[n]];
  }

  lemma {:induction false} TakeAll(steps: seq<Step>, boot: string, s: System, n: nat)
    returns (more: seq<Step>, next: System)
    requires Reaches(steps, boot, s) && Taken(s, 0) && n <= |s.tasks|
    ensures Reaches(more, boot, next) && Taken(next, n)
  {
    if n == 0 {
      more, next := steps, s;
    } else {
      var before;
      more, before := TakeAll(steps, boot, s, n - 1);
      more, next := GoOn(more, TakeGuard(n - 1), boot, before);
      TakeOne(before, boot, n - 1, next);
    }
  }

  /** The bound is reached: with three flips to mock and back, every slot has a live worker at once. */
  lemma AllSlotsLive(boot: string) returns (steps: seq<Step>)
    ensures After(steps, boot).Some?
    ensures |After(steps, boot).value.live| == |STATIC_PROVIDER_SLOTS|
  {
    var s, older;
    steps, s, older := LeaveRounds(boot, 4);
    assert First(0) == {};
    steps, s := TakeAll(steps, boot, s, |STATIC_PROVIDER_SLOTS|);
  }

  // ---------------------------------------------------------------- a flip forgets the last completion

  lemma AttemptsGoOn(steps: seq<Step>, step: Step, boot: string, s: System, attempts: seq<Attempt>)
    returns (more: seq<Step>, next: System, after: seq<Attempt>)
    requires ClaimSpacing.Reaches(steps, boot, s, attempts) && Enabled(s, step)
    ensures next == Next(s, step, boot) && after == StepAttempts(s, step, NetworkInfrastructure, attempts)
    ensures ClaimSpacing.Reaches(more, boot, next, after)
  {
    next, after := Next(s, step, boot), StepAttempts(s, step, NetworkInfrastructure, attempts);
    more := steps + [step];
    OneMoreStep(steps, step, boot, s, attempts, next, after);
  }

  lemma ClaimNetwork(steps: seq<Step>, boot: string, s: System, attempts: seq<Attempt>)
    returns (more: seq<Step>, next: System, after: seq<Attempt>)
    requires ClaimSpacing.Reaches(steps, boot, s, attempts)
    requires s.core.mode == Docker && s.core.slots == SlotsOf(RESET_SLOT) && s.guards == {} && s.now == 0 && s.clock == 0
    ensures ClaimSpacing.Reaches(more, boot, next, after) && after == attempts + [Attempt(0, None, s.core.generation)]
    ensures next.core.mode == Docker && next.core.generation == s.core.generation
    ensures next.core.slots[NetworkInfrastructure] == ClaimSlot(RESET_SLOT, Some(0))
    ensures |next.tasks| > |s.tasks| && next.tasks[|s.tasks|] == NewTask(NetworkInfrastructure, s.core.generation)
    ensures next.live == s.live && next.guards == {} && next.now == 0 && next.clock == 0
  {
    assert |s.guards| == 0;
    WorkerBounds.FirstClaims();
    more, next, after := AttemptsGoOn(steps, Claim(0, 0), boot, s, attempts);
  }

  lemma TakeNetwork(steps: seq<Step>, boot: string, s: System, attempts: seq<Attempt>, generation: nat)
    returns (more: seq<Step>, next: System)
    requires ClaimSpacing.Reaches(steps, boot, s, attempts)
    requires s.core.mode == Docker && s.core.generation == generation && s.live == [] && s.guards == {}
    requires s.tasks != [] && s.tasks[0] == NewTask(NetworkInfrastructure, generation) && s.now == 0 && s.clock == 0
    ensures ClaimSpacing.Reaches(more, boot, next, attempts) && next.core == s.core
    ensures next.live == [Worker(NetworkInfrastructure, generation)] && next.guards == {NetworkInfrastructure}
    ensures next.tasks != [] && next.tasks[0] == Task(NetworkInfrastructure, Docker, generation, Working)
    ensures next.now == 0 && next.clock == 0
  {
    var after;
    more, next, after := AttemptsGoOn(steps, TakeGuard(0), boot, s, attempts);
  }

  lemma CompleteNetwork(steps: seq<Step>, boot: string, s: System, generation: nat)
    returns (more: seq<Step>, next: System)
    requires ClaimSpacing.Reaches(steps, boot, s, [Attempt(0, None, generation)])
    requires s.core.mode == Docker && s.core.generation == generation
    requires s.live == [Worker(NetworkInfrastructure, generation)] && s.guards == {NetworkInfrastructure}
    requires s.tasks != [] && s.tasks[0] == Task(NetworkInfrastructure, Docker, generation, Working)
    requires s.now == 0 && s.clock == 0
    ensures ClaimSpacing.Reaches(more, boot, next, [Attempt(0, Some(0), generation)])
    ensures next.core.mode == Docker && next.core.generation == generation
    ensures next.guards == {} && next.now == 0 && next.clock == 0
  {
    var after;
    more, next, after := AttemptsGoOn(steps, Deliver(0, Failed, true, 0, 0), boot, s, [Attempt(0, None, generation)]);
    more, next, after := AttemptsGoOn(more, Release(0), boot, next, after);
  }

  lemma FlipTwice(steps: seq<Step>, boot: string, s: System, attempts: seq<Attempt>)
    returns (more: seq<Step>, next: System)
    requires ClaimSpacing.Reaches(steps, boot, s, attempts) && s.core.mode == Docker
    ensures ClaimSpacing.Reaches(more, boot, next, attempts)
    ensures next == s.(core := Core(Docker, s.core.generation + 2, SlotsOf(RESET_SLOT)))
  {
    var after;
    more, next, after := AttemptsGoOn(steps, Publish(Mock, true), boot, s, attempts);
    more, next, after := AttemptsGoOn(more, Publish(Docker, true), boot, next, after);
  }

  lemma Published(boot: string) returns (steps: seq<Step>, s: System)
    ensures ClaimSpacing.Reaches(steps, boot, s, []) && s == INITIAL.(core := Core(Docker, 1, SlotsOf(RESET_SLOT)))
  {
    var after;
    steps, s, after := AttemptsGoOn([], Publish(Docker, true), boot, INITIAL, []);
  }

  /** A slot that completed just now is claimed again at the same moment, in the next Docker generation. */
  lemma FlipClaimsAtOnce(boot: string) returns (steps: seq<Step>)
    ensures After(steps, boot).Some?
    ensures Attempts(steps, boot, NetworkInfrastructure) == [Attempt(0, Some(0), 1), Attempt(0, None, 3)]
  {
    var s, attempts;
    steps, s := Published(boot);
    steps, s, attempts := ClaimNetwork(steps, boot, s, []);
    steps, s := TakeNetwork(steps, boot, s, attempts, 1);
    steps, s := CompleteNetwork(steps, boot, s, 1);
    steps, s := FlipTwice(steps, boot, s, [Attempt(0, Some(0), 1)]);
    steps, s, attempts := ClaimNetwork(steps, boot, s, [Attempt(0, Some(0), 1)]);
  }
}
