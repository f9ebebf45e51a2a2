/**
 The claim that follows an applied outcome, step by step: it starts slots under one lock and reads the source
 generation for their tasks under a later one, so publications may come in between.
 */
module LateGeneration {
  import opened Prelude
  import opened RuntimeModel
  import opened ProviderSlots
  import opened Scheduler
  import opened WorkerRuns
  import WorkerBounds

  /** Slots started by such a claim, their tasks not yet spawned, and the generation they were started in. */
  datatype Waiting = Waiting(claimed: seq<ProviderSlot>, generation: nat)

  /** `continuing` counts the applied outcomes whose claim is still to come. */
  datatype State = State(system: System, continuing: nat, waiting: seq<Waiting>)

  const START: State := State(INITIAL, 0, [])

  datatype LateStep =
    | Plain(step: Step)
    | ContinueClaim(now: nat, wall: nat)
    | ReadGeneration(claim: nat)

  predicate Possible(l: State, step: LateStep) {
    match step
    case Plain(inner) => Enabled(l.system, inner)
    case ContinueClaim(now, wall) => l.continuing > 0 && Enabled(l.system, Claim(now, wall))
    case ReadGeneration(k) => k < |l.waiting|
  }

  /** An outcome that was not dropped goes on to claim again. */
  predicate Applies(s: System, step: Step)
    requires Enabled(s, step)
  {
    step.Deliver? && s.core.mode == s.tasks[step.task].mode && s.core.generation == s.tasks[step.task].generation
  }

  function Move(l: State, step: LateStep, boot: string): State
    requires Possible(l, step)
  {
    var s := l.system;
    match step
    case Plain(inner) =>
      l.(system := Next(s, inner, boot), continuing := l.continuing + if Applies(s, inner) then 1 else 0)
    case ContinueClaim(now, wall) =>
      State(s.(core := ClaimCore(s.core, now, |s.guards|, Some(wall)), now := now, clock := wall), l.continuing - 1,
            l.waiting + [Waiting(Claimed(s.core.slots, now, |s.guards|), s.core.generation)])
    case ReadGeneration(k) =>
      l.(system := s.(tasks := s.tasks + Spawn(l.waiting[k].claimed, s.core.generation)), waiting := Drop(l.waiting, k))
  }

  function LateAfter(steps: seq<LateStep>, boot: string): Option<State> {
    if steps == [] then Some(START)
    else match LateAfter(steps[..|steps| - 1], boot)
      case None => None
      case Some(l) =>
        var step := steps[|steps| - 1];
        if Possible(l, step) then Some(Move(l, step, boot)) else None
  }

  // ---------------------------------------------------------------- reads in time

  /** A generation is read in time when it is still the one the slots were started in. */
  predicate InTime(l: State, step: LateStep)
    requires Possible(l, step)
  {
    step.ReadGeneration? ==> l.waiting[step.claim].generation == l.system.core.generation
  }

  ghost predicate Timely(steps: seq<LateStep>, boot: string) {
    forall n :: 0 <= n < |steps| ==> TimelyAt(steps[..n], steps[n], boot)
  }

  ghost predicate TimelyAt(before: seq<LateStep>, step: LateStep, boot: string) {
    LateAfter(before, boot).Some? && Possible(LateAfter(before, boot).value, step) ==>
      InTime(LateAfter(before, boot).value, step)
  }

  /** The tasks the waiting claims would have spawned at once. */
  function Pending(waiting: seq<Waiting>): seq<Task> {
    if waiting == [] then []
    else
      var w := waiting[|waiting| - 1];
      Pending(waiting[..|waiting| - 1]) + Spawn(w.claimed, w.generation)
  }

  lemma PendingOneMore(all: seq<Waiting>, front: seq<Waiting>, w: Waiting, tasks: seq<Task>, spawned: seq<Task>)
    requires all == front + [w] && tasks == Pending(front) && spawned == Spawn(w.claimed, w.generation)
    ensures Pending(all) == tasks + spawned
  {
    assert all[..|all| - 1] == front;
  }

  lemma {:induction false} PendingConcat(a: seq<Waiting>, b: seq<Waiting>, before: seq<Task>, behind: seq<Task>)
    requires before == Pending(a) && behind == Pending(b)
    ensures Pending(a + b) == before + behind
  {
    if b == [] {
      assert a + b == a;
    } else {
      var front, w := b[..|b| - 1], b[|b| - 1];
      var tasks, spawned := Pending(front), Spawn(w.claimed, w.generation);
      PendingConcat(a, front, before, tasks);
      PendingOneMore(a + b, a + front, w, before + tasks, spawned);
    }
  }

  /** The state in which every claim had spawned its tasks when it was made. */
  function Eager(l: State): System {
    Followed(l.system, Pending(l.waiting))
  }

  /** The system with these tasks behind its own. */
  function Followed(s: System, rest: seq<Task>): System {
    s.(tasks := s.tasks + rest)
  }

  ghost predicate Sound(s: System) {
    Coherent(s) && forall i :: 0 <= i < |s.tasks| ==> s.tasks[i].mode == Docker
  }

  /** The order of tasks does not matter: two neighbouring blocks may change places. */
  lemma BlocksCommute(s: System, a: seq<Task>, b: seq<Task>, c: seq<Task>, d: seq<Task>)
    requires s.tasks == a + b + c + d && Sound(s)
    ensures Sound(s.(tasks := a + c + b + d))
  {
    var t := s.(tasks := a + c + b + d);
    forall i | 0 <= i < |t.tasks| ensures t.tasks[i] == s.tasks[From(|a|, |b|, |c|, i)] && TaskOwned(t, i) {
      assert TaskOwned(s, From(|a|, |b|, |c|, i));
    }
    forall i, j | 0 <= i < j < |t.tasks| && t.tasks[i].slot == t.tasks[j].slot
      ensures t.tasks[i].generation != t.tasks[j].generation
    {
      var p, q := From(|a|, |b|, |c|, i), From(|a|, |b|, |c|, j);
      assert t.tasks[i] == s.tasks[p] && t.tasks[j] == s.tasks[q] && p != q;
    }
  }

  /** Where the element at `i` stood before the blocks of lengths `b` and `c` behind `a` elements changed places. */
  function From(a: nat, b: nat, c: nat, i: nat): nat {
    if i < a then i else if i < a + c then i + b else if i < a + c + b then i - c else i
  }

  lemma NextIsSound(s: System, step: Step, boot: string, next: System)
    requires Sound(s) && Enabled(s, step) && next == Next(s, step, boot)
    ensures Sound(next)
  {
    NextIsCoherent(s, step, boot);
  }

  /** Tasks that wait behind the others take no part in a step. */
  lemma RestStands(s: System, rest: seq<Task>, step: Step, boot: string)
    requires Enabled(s, step) && !step.Claim?
    ensures Enabled(Followed(s, rest), step)
    ensures Next(Followed(s, rest), step, boot) == Followed(Next(s, step, boot), rest)
  {
    var a, b := Next(Followed(s, rest), step, boot), Followed(Next(s, step, boot), rest);
    assert a.tasks == b.tasks;
  }

  lemma ClaimGoesLast(s: System, rest: seq<Task>, claim: Step, boot: string, spawned: seq<Task>)
    requires claim.Claim? && Enabled(s, claim)
    requires spawned == Spawn(Claimed(s.core.slots, claim.now, |s.guards|), s.core.generation)
    ensures Enabled(Followed(s, rest), claim)
    ensures Next(Followed(s, rest), claim, boot) == Next(s, claim, boot).(tasks := s.tasks + rest + spawned)
  {
  }

  lemma PlainKeepsSound(s: System, rest: seq<Task>, step: Step, boot: string, next: System)
    requires Sound(Followed(s, rest)) && Enabled(s, step) && next == Next(s, step, boot)
    ensures Sound(Followed(next, rest))
  {
    if step.Claim? {
      var spawned := Spawn(Claimed(s.core.slots, step.now, |s.guards|), s.core.generation);
      var eager := next.(tasks := s.tasks + rest + spawned);
      ClaimGoesLast(s, rest, step, boot, spawned);
      NextIsSound(Followed(s, rest), step, boot, eager);
      assert s.tasks + rest + spawned + [] == s.tasks + rest + spawned;
      BlocksCommute(eager, s.tasks, rest, spawned, []);
      assert s.tasks + spawned + rest + [] == next.tasks + rest;
    } else {
      RestStands(s, rest, step, boot);
      NextIsSound(Followed(s, rest), step, boot, Followed(next, rest));
    }
  }

  lemma ContinueKeepsSound(l: State, claim: Step, boot: string, eager: System, next: State)
    requires eager == Eager(l) && Sound(eager) && claim.Claim? && Possible(l, ContinueClaim(claim.now, claim.wall))
    requires next == Move(l, ContinueClaim(claim.now, claim.wall), boot)
    ensures Sound(Eager(next))
  {
    var rest := Pending(l.waiting);
    var spawned := Spawn(Claimed(l.system.core.slots, claim.now, |l.system.guards|), l.system.core.generation);
    ClaimGoesLast(l.system, rest, claim, boot, spawned);
    NextIsSound(eager, claim, boot, Next(eager, claim, boot));
    PendingOneMore(next.waiting, l.waiting, next.waiting[|l.waiting|], rest, spawned);
    SameTasks(l.system.tasks, rest, spawned);
    assert Eager(next) == Next(eager, claim, boot);
  }

  lemma SameTasks(a: seq<Task>, b: seq<Task>, c: seq<Task>)
    ensures a + (b + c) == a + b + c
  {
  }

  /** One claim of the waiting ones, and the others. */
  lemma PendingSplits(waiting: seq<Waiting>, k: nat, before: seq<Task>, spawned: seq<Task>, behind: seq<Task>)
    requires k < |waiting| && spawned == Spawn(waiting[k].claimed, waiting[k].generation)
    requires before == Pending(waiting[..k]) && behind == Pending(waiting[k + 1..])
    ensures Pending(waiting) == before + spawned + behind
    ensures Pending(Drop(waiting, k)) == before + behind
  {
    var a, b := waiting[..k] + [waiting[k]], waiting[k + 1..];
    PendingOneMore(a, waiting[..k], waiting[k], before, spawned);
    PendingConcat(a, b, before + spawned, behind);
    assert waiting == a + b;
    PendingConcat(waiting[..k], b, before, behind);
  }

  lemma ReadKeepsSound(l: State, k: nat, boot: string, eager: System, next: State)
    requires eager == Eager(l) && Sound(eager) && Possible(l, ReadGeneration(k)) && InTime(l, ReadGeneration(k))
    requires next == Move(l, ReadGeneration(k), boot)
    ensures Sound(Eager(next))
  {
    var before, behind := Pending(l.waiting[..k]), Pending(l.waiting[k + 1..]);
    var own, spawned := l.system.tasks, Spawn(l.waiting[k].claimed, l.waiting[k].generation);
    PendingSplits(l.waiting, k, before, spawned, behind);
    FourTogether(own, before, spawned, behind);
    BlocksCommute(eager, own, before, spawned, behind);
    FourTogether(own, spawned, before, behind);
    assert Eager(next) == eager.(tasks := own + spawned + before + behind);
  }

  lemma FourTogether(a: seq<Task>, b: seq<Task>, c: seq<Task>, d: seq<Task>)
    ensures a + (b + c + d) == a + b + c + d && a + b + (c + d) == a + b + c + d
  {
  }

  lemma MoveKeepsSound(l: State, step: LateStep, boot: string, next: State)
    requires Sound(Eager(l)) && Possible(l, step) && InTime(l, step) && next == Move(l, step, boot)
    ensures Sound(Eager(next))
  {
    match step
    case Plain(inner) => PlainKeepsSound(l.system, Pending(l.waiting), inner, boot, next.system);
    case ContinueClaim(now, wall) => ContinueKeepsSound(l, Claim(now, wall), boot, Eager(l), next);
    case ReadGeneration(k) => ReadKeepsSound(l, k, boot, Eager(l), next);
  }

  lemma {:induction false} EveryTimelyRunIsSound(steps: seq<LateStep>, boot: string)
    requires Timely(steps, boot)
    ensures LateAfter(steps, boot).Some? ==> Sound(Eager(LateAfter(steps, boot).value))
  {
    if steps == [] {
      EveryRunIsCoherent([], boot);
      assert Eager(START) == INITIAL;
    } else if LateAfter(steps, boot).Some? {
      var n := |steps| - 1;
      assert forall k :: 0 <= k < n ==> steps[..n][..k] == steps[..k] && steps[..n][k] == steps[k];
      EveryTimelyRunIsSound(steps[..n], boot);
      assert TimelyAt(steps[..n], steps[n], boot);
      MoveKeepsSound(LateAfter(steps[..n], boot).value, steps[n], boot, LateAfter(steps, boot).value);
    }
  }

  /** As long as no source flip comes between a claim and its read, the browser accepts every published vector. */
  lemma TimelyReadsAreAccepted(steps: seq<LateStep>, boot: string, l: State)
    requires Timely(steps, boot) && LateAfter(steps, boot) == Some(l)
    ensures VectorAccepted(ProviderStatesFor(l.system.core.slots))
  {
    EveryTimelyRunIsSound(steps, boot);
    CoherentVectorAccepted(l.system.core, l.system.clock);
  }

  // ---------------------------------------------------------------- a read that comes too late

  predicate Reaches(steps: seq<LateStep>, boot: string, l: State) {
    LateAfter(steps, boot) == Some(l)
  }

  lemma LateFurther(steps: seq<LateStep>, step: LateStep, boot: string, l: State) returns (more: seq<LateStep>, next: State)
    requires Reaches(steps, boot, l) && Possible(l, step)
    ensures more == steps + [step] && next == Move(l, step, boot) && Reaches(more, boot, next)
  {
    more, next := steps + [step], Move(l, step, boot);
    assert more[..|more| - 1] == steps;
  }

  /** Every run of whole claims is such a run. */
  lemma {:induction false} PlainRun(steps: seq<Step>, boot: string) returns (late: seq<LateStep>, l: State)
    requires After(steps, boot).Some?
    ensures Reaches(late, boot, l) && l.system == After(steps, boot).value && l.waiting == []
  {
    if steps == [] {
      late, l := [], START;
    } else {
      late, l := PlainRun(steps[..|steps| - 1], boot);
      late, l := LateFurther(late, Plain(steps[|steps| - 1]), boot, l);
    }
  }

  const TMUX_COLLECTION := ProviderCollection([CollectedState(Tmux, ProviderStateKind.Fresh)], [], [], [])

  /** The network worker's timeout was applied; the host worker has not started. */
  predicate TimeoutApplied(l: State) {
    var s := l.system;
    && l.continuing > 0 && l.waiting == [] && s.core.mode == Docker && s.core.generation == 1
    && s.tasks == [Task(HostScoped, Docker, 1, Spawned)] && s.guards == {NetworkInfrastructure}
    && s.now == 0 && s.clock == 0 && CollectingSlots(s.core.slots) == {HostScoped}
    && s.core.slots[NetworkInfrastructure].completedAt == Some(0) && s.core.slots[Tmux] == RESET_SLOT
  }

  /** The network worker holds its guard. */
  predicate NetworkWorking(l: State) {
    var s := l.system;
    && l.waiting == []
    && s.core == Core(Docker, 1, StartSlots(SlotsOf(RESET_SLOT), [NetworkInfrastructure, HostScoped], Some(0)))
    && s.tasks == [Task(NetworkInfrastructure, Docker, 1, Working), Task(HostScoped, Docker, 1, Spawned)]
    && s.guards == {NetworkInfrastructure} && s.now == 0 && s.clock == 0
  }

  lemma ReachWorking(boot: string) returns (steps: seq<LateStep>, l: State)
    ensures Reaches(steps, boot, l) && NetworkWorking(l)
  {
    var plain := WorkerBounds.TwoClaimed(boot);
    steps, l := PlainRun(plain, boot);
    steps, l := LateFurther(steps, Plain(TakeGuard(0)), boot, l);
  }

  lemma TimesOut(l: State, boot: string, next: State)
    requires NetworkWorking(l) && next == Move(l, Plain(Deliver(0, AttemptTimedOut, true, 0, 0)), boot)
    ensures TimeoutApplied(next)
  {
    assert next.system.tasks == [Task(HostScoped, Docker, 1, Spawned)];
    assert HostScoped in CollectingSlots(next.system.core.slots);
  }

  lemma ReachTimeout(boot: string) returns (steps: seq<LateStep>, l: State)
    ensures Reaches(steps, boot, l) && TimeoutApplied(l)
  {
    var working;
    steps, working := ReachWorking(boot);
    steps, l := LateFurther(steps, Plain(Deliver(0, AttemptTimedOut, true, 0, 0)), boot, working);
    TimesOut(working, boot, l);
  }

  /** Tmux was started in the first Docker generation and waits for its task in the second. */
  predicate Overtaken(l: State) {
    var s := l.system;
    && l.waiting == [Waiting([Tmux], 1)] && s.core == Core(Docker, 3, SlotsOf(RESET_SLOT))
    && s.tasks == [Task(HostScoped, Docker, 1, Spawned)] && s.guards == {NetworkInfrastructure}
    && s.now == 0 && s.clock == 0
  }

  lemma ReachOvertaken(boot: string) returns (steps: seq<LateStep>, l: State)
    ensures Reaches(steps, boot, l) && Overtaken(l)
  {
    steps, l := ReachTimeout(boot);
    WorkerBounds.ThirdClaim(l.system.core.slots);
    steps, l := LateFurther(steps, ContinueClaim(0, 0), boot, l);
    steps, l := LateFurther(steps, Plain(Publish(Mock, true)), boot, l);
    steps, l := LateFurther(steps, Plain(Publish(Docker, true)), boot, l);
  }

  lemma NotAttempted(slots: Slots)
    requires slots[Tmux].freshness.lastAttemptMs.None? && slots[Tmux].observation.Fresh?
    requires slots[Tmux].observation.collection == TMUX_COLLECTION
    ensures !VectorAccepted(ProviderStatesFor(slots))
  {
    var states := ProviderStatesFor(slots);
    assert STATIC_PROVIDER_SLOTS[2] == Tmux;
    assert states[2] == ProjectSlot(Tmux, slots[Tmux]);
    assert !FreshnessAccepted(states[2]);
  }

  /**
   Two flips between a claim and its read, and the collection is applied to a slot that the new generation never
   attempted: the browser refuses the published vector.
   */
  lemma LateReadIsRefused(boot: string) returns (steps: seq<LateStep>, l: State)
    ensures LateAfter(steps, boot) == Some(l)
    ensures !VectorAccepted(ProviderStatesFor(l.system.core.slots))
  {
    steps, l := ReachOvertaken(boot);
    steps, l := LateFurther(steps, ReadGeneration(0), boot, l);
    assert l.system.tasks == [Task(HostScoped, Docker, 1, Spawned)] + Spawn([Tmux], 3);
    steps, l := LateFurther(steps, Plain(TakeGuard(1)), boot, l);
    steps, l := LateFurther(steps, Plain(Deliver(1, Collected(TMUX_COLLECTION), true, 0, 0)), boot, l);
    NotAttempted(l.system.core.slots);
  }
}
