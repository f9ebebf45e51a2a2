/**
 Whole runs of the observed-change history: what every served response satisfies, and what replaying the
 complete log of an epoch gives.
 */
module HistoryRuns {
  import opened Prelude
  import opened RuntimeModel
  import opened Identity
  import opened HistoryWire
  import opened History
  import Decimal

  /** One cache publication as the history sees it; the tokens are the ones the daemon would draw. */
  datatype Publication = Publication(
    mode: RuntimeMode, inventory: Inventory, at: nat, resetToken: BootToken, epochToken: BootToken)

  datatype Served = Served(mode: RuntimeMode, history: HistoryState)

  function Started(token: BootToken): Served {
    Served(Mock, NewHistory(token))
  }

  /** A source flip drops the history; only a Docker publication is observed. */
  function Publish(s: Served, p: Publication): Served {
    var kept := if p.mode == s.mode then s.history else NewHistory(p.resetToken);
    Served(p.mode, if p.mode == Docker then Observe(kept, p.inventory, p.at, p.epochToken) else kept)
  }

  function Run(start: Served, publications: seq<Publication>): Served {
    if publications == [] then start
    else Publish(Run(start, publications[..|publications| - 1]), publications[|publications| - 1])
  }

  ghost predicate Observed(publications: seq<Publication>) {
    forall i :: 0 <= i < |publications| ==> WellFormed(publications[i].inventory)
  }

  // ---------------------------------------------------------------- every served response is admissible

  /** The events are the last ones of one numbered epoch, in time order. */
  predicate NumberedAt(h: HistoryState, i: nat)
    requires i < |h.events| <= h.nextSequence
  {
    var event := h.events[i];
    && event.id == EventId(h.boot, h.nextSequence - |h.events| + 1 + i)
    && ContainerId(event.change.containerId) && CoherentTransition(event.change)
    && h.lastObservedAtMs.Some? && event.observedAtMs <= h.lastObservedAtMs.value <= MAX_SAFE_INTEGER
    && (i > 0 ==> h.events[i - 1].observedAtMs <= event.observedAtMs)
  }

  predicate HistoryCoherent(h: HistoryState) {
    && |h.events| <= Min(MAX_OBSERVED_CHANGE_EVENTS, h.nextSequence)
    && (h.baseline.None? ==> h.events == [] && h.nextSequence == 0)
    && (h.baseline.Some? ==> WellFormed(h.baseline.value))
    && forall i :: 0 <= i < |h.events| ==> NumberedAt(h, i)
  }

  predicate ServedCoherent(s: Served) {
    HistoryCoherent(s.history) && (s.mode.Docker? <==> s.history.baseline.Some?)
  }

  lemma PushKeepsCoherence(h: HistoryState, change: Change, at: nat)
    requires HistoryCoherent(h) && h.baseline.Some?
    requires h.lastObservedAtMs == Some(at) && at <= MAX_SAFE_INTEGER
    requires ContainerId(change.containerId) && CoherentTransition(change)
    ensures HistoryCoherent(Push(h, change, at))
  {
    var after := Push(h, change, at);
    forall i | 0 <= i < |after.events| ensures NumberedAt(after, i) {
      PushNumbers(h, change, at, after, i);
    }
  }

  lemma PushNumbers(h: HistoryState, change: Change, at: nat, after: HistoryState, i: nat)
    requires HistoryCoherent(h) && h.lastObservedAtMs == Some(at) && at <= MAX_SAFE_INTEGER
    requires ContainerId(change.containerId) && CoherentTransition(change)
    requires after == Push(h, change, at) && i < |after.events|
    ensures NumberedAt(after, i)
  {
    var dropped := |h.events| + 1 - |after.events|;
    assert i + dropped < |h.events| ==> NumberedAt(h, i + dropped);
    assert i > 0 ==> NumberedAt(h, i - 1 + dropped);
  }

  lemma {:induction false} PushAllKeepsCoherence(h: HistoryState, changes: seq<Change>, at: nat)
    requires HistoryCoherent(h) && h.baseline.Some?
    requires h.lastObservedAtMs == Some(at) && at <= MAX_SAFE_INTEGER
    requires forall c :: c in changes ==> ContainerId(c.containerId) && CoherentTransition(c)
    ensures var after := PushAll(h, changes, at);
            && HistoryCoherent(after) && after.baseline == h.baseline
            && after.lastObservedAtMs == h.lastObservedAtMs
  {
    if changes != [] {
      var n := |changes| - 1;
      assert changes == changes[..n] + [changes[n]];
      assert changes[n] in changes;
      PushAllKeepsCoherence(h, changes[..n], at);
      PushKeepsCoherence(PushAll(h, changes[..n], at), changes[n], at);
    }
  }

  lemma ObserveKeepsCoherence(h: HistoryState, current: Inventory, at: nat, token: BootToken)
    requires HistoryCoherent(h) && WellFormed(current)
    ensures HistoryCoherent(Observe(h, current, at, token))
    ensures Observe(h, current, at, token).baseline == Some(current)
  {
    if !Rebaselines(h, at) {
      var seen := h.(lastObservedAtMs := Some(at), baseline := Some(current));
      assert HistoryCoherent(seen) by {
        forall i | 0 <= i < |seen.events| ensures NumberedAt(seen, i) {
          assert NumberedAt(h, i);
        }
      }
      if h.baseline.Some? {
        forall c | c in Changes(h.baseline.value, current) ensures ContainerId(c.containerId) && CoherentTransition(c) {
          ChangesAreTrue(h.baseline.value, current, c);
        }
        PushAllKeepsCoherence(seen, Changes(h.baseline.value, current), at);
      }
    }
  }

  /** Through clock regressions and source flips: Docker mode has a baseline, mock mode has none, both are coherent. */
  lemma {:induction false} RunIsCoherent(token: BootToken, publications: seq<Publication>)
    requires Observed(publications)
    ensures ServedCoherent(Run(Started(token), publications))
  {
    if publications != [] {
      var n := |publications| - 1;
      RunIsCoherent(token, publications[..n]);
      var s, p := Run(Started(token), publications[..n]), publications[n];
      var kept := if p.mode == s.mode then s.history else NewHistory(p.resetToken);
      if p.mode.Docker? {
        ObserveKeepsCoherence(kept, p.inventory, p.at, p.epochToken);
      }
    }
  }

  lemma EventIdIsValid(token: BootToken, sequence: nat)
    requires 1 <= sequence <= U64_MAX
    ensures var id := EventId(token, sequence);
            ApiEventId(id) && Epoch(id) == token && Sequence(id) == sequence
  {
    var digits := Decimal.Print(sequence);
    var id := EventId(token, sequence);
    Decimal.ValueOfPrint(sequence);
    Decimal.PrintHasNoLeadingZero(sequence);
    SequenceLength(digits);
    assert id[..32] == token && id[33..] == digits && id[33] == digits[0];
    assert Decimal.IsDigit(digits[0]);
  }

  lemma {:induction false} TimesAreOrdered(h: HistoryState, i: nat, j: nat)
    requires HistoryCoherent(h) && i <= j < |h.events|
    ensures h.events[i].observedAtMs <= h.events[j].observedAtMs
  {
    if i < j {
      TimesAreOrdered(h, i, j - 1);
      assert NumberedAt(h, j);
    }
  }

  lemma ResponseIsNewestFirst(h: HistoryState)
    requires HistoryCoherent(h) && h.nextSequence <= U64_MAX
    ensures NewestFirst(Reverse(h.events))
    ensures forall i :: 0 <= i < |h.events| ==> Reverse(h.events)[i].observedAtMs <= MAX_SAFE_INTEGER
  {
    var events, n := Reverse(h.events), |h.events|;
    forall i | 0 <= i < n
      ensures CoherentEvent(events[i]) && events[i].observedAtMs <= MAX_SAFE_INTEGER
      ensures Epoch(events[i].id) == h.boot && Sequence(events[i].id) == h.nextSequence - i
    {
      assert NumberedAt(h, n - 1 - i);
      EventIdIsValid(h.boot, h.nextSequence - i);
    }
    forall i, j | 0 <= i < j < n ensures Follows(events[i], events[j]) {
      TimesAreOrdered(h, n - 1 - j, n - 1 - i);
    }
  }

  /**
   Every response served after any publications passes the daemon's own conversion and the API's schema and
   checker, as long as the event counter has not overflowed.
   */
  lemma EveryServedHistoryIsAdmitted(token: BootToken, publications: seq<Publication>, modelRevision: string,
                                     observedRevision: string)
    requires Observed(publications)
    requires 1 <= |modelRevision| <= 64 && 1 <= |observedRevision| <= 64
    requires Run(Started(token), publications).history.nextSequence <= U64_MAX
    ensures var s := Run(Started(token), publications);
            var r := Response(s.history, s.mode, modelRevision, observedRevision);
            && DaemonAdmits(r) && SchemaAccepts(r) && ApiAdmits(r)
            && r.baselineEstablished == s.mode.Docker?
  {
    RunIsCoherent(token, publications);
    var s := Run(Started(token), publications);
    var r := Response(s.history, s.mode, modelRevision, observedRevision);
    if s.mode.Docker? {
      ResponseIsNewestFirst(s.history);
    }
    AdmissionsAgree(r);
  }

  // ---------------------------------------------------------------- replaying an epoch

  /** A Docker publication that becomes a first baseline: after mock, at the start, or on an unusable clock. */
  predicate Begins(s: Served, p: Publication) {
    p.mode.Docker? && (s.mode.Mock? || s.history.baseline.None? || Rebaselines(s.history, p.at))
  }

  function StampAll(token: BootToken, after: nat, changes: seq<Change>, at: nat): (events: seq<ChangeEvent>)
    ensures |events| == |changes|
  {
    if changes == [] then []
    else
      StampAll(token, after, changes[..|changes| - 1], at)
      + [ChangeEvent(EventId(token, after + |changes|), at, changes[|changes| - 1])]
  }

  /** The complete log of the running epoch, nothing dropped. */
  function EpochLog(start: Served, publications: seq<Publication>): seq<ChangeEvent> {
    if publications == [] then []
    else
      var n := |publications| - 1;
      var s, p := Run(start, publications[..n]), publications[n];
      if p.mode.Mock? || Begins(s, p) then []
      else
        EpochLog(start, publications[..n])
        + StampAll(s.history.boot, s.history.nextSequence, Changes(s.history.baseline.value, p.inventory), p.at)
  }

  function FirstBaseline(start: Served, publications: seq<Publication>): Option<Inventory> {
    if publications == [] then None
    else
      var n := |publications| - 1;
      var s, p := Run(start, publications[..n]), publications[n];
      if p.mode.Mock? then None
      else if Begins(s, p) then Some(p.inventory)
      else FirstBaseline(start, publications[..n])
  }

  /** Every identity that was ambiguous in some inventory of the running epoch. */
  function EverAmbiguous(start: Served, publications: seq<Publication>): set<string> {
    if publications == [] then {}
    else
      var n := |publications| - 1;
      var s, p := Run(start, publications[..n]), publications[n];
      (if Begins(s, p) then {} else EverAmbiguous(start, publications[..n])) + p.inventory.ambiguous
  }

  function ReplayEvents(m: map<string, ContainerStatus>, events: seq<ChangeEvent>): map<string, ContainerStatus> {
    if events == [] then m else Apply(ReplayEvents(m, events[..|events| - 1]), events[|events| - 1].change)
  }

  lemma {:induction false} ReplayStamped(m: map<string, ContainerStatus>, log: seq<ChangeEvent>, token: BootToken,
                                         after: nat, changes: seq<Change>, at: nat)
    ensures ReplayEvents(m, log + StampAll(token, after, changes, at)) == Replay(ReplayEvents(m, log), changes)
    decreases |changes|
  {
    if changes == [] {
      assert log + [] == log;
    } else {
      var n := |changes| - 1;
      ReplayStamped(m, log, token, after, changes[..n], at);
      ReplayOneMore(m, log, StampAll(token, after, changes[..n], at), StampAll(token, after, changes, at));
    }
  }

  lemma ReplayOneMore(m: map<string, ContainerStatus>, log: seq<ChangeEvent>, front: seq<ChangeEvent>, all: seq<ChangeEvent>)
    requires all != [] && front == all[..|all| - 1]
    ensures ReplayEvents(m, log + all) == Apply(ReplayEvents(m, log + front), all[|all| - 1].change)
  {
    assert (log + all)[..|log + all| - 1] == log + front;
  }

  /** Pushing one change after the other retains the last events of the complete log. */
  lemma {:induction false} PushAllRetains(h: HistoryState, log: seq<ChangeEvent>, changes: seq<Change>, at: nat)
    requires h.events == LastN(log, MAX_OBSERVED_CHANGE_EVENTS)
    ensures var after := PushAll(h, changes, at);
            && after.events == LastN(log + StampAll(h.boot, h.nextSequence, changes, at), MAX_OBSERVED_CHANGE_EVENTS)
            && after.nextSequence == h.nextSequence + |changes|
            && after.boot == h.boot && after.baseline == h.baseline
    decreases |changes|
  {
    if changes == [] {
      assert log + [] == log;
    } else {
      var n := |changes| - 1;
      PushAllRetains(h, log, changes[..n], at);
      var before := StampAll(h.boot, h.nextSequence, changes[..n], at);
      var event := ChangeEvent(EventId(h.boot, h.nextSequence + |changes|), at, changes[n]);
      LastNAppend(log + before, event, MAX_OBSERVED_CHANGE_EVENTS);
      assert log + (before + [event]) == (log + before) + [event];
    }
  }

  /**
   The retained events are the last ones of the epoch's complete log, numbered without gaps, and replaying that
   log over the epoch's first baseline gives the current inventory at every identity that was never ambiguous.
   */
  lemma {:induction false} EpochReplays(token: BootToken, publications: seq<Publication>)
    requires Observed(publications) && publications != []
    requires publications[|publications| - 1].mode.Docker?
    ensures var s := Run(Started(token), publications);
            var log := EpochLog(Started(token), publications);
            && s.history.baseline == Some(publications[|publications| - 1].inventory)
            && s.history.events == LastN(log, MAX_OBSERVED_CHANGE_EVENTS)
            && s.history.nextSequence == |log|
    ensures FirstBaseline(Started(token), publications).Some?
    ensures forall id :: id !in EverAmbiguous(Started(token), publications) ==> ReplaysAt(token, publications, id)
  {
    var n := |publications| - 1;
    var front := publications[..n];
    var s, p := Run(Started(token), front), publications[n];
    RunIsCoherent(token, front);
    if !Begins(s, p) {
      var previous := s.history.baseline.value;
      var changes := Changes(previous, p.inventory);
      assert n > 0 && front[n - 1].mode.Docker?;
      EpochReplays(token, front);
      var log := EpochLog(Started(token), front);
      PushAllRetains(s.history.(lastObservedAtMs := Some(p.at), baseline := Some(p.inventory)), log, changes, p.at);
      var base := FirstBaseline(Started(token), front).value.containers;
      ReplayStamped(base, log, s.history.boot, s.history.nextSequence, changes, p.at);
      forall id | id !in EverAmbiguous(Started(token), publications) ensures ReplaysAt(token, publications, id) {
        assert ReplaysAt(token, front, id);
        assert previous == publications[n - 1].inventory;
        AmbiguousIncluded(token, front);
        StepReplaysExactly(ReplayEvents(base, log), previous, p.inventory, id);
      }
    }
  }

  ghost predicate ReplaysAt(token: BootToken, publications: seq<Publication>, id: string)
    requires publications != []
  {
    var base := FirstBaseline(Started(token), publications);
    && base.Some?
    && Lookup(ReplayEvents(base.value.containers, EpochLog(Started(token), publications)), id)
       == Lookup(publications[|publications| - 1].inventory.containers, id)
  }

  lemma AmbiguousIncluded(token: BootToken, publications: seq<Publication>)
    requires publications != []
    ensures publications[|publications| - 1].inventory.ambiguous <= EverAmbiguous(Started(token), publications)
  {
  }

  /** Without ambiguous identities the whole inventory is recovered. */
  lemma UnambiguousEpochReplays(token: BootToken, publications: seq<Publication>)
    requires Observed(publications) && publications != []
    requires publications[|publications| - 1].mode.Docker?
    requires EverAmbiguous(Started(token), publications) == {}
    ensures FirstBaseline(Started(token), publications).Some?
    ensures ReplayEvents(FirstBaseline(Started(token), publications).value.containers,
                         EpochLog(Started(token), publications))
            == publications[|publications| - 1].inventory.containers
  {
    EpochReplays(token, publications);
    var replayed := ReplayEvents(FirstBaseline(Started(token), publications).value.containers,
                                 EpochLog(Started(token), publications));
    var current := publications[|publications| - 1].inventory.containers;
    forall id ensures Lookup(replayed, id) == Lookup(current, id) {
      assert ReplaysAt(token, publications, id);
    }
    SameLookups(replayed, current);
  }

  lemma SameLookups(a: map<string, ContainerStatus>, b: map<string, ContainerStatus>)
    requires forall id :: Lookup(a, id) == Lookup(b, id)
    ensures a == b
  {
    forall id ensures id in a <==> id in b {
      assert Lookup(a, id) == Lookup(b, id);
    }
    forall id | id in a ensures a[id] == b[id] {
      assert Lookup(a, id) == Lookup(b, id);
    }
  }

  // ---------------------------------------------------------------- when an epoch starts, in publication times

  /**
   The time a next Docker publication is held against: the last Docker publication's, unless that started over on an
   unusable clock or the source has changed since.
   */
  function LastTime(publications: seq<Publication>): Option<nat> {
    if publications == [] then None
    else
      var front, p := publications[..|publications| - 1], publications[|publications| - 1];
      if p.mode.Mock? then None
      else if p.at > 9_007_199_254_740_991 then None
      else match LastTime(front)
        case Some(before) => if p.at < before then None else Some(p.at)
        case None => Some(p.at)
  }

  /** The second of two Docker publications continues what the first left behind. */
  predicate Continues(publications: seq<Publication>, p: Publication) {
    && publications != [] && publications[|publications| - 1].mode.Docker? && p.mode.Docker?
    && p.at <= 9_007_199_254_740_991
    && (LastTime(publications).Some? ==> LastTime(publications).value <= p.at)
  }

  lemma {:induction false} PushAllTakesChanges(h: HistoryState, changes: seq<Change>, at: nat)
    ensures var after := PushAll(h, changes, at);
            && after.boot == h.boot && after.nextSequence == h.nextSequence + |changes| && after.baseline == h.baseline
            && after.lastObservedAtMs == h.lastObservedAtMs
  {
    if changes != [] {
      PushAllTakesChanges(h, changes[..|changes| - 1], at);
    }
  }

  /** One Docker publication: either it goes on, numbering its changes behind the others, or it starts over. */
  predicate GoesOn(h: HistoryState, inventory: Inventory, next: HistoryState)
    requires h.baseline.Some?
  {
    && next.boot == h.boot && next.nextSequence == h.nextSequence + |Changes(h.baseline.value, inventory)|
    && next.baseline == Some(inventory)
  }

  predicate StartsOver(boot: BootToken, inventory: Inventory, next: HistoryState) {
    next.boot == boot && next.nextSequence == 0 && next.events == [] && next.baseline == Some(inventory)
  }

  lemma ObserveGoesOn(h: HistoryState, inventory: Inventory, at: nat, boot: BootToken)
    ensures var usable := at <= MAX_SAFE_INTEGER && (h.lastObservedAtMs.Some? ==> h.lastObservedAtMs.value <= at);
            var next := Observe(h, inventory, at, boot);
            && next.lastObservedAtMs == (if usable then Some(at) else None)
            && (!usable ==> StartsOver(boot, inventory, next))
            && (usable && h.baseline.Some? ==> GoesOn(h, inventory, next))
            && (usable && h.baseline.None? ==> next == h.(lastObservedAtMs := Some(at), baseline := Some(inventory)))
  {
    if !Rebaselines(h, at) && h.baseline.Some? {
      PushAllTakesChanges(h.(lastObservedAtMs := Some(at), baseline := Some(inventory)),
                          Changes(h.baseline.value, inventory), at);
    }
  }

  lemma PublishObserves(s: Served, p: Publication, next: Served)
    requires next == Publish(s, p) && (s.mode.Mock? ==> s.history.lastObservedAtMs.None? && s.history.baseline.None?)
    requires s.mode.Docker? ==> s.history.baseline.Some?
    ensures next.mode == p.mode
    ensures p.mode.Mock? ==> next.history.lastObservedAtMs.None? && next.history.baseline.None?
    ensures p.mode.Docker? ==>
              var before := if s.mode.Docker? then s.history.lastObservedAtMs else None;
              var usable := p.at <= MAX_SAFE_INTEGER && (before.Some? ==> before.value <= p.at);
              && next.history.lastObservedAtMs == (if usable then Some(p.at) else None)
              && (if !usable then StartsOver(p.epochToken, p.inventory, next.history)
                  else if s.mode.Docker? then GoesOn(s.history, p.inventory, next.history)
                  else StartsOver(p.resetToken, p.inventory, next.history))
  {
    if p.mode.Docker? {
      ObserveGoesOn(if p.mode == s.mode then s.history else NewHistory(p.resetToken), p.inventory, p.at, p.epochToken);
    }
  }

  lemma {:induction false} TimesAreTracked(token: BootToken, publications: seq<Publication>, s: Served)
    requires s == Run(Started(token), publications)
    ensures s.history.lastObservedAtMs == LastTime(publications)
    ensures s.mode.Docker? <==> publications != [] && publications[|publications| - 1].mode.Docker?
    ensures s.mode.Docker? <==> s.history.baseline.Some?
  {
    if publications != [] {
      var front, p := publications[..|publications| - 1], publications[|publications| - 1];
      var before := Run(Started(token), front);
      TimesAreTracked(token, front, before);
      PublishObserves(before, p, s);
    }
  }

  /**
   A Docker publication keeps the epoch token and numbers its changes behind those before exactly when the one before
   it was Docker's too and its own time is a safe integer, not before the last one held; otherwise it starts over with
   no events. Only publication times and sources decide.
   */
  lemma EpochContinuesExactly(token: BootToken, publications: seq<Publication>, p: Publication, s: Served, next: Served)
    requires p.mode.Docker? && s == Run(Started(token), publications) && next == Run(Started(token), publications + [p])
    ensures if Continues(publications, p) then s.history.baseline.Some? && GoesOn(s.history, p.inventory, next.history)
            else next.history.nextSequence == 0 && next.history.events == []
                 && next.history.baseline == Some(p.inventory)
                 && (next.history.boot == p.epochToken || next.history.boot == p.resetToken)
  {
    assert (publications + [p])[..|publications|] == publications;
    TimesAreTracked(token, publications, s);
    PublishObserves(s, p, next);
  }

  /** All publications are Docker's, at safe times that never run backwards. */
  predicate Steady(publications: seq<Publication>) {
    && (forall i :: 0 <= i < |publications| ==> publications[i].mode.Docker? && publications[i].at <= 9_007_199_254_740_991)
    && (forall i, j :: 0 <= i < j < |publications| ==> publications[i].at <= publications[j].at)
  }

  /** How many changes there are from each publication to the next. */
  function ChangeCount(publications: seq<Publication>): nat {
    if |publications| < 2 then 0
    else
      var n := |publications| - 1;
      ChangeCount(publications[..n]) + |Changes(publications[n - 1].inventory, publications[n].inventory)|
  }

  /** As long as the clock is usable and never runs backwards, all Docker publications are one epoch, and it counts every change. */
  lemma {:induction false} SteadyClockIsOneEpoch(token: BootToken, publications: seq<Publication>, s: Served)
    requires publications != [] && Steady(publications) && s == Run(Started(token), publications)
    ensures s.history.boot == publications[0].resetToken && s.history.nextSequence == ChangeCount(publications)
    ensures s.history.baseline == Some(publications[|publications| - 1].inventory)
    ensures LastTime(publications) == Some(publications[|publications| - 1].at)
  {
    var n := |publications| - 1;
    var front, p := publications[..n], publications[n];
    var before := Run(Started(token), front);
    assert publications == front + [p];
    TimesAreTracked(token, front, before);
    if n > 0 {
      SteadyClockIsOneEpoch(token, front, before);
    }
    PublishObserves(before, p, s);
  }
}
