/**
 The observed-change history as it crosses the wire, and the two hand-written readers that decide whether a
 response is admissible: the daemon's own conversion and the API's checker behind the JSON schema.
 */
module HistoryWire {
  import opened Prelude
  import opened RuntimeModel
  import opened Identity
  import Decimal

  datatype ContainerStatus = Running | Stopped | OtherStatus

  datatype ChangeKind = ContainerAppeared | ContainerDisappeared | ContainerStatusChanged

  datatype Change = Change(
    kind: ChangeKind, containerId: string, previous: Option<ContainerStatus>, current: Option<ContainerStatus>)

  datatype ChangeEvent = ChangeEvent(id: string, observedAtMs: nat, change: Change)

  datatype HistoryResponse = HistoryResponse(
    source: RuntimeMode,
    baselineEstablished: bool,
    currentModelRevision: Option<string>,
    observedRevision: Option<string>,
    events: seq<ChangeEvent>)

  const MAX_OBSERVED_CHANGE_EVENTS: nat := 64
  const CONTAINER_PREFIX: string := "docker_container_"

  // ---------------------------------------------------------------- identifiers

  /** `is_observed_event_id`: split at the first dash, then read both halves. */
  predicate DaemonEventId(value: string) {
    match Decimal.SplitOnce(value, '-')
    case None => false
    case Some((boot, sequence)) =>
      && LowerHex(boot, 32)
      && sequence != "" && sequence[0] != '0' && Decimal.AllDigits(sequence)
      && Decimal.ParseUnsigned(sequence, U64_MAX).Some?
  }

  /** The expression `^([0-9a-f]{32})-([1-9][0-9]{0,19})$`. */
  predicate EventIdPattern(value: string) {
    && 34 <= |value| <= 53
    && LowerHex(value[..32], 32)
    && value[32] == '-'
    && '1' <= value[33] <= '9'
    && Decimal.AllDigits(value[33..])
  }

  /** The API's reading: the pattern, then the sequence as a big integer within 64 bits. */
  predicate ApiEventId(value: string) {
    EventIdPattern(value) && Decimal.Value(value[33..]) <= U64_MAX
  }

  lemma {:induction false} LeadingDigitBounds(s: string)
    requires s != "" && Decimal.AllDigits(s) && s[0] != '0'
    ensures Decimal.Value(s) >= Decimal.Pow10(|s| - 1)
  {
    if |s| == 1 {
      assert s[..0] == "";
    } else {
      var front := s[..|s| - 1];
      assert front[0] == s[0];
      LeadingDigitBounds(front);
    }
  }

  lemma {:induction false} Pow10Monotone(a: nat, b: nat)
    requires a <= b
    ensures Decimal.Pow10(a) <= Decimal.Pow10(b)
  {
    if a < b {
      Pow10Monotone(a, b - 1);
    }
  }

  lemma SequenceLength(s: string)
    requires s != "" && Decimal.AllDigits(s) && s[0] != '0' && Decimal.Value(s) <= U64_MAX
    ensures |s| <= 20
  {
    LeadingDigitBounds(s);
    TwentyOneDigits();
    if |s| > 20 {
      Pow10Monotone(20, |s| - 1);
    }
  }

  lemma TwentyOneDigits()
    ensures Decimal.Pow10(20) > U64_MAX
  {
    assert Decimal.Pow10(5) == 1_00000;
    assert Decimal.Pow10(10) == 1_00000_00000;
    assert Decimal.Pow10(15) == 1_00000_00000_00000;
  }

  lemma HexAvoidsDash(s: string)
    requires LowerHex(s, |s|)
    ensures '-' !in s
  {
    forall i | 0 <= i < |s| ensures s[i] != '-' {
      assert LowerHexDigit(s[i]);
    }
  }

  /** Both readers accept the same event identifiers and read the same epoch and sequence out of them. */
  lemma EventIdReadersAgree(value: string)
    ensures DaemonEventId(value) <==> ApiEventId(value)
    ensures ApiEventId(value) ==> Decimal.SplitOnce(value, '-') == Some((value[..32], value[33..]))
  {
    if ApiEventId(value) {
      HexAvoidsDash(value[..32]);
      assert value == value[..32] + ['-'] + value[33..];
      Decimal.SplitOnceJoined(value[..32], '-', value[33..]);
      assert value[33..][0] == value[33];
    }
    if DaemonEventId(value) {
      var pair := Decimal.SplitOnce(value, '-').value;
      var i := Decimal.IndexOf(value, '-');
      assert i == |pair.0| == 32;
      SequenceLength(pair.1);
      assert value[33..] == pair.1 && value[33] == pair.1[0];
      assert Decimal.IsDigit(pair.1[0]);
    }
  }

  predicate ContainerId(value: string) {
    StartsWith(value, CONTAINER_PREFIX) && LowerHex(value[|CONTAINER_PREFIX|..], 64)
  }

  function Epoch(value: string): string
    requires ApiEventId(value)
  {
    value[..32]
  }

  function Sequence(value: string): nat
    requires ApiEventId(value)
  {
    Decimal.Value(value[33..])
  }

  // ---------------------------------------------------------------- what an admissible history is

  predicate CoherentTransition(change: Change) {
    match change.kind
    case ContainerAppeared => change.previous.None? && change.current.Some?
    case ContainerDisappeared => change.previous.Some? && change.current.None?
    case ContainerStatusChanged =>
      change.previous.Some? && change.current.Some? && change.previous != change.current
  }

  predicate CoherentEvent(event: ChangeEvent) {
    ApiEventId(event.id) && ContainerId(event.change.containerId) && CoherentTransition(event.change)
  }

  ghost predicate Follows(newer: ChangeEvent, older: ChangeEvent)
    requires ApiEventId(newer.id) && ApiEventId(older.id)
  {
    && Epoch(newer.id) == Epoch(older.id)
    && Sequence(newer.id) > Sequence(older.id)
    && newer.observedAtMs >= older.observedAtMs
  }

  /** One epoch, newest first: strictly decreasing sequences and non-increasing times between any two events. */
  ghost predicate NewestFirst(events: seq<ChangeEvent>) {
    && (forall i :: 0 <= i < |events| ==> CoherentEvent(events[i]))
    && (forall i, j :: 0 <= i < j < |events| ==> Follows(events[i], events[j]))
  }

  predicate SourceCoherent(r: HistoryResponse) {
    match r.source
    case Mock =>
      !r.baselineEstablished && r.currentModelRevision.None? && r.observedRevision.None? && r.events == []
    case Docker =>
      && r.baselineEstablished
      && r.currentModelRevision.Some? && r.currentModelRevision.value != ""
      && r.observedRevision.Some? && r.observedRevision.value != ""
  }

  predicate RevisionFits(revision: Option<string>) {
    revision.Some? ==> 1 <= |revision.value| <= 64
  }

  /** The generated JSON schema: revision lengths, the event cap and safe-integer times. */
  predicate SchemaAccepts(r: HistoryResponse) {
    && RevisionFits(r.currentModelRevision) && RevisionFits(r.observedRevision)
    && |r.events| <= MAX_OBSERVED_CHANGE_EVENTS
    && SafeTimes(r)
  }

  predicate SafeTimes(r: HistoryResponse) {
    forall i :: 0 <= i < |r.events| ==> r.events[i].observedAtMs <= MAX_SAFE_INTEGER
  }

  ghost predicate DaemonAdmits(r: HistoryResponse) {
    && SourceCoherent(r) && RevisionFits(r.currentModelRevision) && RevisionFits(r.observedRevision)
    && |r.events| <= MAX_OBSERVED_CHANGE_EVENTS
    && NewestFirst(r.events)
  }

  ghost predicate ApiAdmits(r: HistoryResponse) {
    SourceCoherent(r) && NewestFirst(r.events)
  }

  /** On every response, the daemon's conversion with safe times and the API's schema with its checker agree. */
  lemma AdmissionsAgree(r: HistoryResponse)
    ensures DaemonAdmits(r) && SafeTimes(r) <==> SchemaAccepts(r) && ApiAdmits(r)
  {
  }

  lemma FollowsTransitive(a: ChangeEvent, b: ChangeEvent, c: ChangeEvent)
    requires ApiEventId(a.id) && ApiEventId(b.id) && ApiEventId(c.id)
    requires Follows(a, b) && Follows(b, c)
    ensures Follows(a, c)
  {
  }

  /** One more event extends a newest-first list exactly when it follows the one before it. */
  lemma ExtendNewestFirst(events: seq<ChangeEvent>, event: ChangeEvent)
    requires NewestFirst(events)
    ensures NewestFirst(events + [event])
            <==> CoherentEvent(event) && (events == [] || Follows(events[|events| - 1], event))
    ensures NewestFirst(events + [event]) ==> forall e :: e in events ==> e.id != event.id
  {
    var all := events + [event];
    var n := |events|;
    assert all[n] == event && (n > 0 ==> all[n - 1] == events[n - 1]);
    if CoherentEvent(event) && (n == 0 || Follows(events[n - 1], event)) {
      forall i, j | 0 <= i < j < |all| ensures Follows(all[i], all[j]) {
        if j == n && i < n - 1 {
          FollowsTransitive(events[i], events[n - 1], event);
        }
      }
    }
    if NewestFirst(all) {
      assert CoherentEvent(all[n]);
      assert n > 0 ==> Follows(all[n - 1], all[n]);
      forall e | e in events ensures e.id != event.id {
        var i :| 0 <= i < n && events[i] == e;
        assert Follows(all[i], all[n]);
      }
    }
  }

  lemma NewestFirstPrefix(events: seq<ChangeEvent>, n: nat)
    requires n <= |events| && NewestFirst(events)
    ensures NewestFirst(events[..n])
  {
    var front := events[..n];
    forall i | 0 <= i < |front| ensures CoherentEvent(front[i]) {
      assert front[i] == events[i];
    }
    forall i, j | 0 <= i < j < |front| ensures Follows(front[i], front[j]) {
      assert front[i] == events[i] && front[j] == events[j];
    }
  }

  // ---------------------------------------------------------------- the two readers

  datatype Previous = Previous(observedAtMs: nat, boot: string, sequence: nat)

  /** The daemon's conversion of one event. */
  method TryFromEvent(event: ChangeEvent) returns (ok: bool)
    ensures ok <==> CoherentEvent(event)
  {
    EventIdReadersAgree(event.id);
    return DaemonEventId(event.id) && ContainerId(event.change.containerId) && CoherentTransition(event.change);
  }

  /**
   One pass comparing neighbours. Comparing neighbours is enough for every pair, and the set of identifiers never
   refuses a list that passes.
   */
  method CompareNeighbours(events: seq<ChangeEvent>) returns (ok: bool)
    requires forall i :: 0 <= i < |events| ==> CoherentEvent(events[i])
    ensures ok <==> NewestFirst(events)
  {
    var previous: Option<Previous> := None;
    var ids: set<string> := {};
    for k := 0 to |events|
      invariant NewestFirst(events[..k])
      invariant ids == set e <- events[..k] :: e.id
      invariant k == 0 <==> previous.None?
      invariant k > 0 ==>
                  var last := events[k - 1];
                  previous == Some(Previous(last.observedAtMs, Epoch(last.id), Sequence(last.id)))
    {
      var event := events[k];
      EventIdReadersAgree(event.id);
      var parts := Decimal.SplitOnce(event.id, '-').value;
      var boot, sequence := parts.0, Decimal.ParseUnsigned(parts.1, U64_MAX).value;
      StepNewestFirst(events, k);
      if event.id in ids {
        return false;
      }
      ids := ids + {event.id};
      if previous.Some? && (event.observedAtMs > previous.value.observedAtMs || boot != previous.value.boot
                            || sequence >= previous.value.sequence)
      {
        return false;
      }
      previous := Some(Previous(event.observedAtMs, boot, sequence));
    }
    assert events[..|events|] == events;
    return true;
  }

  lemma StepNewestFirst(events: seq<ChangeEvent>, k: nat)
    requires k < |events| && NewestFirst(events[..k])
    ensures NewestFirst(events[..k + 1])
            <==> CoherentEvent(events[k]) && (k == 0 || Follows(events[k - 1], events[k]))
    ensures NewestFirst(events[..k + 1]) ==> forall e :: e in events[..k] ==> e.id != events[k].id
    ensures NewestFirst(events) ==> NewestFirst(events[..k + 1])
    ensures (set e <- events[..k + 1] :: e.id) == (set e <- events[..k] :: e.id) + {events[k].id}
  {
    ExtendNewestFirst(events[..k], events[k]);
    assert events[..k + 1] == events[..k] + [events[k]];
    if NewestFirst(events) {
      NewestFirstPrefix(events, k + 1);
    }
  }

  /** The daemon's conversion of a response: every event first, then the envelope, then the order. */
  method TryFromResponse(r: HistoryResponse) returns (ok: bool)
    ensures ok <==> DaemonAdmits(r)
  {
    for k := 0 to |r.events|
      invariant forall i :: 0 <= i < k ==> CoherentEvent(r.events[i])
    {
      var coherent := TryFromEvent(r.events[k]);
      if !coherent {
        return false;
      }
    }
    var revisionsPresent :=
      && r.currentModelRevision.Some? && 1 <= |r.currentModelRevision.value| <= 64
      && r.observedRevision.Some? && 1 <= |r.observedRevision.value| <= 64;
    var sourceCoherent := match r.source
      case Mock =>
        !r.baselineEstablished && r.currentModelRevision.None? && r.observedRevision.None? && r.events == []
      case Docker => r.baselineEstablished && revisionsPresent;
    if !sourceCoherent || |r.events| > 64 {
      return false;
    }
    ok := CompareNeighbours(r.events);
  }

  /** One pass carrying the epoch, the prior sequence and the prior time. */
  method HasOrderedEvents(events: seq<ChangeEvent>) returns (ok: bool)
    ensures ok <==> NewestFirst(events)
  {
    var ids: set<string> := {};
    var priorObservedAt: Option<nat> := None;
    var epoch: Option<string> := None;
    var priorSequence: Option<nat> := None;
    for k := 0 to |events|
      invariant NewestFirst(events[..k])
      invariant ids == set e <- events[..k] :: e.id
      invariant k == 0 ==> priorObservedAt.None? && epoch.None? && priorSequence.None?
      invariant k > 0 ==>
                  var last := events[k - 1];
                  && ApiEventId(last.id)
                  && priorObservedAt == Some(last.observedAtMs)
                  && epoch == Some(Epoch(last.id)) && priorSequence == Some(Sequence(last.id))
    {
      var event := events[k];
      StepNewestFirst(events, k);
      if !ContainerId(event.change.containerId) || !EventIdPattern(event.id) {
        return false;
      }
      var sequence := Decimal.Value(event.id[33..]);
      if sequence > U64_MAX {
        return false;
      }
      if event.id in ids {
        return false;
      }
      if (priorObservedAt.Some? && event.observedAtMs > priorObservedAt.value)
         || (epoch.Some? && event.id[..32] != epoch.value)
         || (priorSequence.Some? && sequence >= priorSequence.value)
      {
        return false;
      }
      ids := ids + {event.id};
      priorObservedAt, epoch, priorSequence := Some(event.observedAtMs), Some(event.id[..32]), Some(sequence);
      if !CoherentTransition(event.change) {
        return false;
      }
    }
    assert events[..|events|] == events;
    return true;
  }

  /** The API's checker: the envelope, then the events. */
  method HasCoherentObservedHistory(r: HistoryResponse) returns (ok: bool)
    ensures ok <==> ApiAdmits(r)
  {
    if r.source.Mock? {
      return r.currentModelRevision.None? && !r.baselineEstablished && r.observedRevision.None? && r.events == [];
    }
    if !r.baselineEstablished || r.currentModelRevision.None? || r.currentModelRevision.value == ""
       || r.observedRevision.None? || r.observedRevision.value == ""
    {
      return false;
    }
    ok := HasOrderedEvents(r.events);
  }
}
