/** Whole runs of the session accounting: totals, caps and the sliding window of accepted attempts. */
module SessionRuns {
  import opened Prelude
  import opened Sessions

  datatype Op =
    | IssueOp(token: string, now: nat)
    | CheckOp(session: string, now: nat)
    | RevokeOp(session: string)
    | RegisterOp(session: string, response: Response)
    | UnregisterOp(session: string, response: Response)
    | AttemptOp(source: string, now: nat)

  datatype Timed = Timed(accounts: Accounts, clock: nat)

  /** Tokens and sources are never empty, a response registers once, and attempts see a clock that never runs back. */
  predicate Enabled(t: Timed, op: Op) {
    match op
    case IssueOp(token, _) => token != ""
    case RegisterOp(session, response) => response !in StreamsOf(t.accounts, session)
    case AttemptOp(source, now) => source != "" && t.clock <= now
    case _ => true
  }

  function Next(t: Timed, limits: Limits, op: Op): Timed {
    match op
    case IssueOp(token, now) => t.(accounts := Issue(t.accounts, token, now))
    case CheckOp(session, now) => t.(accounts := Check(t.accounts, session, now))
    case RevokeOp(session) => t.(accounts := Revoke(t.accounts, session))
    case RegisterOp(session, response) => t.(accounts := Register(t.accounts, limits, session, response))
    case UnregisterOp(session, response) => t.(accounts := Unregister(t.accounts, session, response))
    case AttemptOp(source, now) => Timed(Attempt(t.accounts, source, now), now)
  }

  function After(limits: Limits, ops: seq<Op>): Option<Timed> {
    if ops == [] then Some(Timed(NO_ACCOUNTS, 0))
    else match After(limits, ops[..|ops| - 1])
      case None => None
      case Some(t) => if Enabled(t, ops[|ops| - 1]) then Some(Next(t, limits, ops[|ops| - 1])) else None
  }

  // ---------------------------------------------------------------- totals and caps

  ghost function Total(m: map<string, set<Response>>): nat
  {
    if m == map[] then 0
    else
      var key :| key in m;
      |m[key]| + Total(m - {key})
  }

  lemma {:induction false} TotalWithout(m: map<string, set<Response>>, key: string)
    requires key in m
    ensures Total(m) == |m[key]| + Total(m - {key})
    decreases |m|
  {
    var picked :| picked in m && Total(m) == |m[picked]| + Total(m - {picked});
    if picked != key {
      TotalWithout(m - {picked}, key);
      TotalWithout(m - {key}, picked);
      assert m - {picked} - {key} == m - {key} - {picked};
    }
  }

  lemma TotalUpdate(m: map<string, set<Response>>, key: string, streams: set<Response>)
    ensures Total(m[key := streams]) == Total(m - {key}) + |streams|
    ensures key in m ==> Total(m) == Total(m - {key}) + |m[key]|
    ensures key !in m ==> m - {key} == m
  {
    TotalWithout(m[key := streams], key);
    assert m[key := streams] - {key} == m - {key};
    if key in m {
      TotalWithout(m, key);
    }
  }

  ghost predicate StreamsSound(a: Accounts, limits: Limits) {
    && a.activeStreamCount == Total(a.streams) <= limits.maxStreams
    && forall session :: session in a.streams ==>
         && a.streams[session] != {}
         && (session != "" ==> |a.streams[session]| <= limits.maxStreamsPerSession)
  }

  ghost predicate SessionsSound(a: Accounts) {
    |a.sessions| <= MAX_SESSIONS && Keyed(a.sessions) && Absent(a.sessions, "")
  }

  ghost predicate SourcesSound(a: Accounts) {
    |a.attempts| <= MAX_SOURCES && Keyed(a.attempts) && Absent(a.attempts, "")
  }

  lemma RegisterKeepsStreams(a: Accounts, limits: Limits, session: string, response: Response)
    requires StreamsSound(a, limits) && response !in StreamsOf(a, session)
    ensures StreamsSound(Register(a, limits, session, response), limits)
  {
    TotalUpdate(a.streams, session, StreamsOf(a, session) + {response});
  }

  lemma UnregisterKeepsStreams(a: Accounts, limits: Limits, session: string, response: Response)
    requires StreamsSound(a, limits)
    ensures StreamsSound(Unregister(a, session, response), limits)
  {
    if session in a.streams {
      TotalUpdate(a.streams, session, a.streams[session] - {response});
    }
  }

  /** Where the cached total can drift: an accepted registration keeps it exactly when the response is new there. */
  lemma RegisterCountsExactly(a: Accounts, limits: Limits, session: string, response: Response)
    requires StreamsSound(a, limits) && Verdict(a, limits, session) == Accepted
    ensures var next := Register(a, limits, session, response);
            next.activeStreamCount == Total(next.streams) <==> response !in StreamsOf(a, session)
  {
    TotalUpdate(a.streams, session, StreamsOf(a, session) + {response});
    if response in StreamsOf(a, session) {
      assert StreamsOf(a, session) + {response} == StreamsOf(a, session);
    }
  }

  lemma {:induction false} PutAbsent<V>(m: seq<Entry<V>>, key: string, value: V, other: string)
    requires other != key && Absent(m, other)
    ensures Absent(Put(m, key, value), other)
  {
    if m != [] && m[|m| - 1].key != key && Get(m[..|m| - 1], key).Some? {
      PutAbsent(m[..|m| - 1], key, value, other);
    }
  }

  lemma KeyedAppend<V>(m: seq<Entry<V>>, e: Entry<V>)
    requires Keyed(m) && Absent(m, e.key)
    ensures Keyed(m + [e])
  {
  }

  lemma {:induction false} PutKeyed<V>(m: seq<Entry<V>>, key: string, value: V)
    requires Keyed(m)
    ensures Keyed(Put(m, key, value))
  {
    if m != [] {
      var n := |m| - 1;
      if m[n].key == key {
        KeyedAppend(m[..n], Entry(key, value));
      } else if Get(m[..n], key).Some? {
        PutKeyed(m[..n], key, value);
        PutAbsent(m[..n], key, value, m[n].key);
        KeyedAppend(Put(m[..n], key, value), m[n]);
      } else {
        GetNoneAbsent(m, key);
        KeyedAppend(m, Entry(key, value));
      }
    }
  }

  lemma PutSound<V>(m: seq<Entry<V>>, key: string, value: V)
    requires Keyed(m) && Absent(m, "") && key != ""
    ensures Keyed(Put(m, key, value)) && Absent(Put(m, key, value), "")
    ensures |Put(m, key, value)| == |m| + (if Get(m, key).Some? then 0 else 1)
  {
    PutKeyed(m, key, value);
    PutAbsent(m, key, value, "");
    GetPut(m, key, value, key);
  }

  lemma {:induction false} GetNoneAbsent<V>(m: seq<Entry<V>>, key: string)
    ensures Get(m, key).None? <==> Absent(m, key)
  {
    if m != [] {
      GetNoneAbsent(m[..|m| - 1], key);
    }
  }

  lemma LastNKeyed(m: seq<Entry<int>>, n: nat)
    requires Keyed(m)
    ensures Keyed(LastN(m, n)) && forall key :: Absent(m, key) ==> Absent(LastN(m, n), key)
  {
  }

  lemma IssueKeepsSessions(a: Accounts, token: string, now: nat)
    requires SessionsSound(a) && token != ""
    ensures SessionsSound(Issue(a, token, now))
  {
    FilterKeyed(a.sessions, ExpiresAfter(now));
    LastNKeyed(Unexpired(a.sessions, now), MAX_SESSIONS - 1);
    PutSound(LastN(Unexpired(a.sessions, now), MAX_SESSIONS - 1), token, now + SESSION_TTL_MS);
  }

  lemma RevokeKeepsSessions(a: Accounts, session: string)
    requires SessionsSound(a)
    ensures SessionsSound(Revoke(a, session))
  {
    FilterKeyed(a.sessions, OtherThan(session));
    GetDelete(a.sessions, session, session);
  }

  lemma AttemptKeepsSources(a: Accounts, source: string, now: nat)
    requires SourcesSound(a) && source != ""
    ensures SourcesSound(Attempt(a, source, now))
  {
    if Admits(a, source, now) {
      var recent := Recent(a, source, now) + [now];
      match Evicted(a, source)
      case None => PutSound(a.attempts, source, recent);
      case Some(oldest) =>
        FilterKeyed(a.attempts, OtherThan(oldest));
        OldestLeaves(a.attempts);
        PutSound(Delete(a.attempts, oldest), source, recent);
    }
  }

  lemma OldestLeaves(m: seq<Entry<seq<int>>>)
    requires Keyed(m) && m != []
    ensures Delete(m, m[0].key) == m[1..]
  {
    assert m == [] + ([m[0]] + m[1..]);
    DeleteAt([], m[0], m[1..]);
    assert [] + m[1..] == m[1..];
  }

  /**
   In every run the cached stream count is the total size of all stream sets, no empty set is kept, and the
   process, per-session, session and source caps hold.
   */
  lemma {:induction false} EveryRunIsSound(limits: Limits, ops: seq<Op>)
    requires After(limits, ops).Some?
    ensures var a := After(limits, ops).value.accounts;
            StreamsSound(a, limits) && SessionsSound(a) && SourcesSound(a)
  {
    if ops != [] {
      EveryRunIsSound(limits, ops[..|ops| - 1]);
      var a := After(limits, ops[..|ops| - 1]).value.accounts;
      match ops[|ops| - 1]
      case IssueOp(token, now) => IssueKeepsSessions(a, token, now);
      case CheckOp(session, _) => RevokeKeepsSessions(a, session);
      case RevokeOp(session) => RevokeKeepsSessions(a, session);
      case RegisterOp(session, response) => RegisterKeepsStreams(a, limits, session, response);
      case UnregisterOp(session, response) => UnregisterKeepsStreams(a, limits, session, response);
      case AttemptOp(source, now) => AttemptKeepsSources(a, source, now);
    } else {
      assert Total(map[]) == 0;
    }
  }

  /** Right after it was issued, a session is valid exactly until it expires. */
  lemma IssuedIsValid(a: Accounts, token: string, now: nat, later: nat)
    ensures IsValid(Issue(a, token, now), token, later) <==> later < now + SESSION_TTL_MS
  {
    GetPut(LastN(Unexpired(a.sessions, now), MAX_SESSIONS - 1), token, now + SESSION_TTL_MS, token);
  }

  // ---------------------------------------------------------------- the sliding window

  /** What one operation makes of the accepted attempts of a source; being pushed out starts them over. */
  function StepTimes(a: Accounts, op: Op, source: string, times: seq<int>): seq<int> {
    if !op.AttemptOp? || !Admits(a, op.source, op.now) then times
    else if op.source == source then times + [op.now]
    else if Evicted(a, op.source) == Some(source) then []
    else times
  }

  /** The accepted attempts of a source since it was last pushed out of the table. */
  function AcceptedTimes(limits: Limits, ops: seq<Op>, source: string): seq<int>
    requires After(limits, ops).Some?
  {
    if ops == [] then []
    else
      var front := ops[..|ops| - 1];
      StepTimes(After(limits, front).value.accounts, ops[|ops| - 1], source, AcceptedTimes(limits, front, source))
  }

  ghost predicate Ascending(s: seq<int>) {
    forall i, j :: 0 <= i < j < |s| ==> s[i] <= s[j]
  }

  /** Twenty-one acceptances in a row never fit into less than a window. */
  ghost predicate Spread(times: seq<int>) {
    forall i :: 0 <= i < |times| - MAX_ATTEMPTS ==> SpreadAt(times, i)
  }

  ghost predicate SpreadAt(times: seq<int>, i: nat)
    requires i + MAX_ATTEMPTS < |times|
  {
    times[i] + ATTEMPT_WINDOW_MS <= times[i + MAX_ATTEMPTS]
  }

  /** All but the last `kept` times lie a window or more before `now`. */
  ghost predicate LeftWindow(times: seq<int>, kept: nat, now: int) {
    forall i :: 0 <= i < |times| - kept ==> times[i] + ATTEMPT_WINDOW_MS <= now
  }

  /** The stored attempts are the latest accepted ones; all earlier ones have left the window. */
  ghost predicate Tracks(a: Accounts, source: string, times: seq<int>) {
    if times == [] then Get(a.attempts, source).None?
    else
      && Get(a.attempts, source).Some?
      && var stored := Stored(a, source);
         && 1 <= |stored| <= Min(MAX_ATTEMPTS, |times|)
         && stored == times[|times| - |stored|..]
         && LeftWindow(times, |stored|, times[|times| - 1])
  }

  ghost predicate Tracked(t: Timed, source: string, times: seq<int>) {
    && Tracks(t.accounts, source, times)
    && Spread(times) && Ascending(times)
    && (times != [] ==> times[|times| - 1] <= t.clock)
  }

  lemma SuffixGrows(s: seq<int>, kept: seq<int>, now: int)
    requires s != [] && |kept| < |s| && kept == s[..|s| - 1][|s| - 1 - |kept|..]
    requires LeftWindow(s[..|s| - 1], |kept|, now)
    ensures kept + [s[|s| - 1]] == s[|s| - 1 - |kept|..]
    ensures LeftWindow(s, |kept| + 1, now)
  {
    var front := s[..|s| - 1];
    forall i | 0 <= i < |s| - |kept| - 1 ensures s[i] + ATTEMPT_WINDOW_MS <= now {
      assert front[i] == s[i];
    }
  }

  lemma AllLeft(s: seq<int>, now: nat)
    requires s != [] && Ascending(s) && s[|s| - 1] + ATTEMPT_WINDOW_MS <= now
    ensures Filter(s, Counts(now)) == [] && LeftWindow(s, 0, now)
  {
    forall i | 0 <= i < |s| ensures s[i] + ATTEMPT_WINDOW_MS <= now {
      assert s[i] <= s[|s| - 1];
    }
    FilterNone(s, Counts(now));
  }

  lemma {:induction false} RecentIsSuffix(s: seq<int>, now: nat)
    requires Ascending(s)
    ensures var recent := Filter(s, Counts(now));
            |recent| <= |s| && recent == s[|s| - |recent|..] && LeftWindow(s, |recent|, now)
  {
    if s != [] {
      var n := |s| - 1;
      if s[n] + ATTEMPT_WINDOW_MS <= now {
        AllLeft(s, now);
      } else {
        var front := s[..n];
        var kept := Filter(front, Counts(now));
        RecentIsSuffix(front, now);
        SuffixGrows(s, kept, now);
        assert Filter(s, Counts(now)) == kept + [s[n]];
      }
    }
  }

  lemma LastOfLast(times: seq<int>, m: nat, n: nat)
    requires n <= m <= |times|
    ensures times[|times| - m..][m - n..] == times[|times| - n..]
  {
  }

  /** What no longer counts among the stored attempts, or among all, is a window away. */
  lemma LeftStays(times: seq<int>, stored: seq<int>, kept: nat, now: int)
    requires kept <= |stored| <= |times| && stored == times[|times| - |stored|..]
    requires times != [] ==> LeftWindow(times, |stored|, times[|times| - 1]) && times[|times| - 1] <= now
    requires LeftWindow(stored, kept, now)
    ensures LeftWindow(times, kept, now)
  {
    forall i | 0 <= i < |times| - kept ensures times[i] + ATTEMPT_WINDOW_MS <= now {
      if i >= |times| - |stored| {
        assert times[i] == stored[i - (|times| - |stored|)];
      }
    }
  }

  lemma AcceptKeepsSpread(times: seq<int>, kept: nat, now: int)
    requires Spread(times) && kept < MAX_ATTEMPTS && LeftWindow(times, kept, now)
    ensures Spread(times + [now])
  {
    var more := times + [now];
    forall i | 0 <= i < |more| - MAX_ATTEMPTS ensures SpreadAt(more, i) {
      assert i < |times| - MAX_ATTEMPTS ==> SpreadAt(times, i);
    }
  }

  lemma OwnAttemptKeepsTracking(t: Timed, source: string, times: seq<int>, now: nat)
    requires Tracked(t, source, times) && t.clock <= now && Admits(t.accounts, source, now)
    ensures Tracked(Timed(Attempt(t.accounts, source, now), now), source, times + [now])
  {
    var a := t.accounts;
    var recent := Recent(a, source, now);
    AcceptedTracks(times, Stored(a, source), now);
    var kept := match Evicted(a, source) { case Some(oldest) => Delete(a.attempts, oldest) case None => a.attempts };
    GetPut(kept, source, recent + [now], source);
    assert Stored(Attempt(a, source, now), source) == recent + [now];
  }

  lemma SuffixAscending(times: seq<int>, stored: seq<int>, now: int)
    requires Ascending(times) && |stored| <= |times| && stored == times[|times| - |stored|..]
    requires times != [] ==> times[|times| - 1] <= now
    ensures Ascending(stored) && Ascending(times + [now])
  {
  }

  lemma AcceptedTracks(times: seq<int>, stored: seq<int>, now: nat)
    requires Spread(times) && Ascending(times) && (times != [] ==> times[|times| - 1] <= now)
    requires |stored| <= |times| && stored == times[|times| - |stored|..]
    requires times != [] ==> LeftWindow(times, |stored|, times[|times| - 1])
    requires |Filter(stored, Counts(now))| < MAX_ATTEMPTS
    ensures var recent := Filter(stored, Counts(now));
            && |recent| <= |times|
            && Spread(times + [now]) && Ascending(times + [now])
            && recent + [now] == (times + [now])[|times| - |recent|..]
            && LeftWindow(times + [now], |recent| + 1, now)
  {
    SuffixAscending(times, stored, now);
    RecentIsSuffix(stored, now);
    var recent := Filter(stored, Counts(now));
    LeftStays(times, stored, |recent|, now);
    LastOfLast(times, |stored|, |recent|);
    AcceptKeepsSpread(times, |recent|, now);
    StoredOneMore(times, recent, now);
  }

  lemma StoredOneMore(times: seq<int>, recent: seq<int>, now: int)
    requires |recent| <= |times| && recent == times[|times| - |recent|..] && LeftWindow(times, |recent|, now)
    ensures recent + [now] == (times + [now])[|times| - |recent|..]
    ensures LeftWindow(times + [now], |recent| + 1, now)
  {
  }

  lemma OtherAttemptKeepsTracking(a: Accounts, source: string, other: string, times: seq<int>, now: nat)
    requires Tracks(a, source, times) && other != source
    requires Admits(a, other, now)
    ensures Tracks(Attempt(a, other, now), source, if Evicted(a, other) == Some(source) then [] else times)
  {
    var recent := Recent(a, other, now) + [now];
    match Evicted(a, other)
    case None => GetPut(a.attempts, other, recent, source);
    case Some(oldest) =>
      GetDelete(a.attempts, oldest, source);
      GetPut(Delete(a.attempts, oldest), other, recent, source);
  }

  lemma OtherOpsKeepAttempts(t: Timed, limits: Limits, op: Op)
    requires op.AttemptOp? ==> !Admits(t.accounts, op.source, op.now)
    ensures Next(t, limits, op).accounts.attempts == t.accounts.attempts
  {
  }

  lemma StepKeepsTracking(t: Timed, limits: Limits, op: Op, source: string, times: seq<int>)
    requires Tracked(t, source, times) && Enabled(t, op)
    ensures Tracked(Next(t, limits, op), source, StepTimes(t.accounts, op, source, times))
  {
    if !op.AttemptOp? || !Admits(t.accounts, op.source, op.now) {
      OtherOpsKeepAttempts(t, limits, op);
    } else if op.source == source {
      OwnAttemptKeepsTracking(t, source, times, op.now);
    } else {
      OtherAttemptKeepsTracking(t.accounts, source, op.source, times, op.now);
    }
  }

  lemma {:induction false} AttemptsAreTracked(limits: Limits, ops: seq<Op>, source: string)
    requires After(limits, ops).Some?
    ensures Tracked(After(limits, ops).value, source, AcceptedTimes(limits, ops, source))
  {
    if ops != [] {
      var front := ops[..|ops| - 1];
      AttemptsAreTracked(limits, front, source);
      StepKeepsTracking(After(limits, front).value, limits, ops[|ops| - 1], source, AcceptedTimes(limits, front, source));
    }
  }

  lemma SpreadFar(times: seq<int>, i: nat, j: nat)
    requires Spread(times) && Ascending(times) && i + MAX_ATTEMPTS <= j < |times|
    ensures times[i] + ATTEMPT_WINDOW_MS <= times[j]
  {
    assert SpreadAt(times, i);
  }

  /** A source that is not pushed out has at most twenty accepted attempts in any window of sixty seconds. */
  lemma WindowHoldsTwenty(limits: Limits, ops: seq<Op>, source: string, i: nat, j: nat, from: int)
    requires After(limits, ops).Some?
    requires i <= j < |AcceptedTimes(limits, ops, source)|
    requires var times := AcceptedTimes(limits, ops, source);
             from <= times[i] && times[j] < from + ATTEMPT_WINDOW_MS
    ensures j - i + 1 <= MAX_ATTEMPTS
  {
    AttemptsAreTracked(limits, ops, source);
    if j - i >= MAX_ATTEMPTS {
      SpreadFar(AcceptedTimes(limits, ops, source), i, j);
    }
  }

  /** The operation is an attempt of the source that is accepted. */
  ghost predicate AcceptedNext(limits: Limits, before: seq<Op>, op: Op, source: string) {
    After(limits, before).Some? && op.AttemptOp? && op.source == source
    && Admits(After(limits, before).value.accounts, source, op.now)
  }

  ghost predicate NoneAccepted(limits: Limits, ops: seq<Op>, more: seq<Op>, source: string) {
    forall k :: 0 <= k < |more| ==> !AcceptedNext(limits, ops + more[..k], more[k], source)
  }

  lemma StoredStays(t: Timed, limits: Limits, op: Op, source: string)
    requires op.AttemptOp? && op.source == source ==> !Admits(t.accounts, source, op.now)
    ensures var next := Next(t, limits, op).accounts;
            Stored(next, source) == Stored(t.accounts, source) || Stored(next, source) == []
  {
    if op.AttemptOp? && Admits(t.accounts, op.source, op.now) {
      var a := t.accounts;
      var recent := Recent(a, op.source, op.now) + [op.now];
      match Evicted(a, op.source)
      case None => GetPut(a.attempts, op.source, recent, source);
      case Some(oldest) =>
        GetDelete(a.attempts, oldest, source);
        GetPut(Delete(a.attempts, oldest), op.source, recent, source);
    } else {
      OtherOpsKeepAttempts(t, limits, op);
    }
  }

  lemma NoneAcceptedEarlier(limits: Limits, ops: seq<Op>, front: seq<Op>, op: Op, source: string)
    requires NoneAccepted(limits, ops, front + [op], source)
    ensures NoneAccepted(limits, ops, front, source) && !AcceptedNext(limits, ops + front, op, source)
  {
    var more := front + [op];
    forall k | 0 <= k < |front| ensures !AcceptedNext(limits, ops + front[..k], front[k], source) {
      assert more[..k] == front[..k];
      assert !AcceptedNext(limits, ops + more[..k], more[k], source);
    }
    assert more[..|front|] == front && more[|front|] == op;
    assert !AcceptedNext(limits, ops + more[..|front|], more[|front|], source);
  }

  /** The state after a run, and the one before its last operation. */
  lemma LastOp(limits: Limits, front: seq<Op>, op: Op) returns (t: Timed)
    requires After(limits, front + [op]).Some?
    ensures After(limits, front) == Some(t) && After(limits, front + [op]) == Some(Next(t, limits, op))
  {
    assert (front + [op])[..|front|] == front;
    t := After(limits, front).value;
  }

  ghost predicate Holds(limits: Limits, ops: seq<Op>, source: string, stored: seq<int>) {
    && After(limits, ops).Some?
    && var now := Stored(After(limits, ops).value.accounts, source);
       now == stored || now == []
  }

  lemma HoldsOn(limits: Limits, front: seq<Op>, op: Op, source: string, stored: seq<int>)
    requires Holds(limits, front, source, stored) && After(limits, front + [op]).Some?
    requires !AcceptedNext(limits, front, op, source)
    ensures Holds(limits, front + [op], source, stored)
  {
    var t := LastOp(limits, front, op);
    StoredStays(t, limits, op, source);
  }

  /** While no attempt of a source is accepted, its stored attempts stay, or it is pushed out. */
  lemma {:induction false} StoredStaysThrough(limits: Limits, ops: seq<Op>, more: seq<Op>, source: string, stored: seq<int>)
    requires Holds(limits, ops, source, stored) && After(limits, ops + more).Some? && NoneAccepted(limits, ops, more, source)
    ensures Holds(limits, ops + more, source, stored)
    decreases |more|
  {
    if more == [] {
      assert ops + more == ops;
    } else {
      var front, op := more[..|more| - 1], more[|more| - 1];
      assert more == front + [op] && ops + more == (ops + front) + [op];
      NoneAcceptedEarlier(limits, ops, front, op, source);
      var t := LastOp(limits, ops + front, op);
      StoredStaysThrough(limits, ops, front, source, stored);
      HoldsOn(limits, ops + front, op, source, stored);
    }
  }

  /**
   A refused source that waits as long as it was told is accepted, whatever else happens meanwhile, its own refused
   attempts and being pushed out included.
   */
  lemma RetryAfterSuffices(limits: Limits, ops: seq<Op>, more: seq<Op>, source: string, now: nat, later: nat)
    requires After(limits, ops).Some? && After(limits, ops + more).Some? && NoneAccepted(limits, ops, more, source)
    requires var t := After(limits, ops).value;
             && t.clock <= now && RetryAfter(t.accounts, source, now).Some?
             && now + 1000 * RetryAfter(t.accounts, source, now).value <= later
    ensures Admits(After(limits, ops + more).value.accounts, source, later)
  {
    AttemptsAreTracked(limits, ops, source);
    var a := After(limits, ops).value.accounts;
    StoredBounds(a, source, AcceptedTimes(limits, ops, source));
    WaitCovers(Recent(a, source, now)[0], now);
    OldestHasLeft(Stored(a, source), now, later);
    StoredStaysThrough(limits, ops, more, source, Stored(a, source));
  }

  lemma WaitCovers(oldest: int, now: nat)
    ensures oldest + ATTEMPT_WINDOW_MS <= now + 1000 * WaitSeconds(oldest, now)
  {
  }

  lemma StoredBounds(a: Accounts, source: string, times: seq<int>)
    requires Tracks(a, source, times) && Ascending(times)
    ensures |Stored(a, source)| <= MAX_ATTEMPTS && Ascending(Stored(a, source))
  {
  }

  lemma OldestHasLeft(stored: seq<int>, now: nat, later: nat)
    requires Ascending(stored) && |stored| <= MAX_ATTEMPTS <= |Filter(stored, Counts(now))|
    requires Filter(stored, Counts(now))[0] + ATTEMPT_WINDOW_MS <= later
    ensures |Filter(stored, Counts(later))| < MAX_ATTEMPTS
  {
    var recent, after := Filter(stored, Counts(now)), Filter(stored, Counts(later));
    RecentIsSuffix(stored, now);
    RecentIsSuffix(stored, later);
    FilterMembers(stored, Counts(later));
    assert recent[0] == stored[0];
    assert |after| > 0 ==> after[0] in after && after[0] == stored[|stored| - |after|];
  }

  // ---------------------------------------------------------------- windows that include both ends

  /**
   A window of sixty seconds that includes both its ends holds at most twice twenty accepted attempts, and more than
   twenty only when they lie at its two ends.
   */
  lemma ClosedWindowHoldsForty(limits: Limits, ops: seq<Op>, source: string, i: nat, j: nat, from: int)
    requires After(limits, ops).Some?
    requires i <= j < |AcceptedTimes(limits, ops, source)|
    requires var times := AcceptedTimes(limits, ops, source);
             from <= times[i] && times[j] <= from + ATTEMPT_WINDOW_MS
    ensures j - i + 1 <= 2 * MAX_ATTEMPTS
    ensures var times := AcceptedTimes(limits, ops, source);
            j - i + 1 > MAX_ATTEMPTS ==>
              && (forall k :: i <= k <= j - MAX_ATTEMPTS ==> times[k] == from)
              && (forall k :: i + MAX_ATTEMPTS <= k <= j ==> times[k] == from + ATTEMPT_WINDOW_MS)
  {
    AttemptsAreTracked(limits, ops, source);
    AtTheEnds(AcceptedTimes(limits, ops, source), i, j, from);
  }

  lemma SpreadTwice(times: seq<int>, i: nat, j: nat)
    requires Spread(times) && Ascending(times) && i + 2 * MAX_ATTEMPTS <= j < |times|
    ensures times[i] + 2 * ATTEMPT_WINDOW_MS <= times[j]
  {
    SpreadFar(times, i, i + MAX_ATTEMPTS);
    SpreadFar(times, i + MAX_ATTEMPTS, j);
  }

  lemma AtTheEnds(times: seq<int>, i: nat, j: nat, from: int)
    requires Spread(times) && Ascending(times) && i <= j < |times|
    requires from <= times[i] && times[j] <= from + ATTEMPT_WINDOW_MS
    ensures j - i + 1 <= 2 * MAX_ATTEMPTS
    ensures forall k :: i <= k <= j - MAX_ATTEMPTS ==> times[k] == from
    ensures forall k :: i + MAX_ATTEMPTS <= k <= j ==> times[k] == from + ATTEMPT_WINDOW_MS
  {
    forall k | i <= k <= j - MAX_ATTEMPTS ensures times[k] == from {
      SpreadFar(times, k, j);
      assert times[i] <= times[k];
    }
    forall k | i + MAX_ATTEMPTS <= k <= j ensures times[k] == from + ATTEMPT_WINDOW_MS {
      SpreadFar(times, i, k);
      assert times[k] <= times[j];
    }
    if j - i >= 2 * MAX_ATTEMPTS {
      SpreadTwice(times, i, j);
    }
  }

  function Repeated(at: int, n: nat): seq<int> {
    seq(n, _ => at)
  }

  /** The source may make its next attempt at `at` and pushes nobody out. */
  predicate MayBurst(t: Timed, source: string, at: nat, n: nat) {
    t.clock <= at && Recent(t.accounts, source, at) == Repeated(at, n) && Evicted(t.accounts, source).None?
  }

  lemma BurstStep(t: Timed, source: string, at: nat, n: nat)
    requires n < MAX_ATTEMPTS && MayBurst(t, source, at, n)
    ensures Admits(t.accounts, source, at)
    ensures MayBurst(Timed(Attempt(t.accounts, source, at), at), source, at, n + 1)
    ensures Stored(Attempt(t.accounts, source, at), source) == Repeated(at, n + 1)
  {
    assert Repeated(at, n + 1) == Repeated(at, n) + [at];
    GetPut(t.accounts.attempts, source, Repeated(at, n + 1), source);
    FilterAll(Repeated(at, n + 1), Counts(at));
  }

  lemma OneMoreAttempt(limits: Limits, front: seq<Op>, source: string, at: nat, t: Timed)
    requires After(limits, front) == Some(t) && source != "" && t.clock <= at && Admits(t.accounts, source, at)
    ensures After(limits, front + [AttemptOp(source, at)]) == Some(Timed(Attempt(t.accounts, source, at), at))
    ensures AcceptedTimes(limits, front + [AttemptOp(source, at)], source) == AcceptedTimes(limits, front, source) + [at]
  {
    var ops := front + [AttemptOp(source, at)];
    assert ops[..|ops| - 1] == front;
  }

  lemma RepeatedGrows(times: seq<int>, at: int, n: nat)
    ensures times + Repeated(at, n + 1) == times + Repeated(at, n) + [at]
  {
  }

  /** A burst of attempts of one source at one time. */
  lemma {:induction false} Burst(limits: Limits, before: seq<Op>, source: string, at: nat, n: nat, times: seq<int>)
    returns (ops: seq<Op>)
    requires After(limits, before).Some? && source != "" && n <= MAX_ATTEMPTS
    requires MayBurst(After(limits, before).value, source, at, 0) && times == AcceptedTimes(limits, before, source)
    ensures After(limits, ops).Some? && AcceptedTimes(limits, ops, source) == times + Repeated(at, n)
    ensures MayBurst(After(limits, ops).value, source, at, n)
    ensures n > 0 ==> Stored(After(limits, ops).value.accounts, source) == Repeated(at, n)
  {
    if n == 0 {
      ops := before;
    } else {
      var front := Burst(limits, before, source, at, n - 1, times);
      var t := After(limits, front).value;
      ops := front + [AttemptOp(source, at)];
      BurstStep(t, source, at, n - 1);
      OneMoreAttempt(limits, front, source, at, t);
      RepeatedGrows(times, at, n - 1);
    }
  }

  lemma BurstsAgain(t: Timed, source: string)
    requires MayBurst(t, source, 0, MAX_ATTEMPTS) && Stored(t.accounts, source) == Repeated(0, MAX_ATTEMPTS)
    ensures MayBurst(t, source, ATTEMPT_WINDOW_MS, 0)
  {
    FilterNone(Repeated(0, MAX_ATTEMPTS), Counts(ATTEMPT_WINDOW_MS));
  }

  /** Twenty attempts at each end of one such window are accepted. */
  lemma ClosedWindowIsFull(limits: Limits, source: string) returns (ops: seq<Op>)
    requires source != ""
    ensures After(limits, ops).Some?
    ensures AcceptedTimes(limits, ops, source)
            == Repeated(0, MAX_ATTEMPTS) + Repeated(ATTEMPT_WINDOW_MS, MAX_ATTEMPTS)
  {
    assert Recent(NO_ACCOUNTS, source, 0) == Repeated(0, 0);
    ops := Burst(limits, [], source, 0, MAX_ATTEMPTS, []);
    BurstsAgain(After(limits, ops).value, source);
    ops := Burst(limits, ops, source, ATTEMPT_WINDOW_MS, MAX_ATTEMPTS, Repeated(0, MAX_ATTEMPTS));
  }
}
