/** Which sessions stay valid, which source is pushed out, and which attempts and streams are accepted, read off the tables. */
module SessionRecords {
  import opened Prelude
  import opened Sessions
  import opened SessionRuns

  // ---------------------------------------------------------------- entries and their places

  lemma {:induction false} GetAt<V>(m: seq<Entry<V>>, i: nat)
    requires Keyed(m) && i < |m|
    ensures Get(m, m[i].key) == Some(m[i].value)
  {
    var n := |m| - 1;
    if i < n {
      GetAt(m[..n], i);
    }
  }

  lemma {:induction false} PutKeepsPlace<V>(m: seq<Entry<V>>, key: string, value: V, i: nat)
    requires i < |m| && m[i].key != key
    ensures |m| <= |Put(m, key, value)| <= |m| + 1 && Put(m, key, value)[i] == m[i]
  {
    var n := |m| - 1;
    GetPut(m, key, value, key);
    if m[n].key != key && Get(m[..n], key).Some? {
      GetPut(m[..n], key, value, key);
      if i < n {
        PutKeepsPlace(m[..n], key, value, i);
      }
    }
  }

  lemma PutFresh<V>(m: seq<Entry<V>>, key: string, value: V)
    requires Absent(m, key)
    ensures Put(m, key, value) == m + [Entry(key, value)]
  {
    GetNoneAbsent(m, key);
    if m != [] {
      GetNoneAbsent(m[..|m| - 1], key);
    }
  }

  /** Where an element that stays lands, and what is left behind it. */
  lemma FilterAround<T>(m: seq<T>, p: T -> bool, i: nat) returns (front: seq<T>, behind: seq<T>)
    requires i < |m| && p(m[i])
    ensures front == Filter(m[..i], p) && behind == Filter(m[i + 1..], p)
    ensures Filter(m, p) == front + [m[i]] + behind
  {
    front, behind := Filter(m[..i], p), Filter(m[i + 1..], p);
    assert m == m[..i + 1] + m[i + 1..];
    FilterConcat(m[..i + 1], m[i + 1..], p);
    assert m[..i + 1][..i] == m[..i];
  }

  // ---------------------------------------------------------------- revoking and asking

  /** Revoking a session ends it and no other. */
  lemma RevokedExactly(a: Accounts, session: string, other: string, now: nat)
    ensures IsValid(Revoke(a, session), other, now) <==> other != session && IsValid(a, other, now)
  {
    GetDelete(a.sessions, session, other);
  }

  /** Asking about a session changes no answer, then or later. */
  lemma AskingChangesNothing(a: Accounts, session: string, now: nat, other: string, later: nat)
    requires now <= later
    ensures IsValid(Check(a, session, now), other, later) <==> IsValid(a, other, later)
  {
    GetDelete(a.sessions, session, other);
  }

  /** Asking about a session that has ended takes out its entry, and only that. */
  lemma AskingDropsEnded(a: Accounts, i: nat, now: nat)
    requires Keyed(a.sessions) && i < |a.sessions|
    ensures var m := a.sessions;
            Check(a, m[i].key, now) == a.(sessions := if m[i].value != 0 && m[i].value <= now then m[..i] + m[i + 1..] else m)
    ensures Revoke(a, a.sessions[i].key) == a.(sessions := a.sessions[..i] + a.sessions[i + 1..])
  {
    var m := a.sessions;
    GetAt(m, i);
    assert m == m[..i] + ([m[i]] + m[i + 1..]);
    DeleteAt(m[..i], m[i], m[i + 1..]);
  }

  // ---------------------------------------------------------------- issuing

  function Alive(now: nat): Entry<int> -> bool {
    (e: Entry<int>) => e.value > now
  }

  /** How many of the sessions behind the `i`-th one are alive. */
  function NewerAlive(sessions: seq<Entry<int>>, i: nat, now: nat): nat
    requires i < |sessions|
  {
    |Filter(sessions[i + 1..], Alive(now))|
  }

  lemma LastNHolds(front: seq<Entry<int>>, e: Entry<int>, behind: seq<Entry<int>>, n: nat)
    requires Keyed(front + [e] + behind)
    ensures Get(LastN(front + [e] + behind, n), e.key) == if |behind| < n then Some(e.value) else None
  {
    var all := front + [e] + behind;
    var last := LastN(all, n);
    assert all[|front|] == e;
    LastNKeyed(all, n);
    if |behind| < n {
      var at := |front| - (|all| - |last|);
      assert last[at] == e;
      GetAt(last, at);
    } else {
      GetNoneAbsent(last, e.key);
    }
  }

  lemma SameAlive(m: seq<Entry<int>>, now: nat)
    ensures Unexpired(m, now) == Filter(m, Alive(now))
  {
    SamePointwise(m, ExpiresAfter(now), Alive(now));
  }

  /**
   Issuing a session keeps another one exactly when that is alive and fewer than 1023 of the sessions issued behind it
   are; it stays valid until its own end.
   */
  lemma IssuingKeepsExactly(a: Accounts, token: string, now: nat, i: nat, later: nat)
    requires Keyed(a.sessions) && i < |a.sessions| && a.sessions[i].key != token
    ensures IsValid(Issue(a, token, now), a.sessions[i].key, later)
            <==> a.sessions[i].value > now && a.sessions[i].value > later && NewerAlive(a.sessions, i, now) < 1023
  {
    var m, other := a.sessions, a.sessions[i].key;
    var kept := Unexpired(m, now);
    SameAlive(m, now);
    FilterKeyed(m, Alive(now));
    GetPut(LastN(kept, MAX_SESSIONS - 1), token, now + SESSION_TTL_MS, other);
    if m[i].value > now {
      var front, behind := FilterAround(m, Alive(now), i);
      LastNHolds(front, m[i], behind, MAX_SESSIONS - 1);
    } else {
      ExpiredIsGone(m, now, i, kept);
      LastNKeyed(kept, MAX_SESSIONS - 1);
      GetNoneAbsent(LastN(kept, MAX_SESSIONS - 1), other);
    }
  }

  lemma {:induction false} ExpiredIsGone(m: seq<Entry<int>>, now: nat, i: nat, kept: seq<Entry<int>>)
    requires Keyed(m) && i < |m| && m[i].value <= now && kept == Filter(m, Alive(now))
    ensures Absent(kept, m[i].key)
  {
    var n := |m| - 1;
    var front := m[..n];
    if i < n {
      ExpiredIsGone(front, now, i, Filter(front, Alive(now)));
    } else {
      assert Absent(front, m[n].key);
      FilterKeyed(front, Alive(now));
    }
  }

  // ---------------------------------------------------------------- a session's whole life

  /** The session is listed with this end, and at most `n` sessions stand behind it. */
  ghost predicate Placed(m: seq<Entry<int>>, e: Entry<int>, n: nat) {
    exists i :: PlacedAt(m, e, n, i)
  }

  predicate PlacedAt(m: seq<Entry<int>>, e: Entry<int>, n: nat, i: nat) {
    i < |m| && m[i] == e && |m| - 1 - i <= n
  }

  lemma FilterKeepsPlace(m: seq<Entry<int>>, e: Entry<int>, n: nat, p: Entry<int> -> bool)
    requires Placed(m, e, n) && p(e)
    ensures Placed(Filter(m, p), e, n)
  {
    var i: nat :| PlacedAt(m, e, n, i);
    var front, behind := FilterAround(m, p, i);
    FilterMembers(m[i + 1..], p);
    assert PlacedAt(front + [e] + behind, e, n, |front|);
  }

  lemma LastNKeepsPlace(m: seq<Entry<int>>, e: Entry<int>, n: nat, most: nat)
    requires Placed(m, e, n) && n < most
    ensures Placed(LastN(m, most), e, n)
  {
    var i: nat :| PlacedAt(m, e, n, i);
    var last := LastN(m, most);
    assert PlacedAt(last, e, n, i - (|m| - |last|));
  }

  lemma IssueKeepsPlace(a: Accounts, token: string, now: nat, e: Entry<int>, n: nat)
    requires Placed(a.sessions, e, n) && e.key != token && e.value > now && n < 1023
    ensures Placed(Issue(a, token, now).sessions, e, n + 1)
  {
    FilterKeepsPlace(a.sessions, e, n, ExpiresAfter(now));
    var alive := Unexpired(a.sessions, now);
    LastNKeepsPlace(alive, e, n, MAX_SESSIONS - 1);
    var kept := LastN(alive, MAX_SESSIONS - 1);
    var i: nat :| PlacedAt(kept, e, n, i);
    PutKeepsPlace(kept, token, now + SESSION_TTL_MS, i);
    assert PlacedAt(Put(kept, token, now + SESSION_TTL_MS), e, n + 1, i);
  }

  /** The operation neither revokes nor reissues the session, nor sees a clock at which it has ended. */
  predicate Spares(op: Op, e: Entry<int>) {
    match op
    case IssueOp(token, now) => token != e.key && now < e.value
    case RevokeOp(session) => session != e.key
    case CheckOp(session, now) => session == e.key ==> now < e.value
    case _ => true
  }

  function Issued(ops: seq<Op>): nat {
    if ops == [] then 0 else Issued(ops[..|ops| - 1]) + (if ops[|ops| - 1].IssueOp? then 1 else 0)
  }

  lemma StepSpares(t: Timed, limits: Limits, op: Op, e: Entry<int>, n: nat)
    requires SessionsSound(t.accounts) && Placed(t.accounts.sessions, e, n) && Spares(op, e)
    requires op.IssueOp? ==> n < 1023
    ensures Placed(Next(t, limits, op).accounts.sessions, e, if op.IssueOp? then n + 1 else n)
  {
    match op
    case IssueOp(token, now) => IssueKeepsPlace(t.accounts, token, now, e, n);
    case RevokeOp(session) => FilterKeepsPlace(t.accounts.sessions, e, n, OtherThan(session));
    case CheckOp(session, now) =>
      var i: nat :| PlacedAt(t.accounts.sessions, e, n, i);
      GetAt(t.accounts.sessions, i);
      if session != e.key {
        FilterKeepsPlace(t.accounts.sessions, e, n, OtherThan(session));
      }
    case _ =>
  }

  lemma {:induction false} SessionStays(limits: Limits, before: seq<Op>, rest: seq<Op>, e: Entry<int>)
    requires After(limits, before).Some? && After(limits, before + rest).Some?
    requires Placed(After(limits, before).value.accounts.sessions, e, 0)
    requires (forall k :: 0 <= k < |rest| ==> Spares(rest[k], e)) && Issued(rest) <= 1023
    ensures Placed(After(limits, before + rest).value.accounts.sessions, e, Issued(rest))
    decreases |rest|
  {
    if rest == [] {
      assert before + rest == before;
    } else {
      var front, op := rest[..|rest| - 1], rest[|rest| - 1];
      assert before + rest == (before + front) + [op];
      var t := LastOp(limits, before + front, op);
      SessionStays(limits, before, front, e);
      EveryRunIsSound(limits, before + front);
      StepSpares(t, limits, op, e, Issued(front));
    }
  }

  /**
   In every run a session issued under a fresh token is valid exactly until 86,400,000 ms are over, whatever happens
   meanwhile, unless it is revoked, its token is issued again, an operation sees a later clock, or more than 1023 sessions
   are issued behind it.
   */
  lemma SessionLastsExactly(limits: Limits, front: seq<Op>, token: string, at: nat, rest: seq<Op>, later: nat)
    requires After(limits, front + [IssueOp(token, at)] + rest).Some?
    requires After(limits, front).Some? && Absent(After(limits, front).value.accounts.sessions, token)
    requires forall k :: 0 <= k < |rest| ==> Spares(rest[k], Entry(token, at + 86_400_000))
    requires Issued(rest) <= 1023
    ensures IsValid(After(limits, front + [IssueOp(token, at)] + rest).value.accounts, token, later)
            <==> later < at + 86_400_000
  {
    var e := Entry(token, at + 86_400_000);
    var before := front + [IssueOp(token, at)];
    RunsArePrefixed(limits, before, rest);
    var t := LastOp(limits, front, IssueOp(token, at));
    FreshIsLast(t.accounts, token, at);
    SessionStays(limits, before, rest, e);
    var a := After(limits, before + rest).value.accounts;
    EveryRunIsSound(limits, before + rest);
    var i: nat :| PlacedAt(a.sessions, e, Issued(rest), i);
    GetAt(a.sessions, i);
  }

  lemma FreshIsLast(a: Accounts, token: string, at: nat)
    requires Absent(a.sessions, token)
    ensures Placed(Issue(a, token, at).sessions, Entry(token, at + 86_400_000), 0)
  {
    var alive := Unexpired(a.sessions, at);
    FilterMembers(a.sessions, ExpiresAfter(at));
    forall k | 0 <= k < |alive| ensures alive[k].key != token {
      assert alive[k] in alive;
    }
    var kept := LastN(alive, MAX_SESSIONS - 1);
    PutFresh(kept, token, at + SESSION_TTL_MS);
    assert PlacedAt(Issue(a, token, at).sessions, Entry(token, at + 86_400_000), 0, |kept|);
  }

  lemma {:induction false} RunsArePrefixed(limits: Limits, before: seq<Op>, rest: seq<Op>)
    requires After(limits, before + rest).Some?
    ensures After(limits, before).Some?
    decreases |rest|
  {
    if rest == [] {
      assert before + rest == before;
    } else {
      var n := |rest| - 1;
      assert before + rest == (before + rest[..n]) + [rest[n]];
      assert (before + rest)[..|before + rest| - 1] == before + rest[..n];
      RunsArePrefixed(limits, before, rest[..n]);
    }
  }

  // ---------------------------------------------------------------- attempts

  lemma {:induction false} PutAt<V>(m: seq<Entry<V>>, key: string, value: V, k: nat)
    requires Keyed(m) && k < |m| && m[k].key == key
    ensures Put(m, key, value) == m[k := Entry(key, value)]
  {
    var n := |m| - 1;
    if k < n {
      GetAt(m[..n], k);
      PutAt(m[..n], key, value, k);
    }
  }

  /** An accepted attempt of a known source stays in its place; it is its recent attempts and the new one. */
  lemma KnownSourceStays(a: Accounts, source: string, now: nat, k: nat)
    requires SourcesSound(a) && k < |a.attempts| && a.attempts[k].key == source && Admits(a, source, now)
    ensures var recent := Filter(a.attempts[k].value, (at: int) => at > now - 60_000);
            Attempt(a, source, now) == a.(attempts := a.attempts[k := Entry(source, recent + [now])])
  {
    GetAt(a.attempts, k);
    PutAt(a.attempts, source, Recent(a, source, now) + [now], k);
    SamePointwise(a.attempts[k].value, Counts(now), (at: int) => at > now - 60_000);
  }

  /** A new source comes last, and the one that came first leaves exactly when there are 1024 already. */
  lemma FirstSourceLeaves(a: Accounts, source: string, now: nat)
    requires SourcesSound(a) && Absent(a.attempts, source)
    ensures Admits(a, source, now)
    ensures Attempt(a, source, now)
            == a.(attempts := (if |a.attempts| == 1024 then a.attempts[1..] else a.attempts) + [Entry(source, [now])])
  {
    GetNoneAbsent(a.attempts, source);
    assert Recent(a, source, now) == [] && [] + [now] == [now];
    if |a.attempts| == 1024 {
      OldestLeaves(a.attempts);
      PutFresh(a.attempts[1..], source, [now]);
    } else {
      PutFresh(a.attempts, source, [now]);
    }
  }

  function Within(now: int): int -> bool {
    (at: int) => at > now - 60_000
  }

  lemma OldOnesDrop(times: seq<int>, kept: nat, now: int)
    requires kept <= |times| && LeftWindow(times, kept, now)
    ensures |Filter(times, Within(now))| == |Filter(times[|times| - kept..], Within(now))|
  {
    var n := |times| - kept;
    assert times == times[..n] + times[n..];
    FilterConcat(times[..n], times[n..], Within(now));
    FilterNone(times[..n], Within(now));
  }

  /** In every run an attempt is accepted exactly when fewer than twenty accepted ones lie less than a minute back. */
  lemma AttemptAcceptedExactly(limits: Limits, ops: seq<Op>, source: string, now: nat)
    requires After(limits, ops).Some? && After(limits, ops).value.clock <= now
    ensures Admits(After(limits, ops).value.accounts, source, now)
            <==> |Filter(AcceptedTimes(limits, ops, source), Within(now))| < 20
  {
    AttemptsAreTracked(limits, ops, source);
    var a, times := After(limits, ops).value.accounts, AcceptedTimes(limits, ops, source);
    var stored := Stored(a, source);
    SamePointwise(stored, Counts(now), Within(now));
    if times != [] {
      StillLeft(times, |stored|, times[|times| - 1], now);
      OldOnesDrop(times, |stored|, now);
    }
  }

  lemma StillLeft(times: seq<int>, kept: nat, earlier: int, now: int)
    requires LeftWindow(times, kept, earlier) && earlier <= now
    ensures LeftWindow(times, kept, now)
  {
  }

  /** A refused source is refused until the twentieth-last accepted attempt is a minute old, and no longer. */
  lemma RefusedUntilExactly(limits: Limits, ops: seq<Op>, source: string, now: nat, later: nat)
    requires After(limits, ops).Some? && After(limits, ops).value.clock <= now <= later
    requires RetryAfter(After(limits, ops).value.accounts, source, now).Some?
    ensures var a, times := After(limits, ops).value.accounts, AcceptedTimes(limits, ops, source);
            && |times| >= 20
            && (Admits(a, source, later) <==> times[|times| - 20] + 60_000 <= later)
            && var told := RetryAfter(a, source, now).value;
               told >= 1 && times[|times| - 20] + 60_000 <= now + 1000 * told
               && (told > 1 ==> now + 1000 * (told - 1) < times[|times| - 20] + 60_000)
  {
    AttemptsAreTracked(limits, ops, source);
    var a, times := After(limits, ops).value.accounts, AcceptedTimes(limits, ops, source);
    var stored := Stored(a, source);
    StoredBounds(a, source, times);
    FullStoredIs(stored, now);
    assert stored[0] == times[|times| - 20];
    FullAdmits(stored, later);
    ToldIsLeast(stored[0], now);
  }

  lemma FullStoredIs(stored: seq<int>, now: nat)
    requires Ascending(stored) && |stored| <= 20 <= |Filter(stored, Counts(now))|
    ensures |stored| == 20 && Filter(stored, Counts(now)) == stored && stored[0] + 60_000 > now
  {
    FilterMembers(stored, Counts(now));
    RecentIsSuffix(stored, now);
    assert Filter(stored, Counts(now)) == stored;
    assert stored[0] in stored;
  }

  lemma FullAdmits(stored: seq<int>, later: nat)
    requires Ascending(stored) && |stored| == 20
    ensures |Filter(stored, Counts(later))| < 20 <==> stored[0] + 60_000 <= later
  {
    if stored[0] + 60_000 <= later {
      FilterMembers(stored, Counts(later));
      if |Filter(stored, Counts(later))| == 20 {
        FullStoredIs(stored, later);
      }
    } else {
      forall i | 0 <= i < |stored| ensures Counts(later)(stored[i]) {
        assert stored[0] <= stored[i];
      }
      FilterAll(stored, Counts(later));
    }
  }

  lemma ToldIsLeast(oldest: int, now: nat)
    requires oldest + 60_000 > now
    ensures var told := WaitSeconds(oldest, now);
            && told >= 1 && oldest + 60_000 <= now + 1000 * told
            && (told > 1 ==> now + 1000 * (told - 1) < oldest + 60_000)
  {
  }

  // ---------------------------------------------------------------- streams

  /** In every run the process cap stands against all streams and the session's cap against its own. */
  lemma RegistersExactly(limits: Limits, ops: seq<Op>, session: string)
    requires After(limits, ops).Some?
    ensures var a := After(limits, ops).value.accounts;
            && (Verdict(a, limits, session) == ProcessFull <==> Total(a.streams) == limits.maxStreams)
            && (Verdict(a, limits, session) == SessionFull <==>
                  Total(a.streams) < limits.maxStreams && session != ""
                  && |StreamsOf(a, session)| == limits.maxStreamsPerSession)
  {
    EveryRunIsSound(limits, ops);
    OwnStreamsFit(After(limits, ops).value.accounts, limits, session);
  }

  lemma OwnStreamsFit(a: Accounts, limits: Limits, session: string)
    requires StreamsSound(a, limits)
    ensures session != "" ==> |StreamsOf(a, session)| <= limits.maxStreamsPerSession
  {
  }

  /** Registering and unregistering change only the streams of their session, and the second undoes the first. */
  lemma UnregisterUndoes(a: Accounts, limits: Limits, session: string, response: Response, other: string)
    requires StreamsSound(a, limits) && response !in StreamsOf(a, session) && Verdict(a, limits, session) == Accepted
    ensures var next := Register(a, limits, session, response);
            && Unregister(next, session, response) == a
            && StreamsOf(next, other) == (if other == session then StreamsOf(a, other) + {response} else StreamsOf(a, other))
            && Total(next.streams) == Total(a.streams) + 1
  {
    var next := Register(a, limits, session, response);
    RegisterKeepsStreams(a, limits, session, response);
    assert StreamsOf(a, session) + {response} - {response} == StreamsOf(a, session);
    if session in a.streams {
      assert a.streams[session := next.streams[session]][session := a.streams[session]] == a.streams;
    } else {
      assert a.streams[session := {response}] - {session} == a.streams;
    }
  }

  /** Unregistering removes exactly this stream. */
  lemma UnregistersExactly(a: Accounts, limits: Limits, session: string, response: Response, other: string)
    requires StreamsSound(a, limits)
    ensures var next := Unregister(a, session, response);
            && StreamsOf(next, other) == (if other == session then StreamsOf(a, other) - {response} else StreamsOf(a, other))
            && Total(next.streams) == Total(a.streams) - (if response in StreamsOf(a, session) then 1 else 0)
  {
    UnregisterKeepsStreams(a, limits, session, response);
    if response in StreamsOf(a, session) {
      TotalUpdate(a.streams, session, a.streams[session]);
    }
  }
}
