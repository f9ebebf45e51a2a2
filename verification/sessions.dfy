/** Browser sessions, their event streams and the session-attempt limiter of the API, as the module state it updates. */
module Sessions {
  import opened Prelude

  const SESSION_TTL_MS: nat := 86_400_000
  const MAX_SESSIONS: nat := 1024
  const ATTEMPT_WINDOW_MS: nat := 60_000
  const MAX_ATTEMPTS: nat := 20
  const MAX_SOURCES: nat := 1024

  // ---------------------------------------------------------------- maps in insertion order

  datatype Entry<+V> = Entry(key: string, value: V)

  predicate Keyed<V>(m: seq<Entry<V>>) {
    forall i, j :: 0 <= i < j < |m| ==> m[i].key != m[j].key
  }

  function Get<V>(m: seq<Entry<V>>, key: string): Option<V> {
    if m == [] then None
    else if m[|m| - 1].key == key then Some(m[|m| - 1].value)
    else Get(m[..|m| - 1], key)
  }

  predicate Absent<V>(m: seq<Entry<V>>, key: string) {
    forall i :: 0 <= i < |m| ==> m[i].key != key
  }

  function OtherThan<V>(key: string): Entry<V> -> bool {
    (e: Entry<V>) => e.key != key
  }

  function Delete<V>(m: seq<Entry<V>>, key: string): seq<Entry<V>> {
    Filter(m, OtherThan(key))
  }

  /** A new key goes last; a known key keeps its place. */
  function Put<V>(m: seq<Entry<V>>, key: string, value: V): seq<Entry<V>> {
    if m == [] then [Entry(key, value)]
    else if m[|m| - 1].key == key then m[..|m| - 1] + [Entry(key, value)]
    else if Get(m[..|m| - 1], key).Some? then Put(m[..|m| - 1], key, value) + [m[|m| - 1]]
    else m + [Entry(key, value)]
  }

  lemma {:induction false} GetPut<V>(m: seq<Entry<V>>, key: string, value: V, other: string)
    ensures Get(Put(m, key, value), other) == if other == key then Some(value) else Get(m, other)
    ensures |Put(m, key, value)| == |m| + (if Get(m, key).Some? then 0 else 1)
  {
    if m != [] {
      var n := |m| - 1;
      if m[n].key != key {
        if Get(m[..n], key).Some? {
          GetPut(m[..n], key, value, other);
        } else {
          assert (m + [Entry(key, value)])[..|m|] == m;
        }
      }
    }
  }

  lemma {:induction false} GetDelete<V>(m: seq<Entry<V>>, key: string, other: string)
    ensures Get(Delete(m, key), other) == if other == key then None else Get(m, other)
    ensures |Delete(m, key)| <= |m|
  {
    if m != [] {
      var n := |m| - 1;
      GetDelete(m[..n], key, other);
      if m[n].key != key {
        var kept := Delete(m, key);
        assert kept[..|kept| - 1] == Delete(m[..n], key);
      } else {
        assert Delete(m, key) == Delete(m[..n], key);
      }
    }
  }

  // ---------------------------------------------------------------- state and specification

  type Response = nat

  datatype Limits = Limits(maxStreams: nat, maxStreamsPerSession: nat)

  datatype Accounts = Accounts(
    sessions: seq<Entry<int>>,
    streams: map<string, set<Response>>,
    activeStreamCount: nat,
    attempts: seq<Entry<seq<int>>>)

  const NO_ACCOUNTS: Accounts := Accounts([], map[], 0, [])

  datatype Registration = Accepted | ProcessFull | SessionFull

  function Unexpired(sessions: seq<Entry<int>>, now: nat): seq<Entry<int>> {
    Filter(sessions, ExpiresAfter(now))
  }

  function ExpiresAfter(now: nat): Entry<int> -> bool {
    (e: Entry<int>) => e.value > now
  }

  /** Expired sessions go, then the oldest ones that leave no room, then the new one comes last. */
  function Issue(a: Accounts, token: string, now: nat): Accounts {
    a.(sessions := Put(LastN(Unexpired(a.sessions, now), MAX_SESSIONS - 1), token, now + SESSION_TTL_MS))
  }

  predicate IsValid(a: Accounts, session: string, now: nat) {
    Get(a.sessions, session).Some? && Get(a.sessions, session).value > now
  }

  /** Asking about an expired session revokes it. */
  function Check(a: Accounts, session: string, now: nat): Accounts {
    var expiresAt := Get(a.sessions, session);
    if expiresAt.Some? && expiresAt.value != 0 && expiresAt.value <= now then Revoke(a, session) else a
  }

  function Revoke(a: Accounts, session: string): Accounts {
    a.(sessions := Delete(a.sessions, session))
  }

  function StreamsOf(a: Accounts, session: string): set<Response> {
    if session in a.streams then a.streams[session] else {}
  }

  function Verdict(a: Accounts, limits: Limits, session: string): Registration {
    if a.activeStreamCount >= limits.maxStreams then ProcessFull
    else if session != "" && |StreamsOf(a, session)| >= limits.maxStreamsPerSession then SessionFull
    else Accepted
  }

  function Register(a: Accounts, limits: Limits, session: string, response: Response): Accounts {
    if Verdict(a, limits, session) != Accepted then a
    else a.(streams := a.streams[session := StreamsOf(a, session) + {response}],
            activeStreamCount := a.activeStreamCount + 1)
  }

  function Unregister(a: Accounts, session: string, response: Response): Accounts {
    if session !in a.streams then a
    else
      var left := a.streams[session] - {response};
      a.(streams := if left == {} then a.streams - {session} else a.streams[session := left],
         activeStreamCount := if response in a.streams[session] then SaturatingSub(a.activeStreamCount, 1)
                              else a.activeStreamCount)
  }

  function Stored(a: Accounts, source: string): seq<int> {
    match Get(a.attempts, source)
    case None => []
    case Some(times) => times
  }

  /** The attempts of a source that still count at `now`. */
  function Recent(a: Accounts, source: string, now: nat): seq<int> {
    Filter(Stored(a, source), Counts(now))
  }

  function Counts(now: nat): int -> bool {
    (at: int) => at + ATTEMPT_WINDOW_MS > now
  }

  predicate Admits(a: Accounts, source: string, now: nat) {
    |Recent(a, source, now)| < MAX_ATTEMPTS
  }

  /** The source an accepted attempt pushes out: the oldest, when a new source finds the table full. */
  function Evicted(a: Accounts, source: string): Option<string> {
    if Get(a.attempts, source).None? && |a.attempts| >= MAX_SOURCES && a.attempts[0].key != ""
    then Some(a.attempts[0].key) else None
  }

  function Attempt(a: Accounts, source: string, now: nat): Accounts {
    if !Admits(a, source, now) then a
    else
      var kept := match Evicted(a, source) { case Some(oldest) => Delete(a.attempts, oldest) case None => a.attempts };
      a.(attempts := Put(kept, source, Recent(a, source, now) + [now]))
  }

  // ---------------------------------------------------------------- the module state updated in place

  class SessionAccounting {
    const limits: Limits
    var sessions: seq<Entry<int>>
    var activeSessionStreams: map<string, set<Response>>
    var activeStreamCount: nat
    var sessionAttemptsBySource: seq<Entry<seq<int>>>

    constructor (limits: Limits)
      ensures this.limits == limits && State() == NO_ACCOUNTS
    {
      this.limits := limits;
      sessions, activeSessionStreams, activeStreamCount, sessionAttemptsBySource := [], map[], 0, [];
    }

    function State(): Accounts
      reads this
    {
      Accounts(sessions, activeSessionStreams, activeStreamCount, sessionAttemptsBySource)
    }

    method RevokeSession(session: string)
      modifies this`sessions
      ensures State() == Revoke(old(State()), session)
    {
      sessions := Delete(sessions, session);
    }

    method RevokeExpired(now: nat)
      requires Keyed(sessions)
      modifies this`sessions
      ensures sessions == Unexpired(old(sessions), now)
    {
      var snapshot := sessions;
      for i := 0 to |snapshot|
        invariant sessions == HalfExpired(snapshot, i, now)
      {
        ExpiryStep(snapshot, i, now);
        if snapshot[i].value <= now {
          RevokeSession(snapshot[i].key);
        }
      }
      assert snapshot[..|snapshot|] == snapshot;
    }

    method RevokeOldest()
      requires Keyed(sessions) && Absent(sessions, "")
      modifies this`sessions
      ensures sessions == LastN(old(sessions), MAX_SESSIONS - 1)
    {
      while |sessions| >= MAX_SESSIONS
        invariant Keyed(sessions) && Absent(sessions, "")
        invariant LastN(sessions, MAX_SESSIONS - 1) == LastN(old(sessions), MAX_SESSIONS - 1)
        decreases |sessions|
      {
        var oldest := sessions[0].key;
        if oldest == "" {
          break;
        }
        OldestGoes(sessions);
        LastNDrop(sessions, MAX_SESSIONS - 1);
        RevokeSession(oldest);
      }
    }

    /** Expired sessions are revoked, then the oldest until one more fits. */
    method IssueSession(token: string, now: nat)
      requires Keyed(sessions) && Absent(sessions, "")
      modifies this`sessions
      ensures State() == Issue(old(State()), token, now)
    {
      FilterKeyed(sessions, ExpiresAfter(now));
      RevokeExpired(now);
      RevokeOldest();
      sessions := Put(sessions, token, now + SESSION_TTL_MS);
    }

    method ValidSession(session: string, now: nat) returns (valid: bool)
      modifies this`sessions
      ensures valid <==> IsValid(old(State()), session, now)
      ensures State() == Check(old(State()), session, now)
    {
      var expiresAt := Get(sessions, session);
      if expiresAt.None? || expiresAt.value == 0 {
        return false;
      }
      if expiresAt.value <= now {
        RevokeSession(session);
        return false;
      }
      return true;
    }

    method RegisterSessionStream(session: string, response: Response) returns (registration: Registration)
      modifies this`activeSessionStreams, this`activeStreamCount
      ensures registration == Verdict(old(State()), limits, session)
      ensures State() == Register(old(State()), limits, session, response)
    {
      if activeStreamCount >= limits.maxStreams {
        return ProcessFull;
      }
      var streams := if session in activeSessionStreams then activeSessionStreams[session] else {};
      if session != "" && |streams| >= limits.maxStreamsPerSession {
        return SessionFull;
      }
      activeSessionStreams := activeSessionStreams[session := streams + {response}];
      activeStreamCount := activeStreamCount + 1;
      return Accepted;
    }

    method UnregisterSessionStream(session: string, response: Response)
      modifies this`activeSessionStreams, this`activeStreamCount
      ensures State() == Unregister(old(State()), session, response)
    {
      if session !in activeSessionStreams {
        return;
      }
      var streams := activeSessionStreams[session];
      if response in streams {
        activeStreamCount := SaturatingSub(activeStreamCount, 1);
      }
      streams := streams - {response};
      activeSessionStreams := activeSessionStreams[session := streams];
      if streams == {} {
        activeSessionStreams := activeSessionStreams - {session};
      }
      assert activeSessionStreams == Unregister(old(State()), session, response).streams;
    }

    /** A refusal comes with the seconds to wait and leaves everything as it was. */
    method LimitSessionAttempts(source: string, now: nat) returns (retryAfter: Option<nat>)
      modifies this`sessionAttemptsBySource
      ensures retryAfter == RetryAfter(old(State()), source, now)
      ensures State() == Attempt(old(State()), source, now)
    {
      var attempts := Recent(State(), source, now);
      if |attempts| >= MAX_ATTEMPTS {
        return RetryAfter(State(), source, now);
      }
      if Get(sessionAttemptsBySource, source).None? && |sessionAttemptsBySource| >= MAX_SOURCES {
        var oldestSource := sessionAttemptsBySource[0].key;
        if oldestSource != "" {
          sessionAttemptsBySource := Delete(sessionAttemptsBySource, oldestSource);
        }
      }
      sessionAttemptsBySource := Put(sessionAttemptsBySource, source, attempts + [now]);
      return None;
    }
  }

  /** Seconds until an attempt leaves the window, rounded up, at least one. */
  function WaitSeconds(oldest: int, now: nat): nat {
    Max(1, (oldest + ATTEMPT_WINDOW_MS - now + 999) / 1000)
  }

  function RetryAfter(a: Accounts, source: string, now: nat): Option<nat> {
    var recent := Recent(a, source, now);
    if |recent| < MAX_ATTEMPTS then None else Some(WaitSeconds(recent[0], now))
  }

  // ---------------------------------------------------------------- steps of the issuing loops

  lemma {:induction false} DeleteAbsent<V>(m: seq<Entry<V>>, key: string)
    requires Absent(m, key)
    ensures Delete(m, key) == m
  {
    if m != [] {
      DeleteAbsent(m[..|m| - 1], key);
    }
  }

  /** Deleting the key at one position of a keyed map removes that entry. */
  lemma DeleteAt<V>(front: seq<Entry<V>>, e: Entry<V>, rest: seq<Entry<V>>)
    requires Absent(front, e.key) && Absent(rest, e.key)
    ensures Delete(front + ([e] + rest), e.key) == front + rest
  {
    DeleteAbsent(front, e.key);
    DeleteAbsent(rest, e.key);
    FilterConcat(front, [e] + rest, OtherThan(e.key));
    FilterConcat([e], rest, OtherThan(e.key));
    assert Filter([e], OtherThan(e.key)) == [];
  }

  /** The sessions when the expiry loop has looked at the first `i` of them. */
  function HalfExpired(m: seq<Entry<int>>, i: nat, now: nat): seq<Entry<int>>
    requires i <= |m|
  {
    Unexpired(m[..i], now) + m[i..]
  }

  lemma ExpiryStep(m: seq<Entry<int>>, i: nat, now: nat)
    requires Keyed(m) && i < |m|
    ensures HalfExpired(m, i + 1, now)
            == if m[i].value > now then HalfExpired(m, i, now) else Delete(HalfExpired(m, i, now), m[i].key)
  {
    var kept := Unexpired(m[..i], now);
    assert m[..i + 1][..i] == m[..i];
    assert m[i..] == [m[i]] + m[i + 1..];
    if m[i].value > now {
      assert kept + ([m[i]] + m[i + 1..]) == (kept + [m[i]]) + m[i + 1..];
    } else {
      KeptAbsent(m, i, now, kept);
      DeleteAt(kept, m[i], m[i + 1..]);
    }
  }

  lemma KeptAbsent(m: seq<Entry<int>>, i: nat, now: nat, kept: seq<Entry<int>>)
    requires Keyed(m) && i < |m| && kept == Unexpired(m[..i], now)
    ensures Absent(kept, m[i].key)
  {
    FilterMembers(m[..i], ExpiresAfter(now));
    forall k | 0 <= k < |kept| ensures kept[k].key != m[i].key {
      assert kept[k] in kept;
      var j :| 0 <= j < i && m[..i][j] == kept[k];
    }
  }

  lemma {:induction false} FilterKeyed<V(!new)>(m: seq<Entry<V>>, p: Entry<V> -> bool)
    requires Keyed(m)
    ensures Keyed(Filter(m, p)) && forall key :: Absent(m, key) ==> Absent(Filter(m, p), key)
  {
    FilterMembers(m, p);
    if m != [] {
      var n := |m| - 1;
      FilterKeyed(m[..n], p);
      FilterMembers(m[..n], p);
      var kept := Filter(m[..n], p);
      forall k | 0 <= k < |kept| ensures kept[k].key != m[n].key {
        assert kept[k] in m[..n];
      }
    }
    forall key | Absent(m, key) ensures Absent(Filter(m, p), key) {
      forall k | 0 <= k < |Filter(m, p)| ensures Filter(m, p)[k].key != key {
        assert Filter(m, p)[k] in m;
      }
    }
  }

  lemma OldestGoes(m: seq<Entry<int>>)
    requires Keyed(m) && m != []
    ensures Delete(m, m[0].key) == m[1..] && Keyed(m[1..])
  {
    assert m == [] + ([m[0]] + m[1..]);
    DeleteAt([], m[0], m[1..]);
    assert [] + m[1..] == m[1..];
  }
}
