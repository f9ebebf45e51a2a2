/**
 Log pagination. The daemon and the API each page a newest-first list of log entries with a compound
 `millis:offset` cursor; both are proved against one position-based reading of that cursor, and following
 the cursors is proved to enumerate the list exactly once.
 */
module LogPager {
  import opened Prelude
  import opened Sorting
  import Decimal

  const MAX_LOG_PAGE_SIZE: nat := 500

  datatype LogEntry = LogEntry(id: string, timestamp: nat, container: string, message: string)

  /** A boundary millisecond and how many entries at that millisecond were already emitted. */
  datatype LogCursor = LogCursor(millis: nat, offset: nat)

  // ---------------------------------------------------------------- cursor text

  function ParseCursor(value: string): Option<LogCursor> {
    var parts := match Decimal.SplitOnce(value, ':')
      case Some(pair) => pair
      case None => (value, "");
    match Decimal.ParseUnsigned(parts.0, U64_MAX)
    case None => None
    case Some(millis) =>
      if parts.1 == "" then Some(LogCursor(millis, 0))
      else match Decimal.ParseUnsigned(parts.1, U64_MAX)
        case None => None
        case Some(offset) => Some(LogCursor(millis, offset))
  }

  function PrintCursor(cursor: LogCursor): string {
    Decimal.Print(cursor.millis) + [':'] + Decimal.Print(cursor.offset)
  }

  /** What the source's integer types can hold. */
  predicate FitsCursor(cursor: LogCursor) {
    cursor.millis <= U64_MAX && cursor.offset <= U64_MAX
  }

  lemma CursorRoundTrip(cursor: LogCursor)
    requires FitsCursor(cursor)
    ensures ParseCursor(PrintCursor(cursor)) == Some(cursor)
  {
    var m, o := Decimal.Print(cursor.millis), Decimal.Print(cursor.offset);
    Decimal.DigitsAvoid(m, ':');
    Decimal.SplitOnceJoined(m, ':', o);
    Decimal.ParsePrinted(cursor.millis, U64_MAX);
    Decimal.ParsePrinted(cursor.offset, U64_MAX);
  }

  /** The API's request contract for a cursor: `digits` or `digits:digits`. */
  predicate CursorGrammar(value: string) {
    match Decimal.SplitOnce(value, ':')
    case None => value != "" && Decimal.AllDigits(value)
    case Some((a, b)) => a != "" && b != "" && Decimal.AllDigits(a) && Decimal.AllDigits(b)
  }

  predicate Digits(s: string) {
    s != "" && forall i :: 0 <= i < |s| ==> '0' <= s[i] <= '9'
  }

  /** A request may name digits, or digits, a colon and digits, and nothing else. */
  lemma CursorGrammarExactly(value: string)
    ensures CursorGrammar(value) <==> Digits(value) || exists a, b :: Digits(a) && Digits(b) && value == a + [':'] + b
  {
    forall t: string ensures Digits(t) <==> t != "" && Decimal.AllDigits(t) {
      DigitsAre(t);
    }
    match Decimal.SplitOnce(value, ':')
    case Some((a, b)) =>
      Decimal.SplitOnceParts(value, ':', a, b);
      assert value[|a|] == ':';
      assert Digits(a) && Digits(b) ==> value == a + [':'] + b;
    case None => assert forall i :: 0 <= i < |value| ==> value[i] != ':';
    if a, b :| Digits(a) && Digits(b) && value == a + [':'] + b {
      Decimal.DigitsAvoid(a, ':');
      Decimal.SplitOnceJoined(a, ':', b);
    }
  }

  lemma DigitsAre(s: string)
    ensures Digits(s) <==> s != "" && Decimal.AllDigits(s)
  {
  }

  /** JavaScript's `value.split(":", 2)` with a default second part, read with `Number`. Exact below 2^53. */
  function JsCursor(value: string): (cursor: LogCursor)
    requires CursorGrammar(value)
  {
    match Decimal.SplitOnce(value, ':')
    case None => LogCursor(Decimal.Value(value), 0)
    case Some((a, b)) => LogCursor(Decimal.Value(a), Decimal.Value(b))
  }

  /** Both implementations read the same cursor out of every accepted string that fits a safe integer. */
  lemma CursorReadersAgree(value: string)
    requires CursorGrammar(value)
    requires JsCursor(value).millis <= MAX_SAFE_INTEGER && JsCursor(value).offset <= MAX_SAFE_INTEGER
    ensures ParseCursor(value) == Some(JsCursor(value))
  {
    match Decimal.SplitOnce(value, ':')
    case None =>
      assert Decimal.IsDigit(value[0]);
    case Some((a, b)) =>
      assert Decimal.IsDigit(a[0]) && Decimal.IsDigit(b[0]);
  }

  lemma PrintedCursorGrammar(cursor: LogCursor)
    ensures CursorGrammar(PrintCursor(cursor)) && JsCursor(PrintCursor(cursor)) == cursor
  {
    var m, o := Decimal.Print(cursor.millis), Decimal.Print(cursor.offset);
    Decimal.DigitsAvoid(m, ':');
    Decimal.SplitOnceJoined(m, ':', o);
    Decimal.ValueOfPrint(cursor.millis);
    Decimal.ValueOfPrint(cursor.offset);
  }

  /** The request contract also admits at most 32 characters. */
  predicate RequestAdmits(value: string) {
    |value| <= 32 && CursorGrammar(value)
  }

  ghost predicate DigitsFit(cursor: LogCursor, k: nat) {
    1 <= k <= 30 && cursor.millis < Decimal.Pow10(k) && cursor.offset < Decimal.Pow10(31 - k)
  }

  /** A printed cursor can be sent back exactly when its two numbers have at most 31 digits together. */
  lemma PrintedCursorAdmittedExactly(cursor: LogCursor)
    ensures RequestAdmits(PrintCursor(cursor)) <==> exists k :: DigitsFit(cursor, k)
  {
    PrintedCursorGrammar(cursor);
    var m, o := Decimal.Print(cursor.millis), Decimal.Print(cursor.offset);
    assert |PrintCursor(cursor)| == |m| + 1 + |o|;
    if |PrintCursor(cursor)| <= 32 {
      Decimal.PrintLength(cursor.millis, |m|);
      Decimal.PrintLength(cursor.offset, 31 - |m|);
      assert DigitsFit(cursor, |m|);
    }
    if k: nat :| DigitsFit(cursor, k) {
      Decimal.PrintLength(cursor.millis, k);
      Decimal.PrintLength(cursor.offset, 31 - k);
    }
  }

  // ---------------------------------------------------------------- the list being paged

  function NewestFirst(): (LogEntry, LogEntry) -> bool {
    (a: LogEntry, b: LogEntry) => a.timestamp >= b.timestamp
  }

  lemma NewestFirstTotalPreorder()
    ensures TotalPreorder(NewestFirst())
  {
    forall a: LogEntry, b: LogEntry ensures TotalAt(NewestFirst(), a, b) {
    }
    forall a: LogEntry, b: LogEntry, c: LogEntry ensures TransitiveAt(NewestFirst(), a, b, c) {
    }
  }

  ghost predicate Descending(list: seq<LogEntry>) {
    forall i, j :: 0 <= i < j < |list| ==> list[i].timestamp >= list[j].timestamp
  }

  /** The matching entries, newest first, stream order kept within a millisecond. */
  function Listing(entries: seq<LogEntry>, matches: LogEntry -> bool): seq<LogEntry> {
    Sort(Filter(entries, matches), NewestFirst())
  }

  lemma ListingDescending(entries: seq<LogEntry>, matches: LogEntry -> bool)
    ensures Descending(Listing(entries, matches))
  {
    NewestFirstTotalPreorder();
    var kept := Filter(entries, matches);
    SortSorted(kept, NewestFirst());
    forall i, j | 0 <= i < j < |Listing(entries, matches)|
      ensures Listing(entries, matches)[i].timestamp >= Listing(entries, matches)[j].timestamp
    {
      assert NewestFirst()(Listing(entries, matches)[i], Listing(entries, matches)[j]);
    }
  }

  /** A listing rearranges the matching entries, newest first, and keeps stream order inside every millisecond. */
  lemma ListingIsStable(entries: seq<LogEntry>, matches: LogEntry -> bool, millis: nat)
    ensures multiset(Listing(entries, matches)) == multiset(Filter(entries, matches))
    ensures Descending(Listing(entries, matches))
    ensures var same := (e: LogEntry) => e.timestamp == millis;
            Filter(Listing(entries, matches), same) == Filter(Filter(entries, matches), same)
  {
    var kept := Filter(entries, matches);
    var same := (e: LogEntry) => e.timestamp == millis;
    SortMultiset(kept, NewestFirst());
    ListingDescending(entries, matches);
    NewestFirstTotalPreorder();
    FilterSort(kept, NewestFirst(), same);
    FilterMembers(kept, same);
    var equals := Filter(kept, same);
    forall i | 0 <= i < |equals| ensures equals[i].timestamp == millis {
      assert equals[i] in equals;
    }
    SortOfEquals(equals, millis);
  }

  lemma InsertBehind(front: seq<LogEntry>, e: LogEntry)
    requires front != [] ==> front[|front| - 1].timestamp >= e.timestamp
    ensures Insert(front, e, NewestFirst()) == front + [e]
  {
  }

  lemma {:induction false} SortOfEquals(s: seq<LogEntry>, millis: nat)
    requires forall i :: 0 <= i < |s| ==> s[i].timestamp == millis
    ensures Sort(s, NewestFirst()) == s
  {
    if s != [] {
      var n := |s| - 1;
      SortOfEquals(s[..n], millis);
      InsertBehind(s[..n], s[n]);
      assert s == s[..n] + [s[n]];
    }
  }

  /** How many entries are newer than a millisecond, and how many carry it. */
  function Newer(list: seq<LogEntry>, millis: nat): nat {
    if list == [] then 0 else Newer(list[..|list| - 1], millis) + (if list[|list| - 1].timestamp > millis then 1 else 0)
  }

  function AtMillis(list: seq<LogEntry>, millis: nat): nat {
    if list == [] then 0
    else AtMillis(list[..|list| - 1], millis) + (if list[|list| - 1].timestamp == millis then 1 else 0)
  }

  lemma {:induction false} RunPositions(list: seq<LogEntry>, millis: nat)
    requires Descending(list)
    ensures Newer(list, millis) + AtMillis(list, millis) <= |list|
    ensures forall i :: 0 <= i < |list| ==> (list[i].timestamp > millis <==> i < Newer(list, millis))
    ensures forall i :: 0 <= i < |list| ==>
                          (list[i].timestamp >= millis <==> i < Newer(list, millis) + AtMillis(list, millis))
  {
    if list != [] {
      var n := |list| - 1;
      RunPositions(list[..n], millis);
      if n > 0 {
        assert list[..n][n - 1].timestamp >= list[n].timestamp;
      }
    }
  }

  /** Where the page behind a cursor starts: past the newer entries and the emitted part of the run. */
  function ResumeIndex(list: seq<LogEntry>, cursor: Option<LogCursor>): nat {
    match cursor
    case None => 0
    case Some(c) => Newer(list, c.millis) + Min(c.offset, AtMillis(list, c.millis))
  }

  /** The cursor that names position `p`: its last emitted millisecond and how much of that run is emitted. */
  function CursorAt(list: seq<LogEntry>, p: nat): LogCursor
    requires 0 < p <= |list|
  {
    var millis := list[p - 1].timestamp;
    LogCursor(millis, AtMillis(list[..p], millis))
  }

  lemma {:induction false} CountPrefix(list: seq<LogEntry>, p: nat, millis: nat)
    requires p <= |list|
    ensures AtMillis(list[..p], millis) <= AtMillis(list, millis)
    ensures Newer(list[..p], millis) <= Newer(list, millis)
  {
    if p < |list| {
      var n := |list| - 1;
      assert list[..n][..p] == list[..p];
      CountPrefix(list[..n], p, millis);
    } else {
      assert list[..p] == list;
    }
  }

  /** A cursor cut at position `p` resumes at exactly `p`. */
  lemma ResumeAtCut(list: seq<LogEntry>, p: nat)
    requires Descending(list) && 0 < p <= |list|
    ensures ResumeIndex(list, Some(CursorAt(list, p))) == p
  {
    var millis := list[p - 1].timestamp;
    RunPositions(list, millis);
    RunPositions(list[..p], millis);
    CountPrefix(list, p, millis);
    var prefix := list[..p];
    assert prefix[p - 1].timestamp == millis;
    assert Newer(prefix, millis) + AtMillis(prefix, millis) == p;
    assert Newer(list, millis) < p;
    var newer := Newer(prefix, millis);
    assert newer < p ==> prefix[newer] == list[newer];
  }

  /** One page: what it holds, and the cursor behind it. */
  datatype Page = Page(entries: seq<LogEntry>, next: Option<LogCursor>)

  function Bounded(limit: nat): (r: nat)
    ensures 1 <= r <= MAX_LOG_PAGE_SIZE
  {
    Max(1, Min(MAX_LOG_PAGE_SIZE, limit))
  }

  lemma ResumeIndexInRange(list: seq<LogEntry>, cursor: Option<LogCursor>)
    requires Descending(list)
    ensures ResumeIndex(list, cursor) <= |list|
  {
    if cursor.Some? {
      RunPositions(list, cursor.value.millis);
    }
  }

  /** The page of a newest-first list behind a cursor, read by position. */
  function PageFrom(list: seq<LogEntry>, cursor: Option<LogCursor>, limit: nat): Page {
    var start := Min(ResumeIndex(list, cursor), |list|);
    var end := start + Bounded(limit);
    if end < |list| then Page(list[start..end], Some(CursorAt(list, end))) else Page(list[start..], None)
  }

  function PageOf(entries: seq<LogEntry>, matches: LogEntry -> bool, cursor: Option<LogCursor>, limit: nat): Page {
    PageFrom(Listing(entries, matches), cursor, limit)
  }

  /** The cursor as it crosses the wire. */
  function PrintedNext(next: Option<LogCursor>): Option<string> {
    match next
    case None => None
    case Some(cursor) => Some(PrintCursor(cursor))
  }

  function At(millis: nat): LogEntry -> bool {
    (e: LogEntry) => e.timestamp == millis
  }

  function OlderThan(millis: nat): LogEntry -> bool {
    (e: LogEntry) => e.timestamp < millis
  }

  /** What a cursor has not emitted yet. */
  function Behind(list: seq<LogEntry>, cursor: Option<LogCursor>): seq<LogEntry> {
    list[Min(ResumeIndex(list, cursor), |list|)..]
  }

  lemma {:induction false} FilterSwap(s: seq<LogEntry>, p: LogEntry -> bool, q: LogEntry -> bool)
    ensures Filter(Filter(s, p), q) == Filter(Filter(s, q), p)
  {
    if s != [] {
      var n := |s| - 1;
      FilterSwap(s[..n], p, q);
      FilterAppend(Filter(s[..n], p), s[n], q);
      FilterAppend(Filter(s[..n], q), s[n], p);
      if !p(s[n]) {
        assert Filter(s, p) == Filter(s[..n], p);
      }
      if !q(s[n]) {
        assert Filter(s, q) == Filter(s[..n], q);
      }
    }
  }

  function NewerThan(millis: nat): LogEntry -> bool {
    (e: LogEntry) => e.timestamp > millis
  }

  lemma NothingKept(front: seq<LogEntry>, x: LogEntry, p: LogEntry -> bool)
    requires forall i :: 0 <= i < |front| ==> front[i].timestamp >= x.timestamp
    requires forall e: LogEntry :: p(e) ==> e.timestamp < x.timestamp
    ensures Filter(front, p) == []
  {
    FilterNone(front, p);
  }

  lemma FrontIsNewer(list: seq<LogEntry>, front: seq<LogEntry>, x: LogEntry)
    requires list == front + [x] && Descending(list)
    ensures Descending(front) && forall i :: 0 <= i < |front| ==> front[i].timestamp >= x.timestamp
  {
    assert list[|front|] == x;
    assert forall i :: 0 <= i < |front| ==> front[i] == list[i];
  }

  lemma OneMorePart<T>(front: seq<T>, x: T, a: seq<T>, b: seq<T>, c: seq<T>, inNewer: bool, inRun: bool)
    requires front == a + b + c
    requires inNewer ==> b == [] && c == []
    requires inRun ==> c == []
    ensures front + [x] == if inNewer then (a + [x]) + b + c else if inRun then a + (b + [x]) + c else a + b + (c + [x])
  {
  }

  lemma SplitLast<T>(s: seq<T>) returns (front: seq<T>, last: T)
    requires s != []
    ensures s == front + [last]
  {
    front, last := s[..|s| - 1], s[|s| - 1];
  }

  /** A newest-first list is what is newer, then the run of a millisecond, then what is older. */
  ghost predicate InParts(list: seq<LogEntry>, millis: nat, newer: seq<LogEntry>, run: seq<LogEntry>, older: seq<LogEntry>) {
    list == newer + run + older && |newer| == Newer(list, millis) && |run| == AtMillis(list, millis)
  }

  lemma CountsGrow(list: seq<LogEntry>, front: seq<LogEntry>, x: LogEntry, millis: nat)
    requires list == front + [x]
    ensures Newer(list, millis) == Newer(front, millis) + (if x.timestamp > millis then 1 else 0)
    ensures AtMillis(list, millis) == AtMillis(front, millis) + (if x.timestamp == millis then 1 else 0)
  {
    assert list[..|list| - 1] == front;
  }

  lemma InPartsStep(list: seq<LogEntry>, front: seq<LogEntry>, x: LogEntry, millis: nat, a: seq<LogEntry>, b: seq<LogEntry>,
                    c: seq<LogEntry>)
    requires list == front + [x] && InParts(front, millis, a, b, c)
    requires x.timestamp > millis ==> b == [] && c == []
    requires x.timestamp == millis ==> c == []
    ensures InParts(list, millis, a + if x.timestamp > millis then [x] else [], b + if x.timestamp == millis then [x] else [],
                    c + if x.timestamp < millis then [x] else [])
  {
    OneMorePart(front, x, a, b, c, x.timestamp > millis, x.timestamp == millis);
    CountsGrow(list, front, x, millis);
  }

  lemma {:induction false} RunAndOlder(list: seq<LogEntry>, millis: nat, newer: seq<LogEntry>, run: seq<LogEntry>,
                                       older: seq<LogEntry>)
    requires Descending(list) && newer == Filter(list, NewerThan(millis)) && run == Filter(list, At(millis))
    requires older == Filter(list, OlderThan(millis))
    ensures InParts(list, millis, newer, run, older)
  {
    if list != [] {
      var front, x := SplitLast(list);
      var a, b, c := Filter(front, NewerThan(millis)), Filter(front, At(millis)), Filter(front, OlderThan(millis));
      FrontIsNewer(list, front, x);
      RunAndOlder(front, millis, a, b, c);
      PartsEmpty(front, x, millis);
      PartsGrow(list, front, x, millis);
      InPartsStep(list, front, x, millis, a, b, c);
    }
  }

  lemma PartsEmpty(front: seq<LogEntry>, x: LogEntry, millis: nat)
    requires forall i :: 0 <= i < |front| ==> front[i].timestamp >= x.timestamp
    ensures x.timestamp >= millis ==> Filter(front, OlderThan(millis)) == []
    ensures x.timestamp > millis ==> Filter(front, At(millis)) == []
  {
    if x.timestamp >= millis {
      NothingKept(front, x, OlderThan(millis));
    }
    if x.timestamp > millis {
      NothingKept(front, x, At(millis));
    }
  }

  lemma PartsGrow(list: seq<LogEntry>, front: seq<LogEntry>, x: LogEntry, millis: nat)
    requires list == front + [x]
    ensures Filter(list, NewerThan(millis)) == Filter(front, NewerThan(millis)) + (if x.timestamp > millis then [x] else [])
    ensures Filter(list, At(millis)) == Filter(front, At(millis)) + (if x.timestamp == millis then [x] else [])
    ensures Filter(list, OlderThan(millis)) == Filter(front, OlderThan(millis)) + (if x.timestamp < millis then [x] else [])
  {
    FilterAppend(front, x, NewerThan(millis));
    FilterAppend(front, x, At(millis));
    FilterAppend(front, x, OlderThan(millis));
  }

  /** In a listing, the run of a millisecond is its matching entries in stream order, and the older part lists the older. */
  lemma ListingParts(entries: seq<LogEntry>, matches: LogEntry -> bool, millis: nat)
    ensures Filter(Listing(entries, matches), At(millis)) == Filter(Filter(entries, At(millis)), matches)
    ensures Filter(Listing(entries, matches), OlderThan(millis)) == Listing(Filter(entries, OlderThan(millis)), matches)
  {
    var kept := Filter(entries, matches);
    NewestFirstTotalPreorder();
    FilterSort(kept, NewestFirst(), At(millis));
    FilterMembers(kept, At(millis));
    var equals := Filter(kept, At(millis));
    forall i | 0 <= i < |equals| ensures equals[i].timestamp == millis {
      assert equals[i] in equals;
    }
    SortOfEquals(equals, millis);
    FilterSwap(entries, matches, At(millis));
    FilterSort(kept, NewestFirst(), OlderThan(millis));
    FilterSwap(entries, matches, OlderThan(millis));
  }

  lemma CutInRun<T>(newer: seq<T>, run: seq<T>, older: seq<T>, skip: nat)
    requires skip <= |run|
    ensures (newer + run + older)[|newer| + skip..] == run[skip..] + older
  {
  }

  lemma BehindParts(list: seq<LogEntry>, cursor: LogCursor, run: seq<LogEntry>, older: seq<LogEntry>)
    requires Descending(list) && run == Filter(list, At(cursor.millis)) && older == Filter(list, OlderThan(cursor.millis))
    ensures |run| == AtMillis(list, cursor.millis)
    ensures Behind(list, Some(cursor)) == run[Min(cursor.offset, |run|)..] + older
  {
    var newer := Filter(list, NewerThan(cursor.millis));
    RunAndOlder(list, cursor.millis, newer, run, older);
    CutInRun(newer, run, older, Min(cursor.offset, |run|));
  }

  // ---------------------------------------------------------------- how much a page holds

  /** How many matching entries a cursor leaves: the older ones, and those of its millisecond past its offset. */
  function Left(entries: seq<LogEntry>, matches: LogEntry -> bool, cursor: Option<LogCursor>): nat {
    var kept := Filter(entries, matches);
    match cursor
    case None => |kept|
    case Some(c) => |Filter(kept, OlderThan(c.millis))| + SaturatingSub(|Filter(kept, At(c.millis))|, c.offset)
  }

  lemma SortKeepsCount(kept: seq<LogEntry>, p: LogEntry -> bool)
    ensures |Filter(Sort(kept, NewestFirst()), p)| == |Filter(kept, p)|
    ensures |Sort(kept, NewestFirst())| == |kept|
  {
    SortMultiset(kept, NewestFirst());
    FilterMultiset(Sort(kept, NewestFirst()), kept, p);
    assert |multiset(Sort(kept, NewestFirst()))| == |multiset(kept)|;
    assert |multiset(Filter(Sort(kept, NewestFirst()), p))| == |multiset(Filter(kept, p))|;
  }

  lemma LeftIsBehind(entries: seq<LogEntry>, matches: LogEntry -> bool, cursor: Option<LogCursor>, list: seq<LogEntry>)
    requires list == Listing(entries, matches)
    ensures |Behind(list, cursor)| == Left(entries, matches, cursor)
  {
    var kept := Filter(entries, matches);
    match cursor
    case None => SortKeepsCount(kept, matches);
    case Some(c) =>
      ListingDescending(entries, matches);
      SortKeepsCount(kept, OlderThan(c.millis));
      SortKeepsCount(kept, At(c.millis));
      BehindParts(list, c, Filter(list, At(c.millis)), Filter(list, OlderThan(c.millis)));
  }

  lemma PageTakes(list: seq<LogEntry>, cursor: Option<LogCursor>, limit: nat, clamped: nat)
    requires Descending(list) && clamped == (if limit < 1 then 1 else if limit > 500 then 500 else limit)
    ensures var page, rest := PageFrom(list, cursor, limit), Behind(list, cursor);
            && page.entries == rest[..Min(clamped, |rest|)]
            && (page.next.None? <==> |rest| <= clamped)
  {
    ResumeIndexInRange(list, cursor);
  }

  /** A page holds as many of the entries its cursor leaves as the clamped limit admits, and a cursor follows exactly when some are left. */
  lemma PageHolds(entries: seq<LogEntry>, matches: LogEntry -> bool, cursor: Option<LogCursor>, limit: nat)
    ensures var page, left := PageOf(entries, matches, cursor, limit), Left(entries, matches, cursor);
            var clamped := if limit < 1 then 1 else if limit > 500 then 500 else limit;
            && |page.entries| == Min(clamped, left) && (page.next.None? <==> left <= clamped)
  {
    ListingDescending(entries, matches);
    LeftIsBehind(entries, matches, cursor, Listing(entries, matches));
    PageTakes(Listing(entries, matches), cursor, limit, if limit < 1 then 1 else if limit > 500 then 500 else limit);
  }

  /** The page's entries are the first ones behind the cursor: the rest of its millisecond in stream order, then the older. */
  lemma PageIsNext(entries: seq<LogEntry>, matches: LogEntry -> bool, cursor: LogCursor, limit: nat, run: seq<LogEntry>,
                   older: seq<LogEntry>)
    requires run == Filter(Filter(entries, At(cursor.millis)), matches)
    requires older == Listing(Filter(entries, OlderThan(cursor.millis)), matches)
    ensures PageOf(entries, matches, Some(cursor), limit).entries <= run[Min(cursor.offset, |run|)..] + older
  {
    var list := Listing(entries, matches);
    ListingDescending(entries, matches);
    ListingParts(entries, matches, cursor.millis);
    BehindParts(list, cursor, run, older);
    PageTakes(list, Some(cursor), limit, if limit < 1 then 1 else if limit > 500 then 500 else limit);
  }

  // ---------------------------------------------------------------- the two implementations

  method MatchingEntries(entries: seq<LogEntry>, matches: LogEntry -> bool) returns (kept: seq<LogEntry>)
    ensures kept == Filter(entries, matches)
  {
    kept := [];
    for i := 0 to |entries|
      invariant kept == Filter(entries[..i], matches)
    {
      FilterAppend(entries[..i], entries[i], matches);
      assert entries[..i + 1] == entries[..i] + [entries[i]];
      if matches(entries[i]) {
        kept := kept + [entries[i]];
      }
    }
    assert entries[..|entries|] == entries;
  }

  lemma SliceGrows<T>(list: seq<T>, start: nat, i: nat)
    requires i < |list|
    ensures i >= start ==> list[start..i] + [list[i]] == list[start..i + 1]
    ensures i == start ==> list[start..i] == []
  {
  }

  /** The in-order filter both implementations run behind a cursor. */
  method DropEmitted(list: seq<LogEntry>, cursor: LogCursor) returns (rest: seq<LogEntry>)
    requires Descending(list)
    ensures ResumeIndex(list, Some(cursor)) <= |list|
    ensures rest == list[ResumeIndex(list, Some(cursor))..]
  {
    RunPositions(list, cursor.millis);
    ghost var newer := Newer(list, cursor.millis);
    ghost var start := ResumeIndex(list, Some(cursor));
    rest := [];
    var sameTimestampSeen := 0;
    for i := 0 to |list|
      invariant sameTimestampSeen == SaturatingSub(Min(i, newer + AtMillis(list, cursor.millis)), newer)
      invariant rest == if i <= start then [] else list[start..i]
    {
      SliceGrows(list, start, i);
      if list[i].timestamp < cursor.millis {
        rest := rest + [list[i]];
      } else if list[i].timestamp == cursor.millis {
        if sameTimestampSeen >= cursor.offset {
          rest := rest + [list[i]];
        }
        sameTimestampSeen := sameTimestampSeen + 1;
      }
    }
  }

  /** `position` and `findIndex` of the page's oldest millisecond. */
  method FirstAtTimestamp(page: seq<LogEntry>, millis: nat) returns (first: nat)
    requires page != [] && page[|page| - 1].timestamp == millis
    ensures first < |page| && page[first].timestamp == millis
    ensures forall k :: 0 <= k < first ==> page[k].timestamp != millis
  {
    first := 0;
    while page[first].timestamp != millis
      invariant first < |page|
      invariant forall k :: 0 <= k < first ==> page[k].timestamp != millis
      decreases |page| - first
    {
      first := first + 1;
    }
  }

  /** The arithmetic both implementations use for the next offset counts the emitted part of the run. */
  lemma NextOffset(list: seq<LogEntry>, cursor: Option<LogCursor>, limit: nat, first: nat)
    requires Descending(list) && limit > 0
    requires var start := ResumeIndex(list, cursor); start + limit <= |list| && first < limit
    requires var start := ResumeIndex(list, cursor);
             var millis := list[start + limit - 1].timestamp;
             && list[start + first].timestamp == millis
             && (forall k :: start <= k < start + first ==> list[k].timestamp != millis)
    ensures var start := ResumeIndex(list, cursor);
            var millis := list[start + limit - 1].timestamp;
            var previously := if cursor.Some? && cursor.value.millis == millis then cursor.value.offset else 0;
            CursorAt(list, start + limit) == LogCursor(millis, previously + limit - first)
  {
    var end := ResumeIndex(list, cursor) + limit;
    NewerBefore(list, cursor, end, first);
    RunPositions(list[..end], list[end - 1].timestamp);
    assert list[..end][end - 1] == list[end - 1];
  }

  /** What lies before the run of the page's last millisecond, computed from the incoming offset. */
  lemma NewerBefore(list: seq<LogEntry>, cursor: Option<LogCursor>, end: nat, first: nat)
    requires Descending(list)
    requires var start := ResumeIndex(list, cursor); start + first < end <= |list|
    requires var start := ResumeIndex(list, cursor);
             && list[start + first].timestamp == list[end - 1].timestamp
             && (first > 0 ==> list[start + first - 1].timestamp != list[end - 1].timestamp)
    ensures var millis := list[end - 1].timestamp;
            var previously := if cursor.Some? && cursor.value.millis == millis then cursor.value.offset else 0;
            Newer(list[..end], millis) == ResumeIndex(list, cursor) + first - previously
  {
    var start := ResumeIndex(list, cursor);
    var millis := list[end - 1].timestamp;
    var prefix := list[..end];
    if cursor.Some? {
      RunPositions(list, cursor.value.millis);
      assert list[start].timestamp <= cursor.value.millis;
      assert start > 0 ==> cursor.value.millis <= list[start - 1].timestamp;
    }
    var i := if first == 0 && cursor.Some? && cursor.value.millis == millis then Newer(list, millis) else start + first;
    assert prefix[i] == list[i];
    assert i > 0 ==> prefix[i - 1] == list[i - 1];
    NewerIs(prefix, millis, i);
  }

  /** The newer entries end where the first entry at or before the millisecond stands. */
  lemma NewerIs(list: seq<LogEntry>, millis: nat, i: nat)
    requires Descending(list) && i < |list| && list[i].timestamp <= millis
    requires i > 0 ==> list[i - 1].timestamp > millis
    ensures Newer(list, millis) == i
  {
    RunPositions(list, millis);
  }

  lemma NextCursor(list: seq<LogEntry>, cursor: Option<LogCursor>, limit: nat, rest: seq<LogEntry>, first: nat)
    requires Descending(list) && ResumeIndex(list, cursor) <= |list| && rest == list[ResumeIndex(list, cursor)..]
    requires |rest| > Bounded(limit) && first < Bounded(limit)
    requires var millis := rest[Bounded(limit) - 1].timestamp;
             rest[first].timestamp == millis && forall k :: 0 <= k < first ==> rest[k].timestamp != millis
    ensures var millis := rest[Bounded(limit) - 1].timestamp;
            var previously := if cursor.Some? && cursor.value.millis == millis then cursor.value.offset else 0;
            PageFrom(list, cursor, limit)
            == Page(rest[..Bounded(limit)], Some(LogCursor(millis, previously + Bounded(limit) - first)))
  {
    var start := ResumeIndex(list, cursor);
    forall k | start <= k < start + first ensures list[k].timestamp != rest[Bounded(limit) - 1].timestamp {
      assert list[k] == rest[k - start];
    }
    NextOffset(list, cursor, Bounded(limit), first);
    assert list[start..start + Bounded(limit)] == rest[..Bounded(limit)];
  }

  /** The daemon's pager behind its filter and sort. */
  method CutPage(list: seq<LogEntry>, cursor: Option<LogCursor>, limit: nat)
    returns (page: seq<LogEntry>, next: Option<LogCursor>)
    requires Descending(list)
    ensures Page(page, next) == PageFrom(list, cursor, limit)
  {
    var bound := Max(1, Min(MAX_LOG_PAGE_SIZE, limit));
    var rest := list;
    if cursor.Some? {
      rest := DropEmitted(list, cursor.value);
    }
    var hasMore := |rest| > bound;
    next := None;
    if hasMore {
      var boundary := rest[bound - 1];
      var firstAtBoundary := FirstAtTimestamp(rest[..bound], boundary.timestamp);
      NextCursor(list, cursor, limit, rest, firstAtBoundary);
      var previouslyEmitted :=
        if cursor.Some? && cursor.value.millis == boundary.timestamp then cursor.value.offset else 0;
      next := Some(LogCursor(boundary.timestamp, previouslyEmitted + bound - firstAtBoundary));
    }
    page := if hasMore then rest[..bound] else rest;
  }

  /** The daemon's pager. */
  method PageLogEntries(entries: seq<LogEntry>, matches: LogEntry -> bool, cursor: Option<LogCursor>, limit: nat)
    returns (page: seq<LogEntry>, nextCursor: Option<string>)
    ensures page == PageOf(entries, matches, cursor, limit).entries
    ensures nextCursor == PrintedNext(PageOf(entries, matches, cursor, limit).next)
    ensures |page| == Min(Left(entries, matches, cursor), if limit < 1 then 1 else if limit > 500 then 500 else limit)
    ensures nextCursor.None? <==> Left(entries, matches, cursor) == |page|
  {
    PageHolds(entries, matches, cursor, limit);
    var kept := MatchingEntries(entries, matches);
    ListingDescending(entries, matches);
    var next;
    page, next := CutPage(Sort(kept, NewestFirst()), cursor, limit);
    nextCursor := PrintedNext(next);
  }

  /** The API's pager behind its filter, sort and cursor parsing. */
  method PublishPage(list: seq<LogEntry>, cursor: Option<LogCursor>, limit: nat)
    returns (page: seq<LogEntry>, next: Option<LogCursor>)
    requires Descending(list)
    ensures Page(page, next) == PageFrom(list, cursor, limit)
  {
    var filtered := list;
    if cursor.Some? {
      filtered := DropEmitted(filtered, cursor.value);
    }
    var boundedLimit := Max(1, Min(MAX_LOG_PAGE_SIZE, limit));
    var hasMore := |filtered| > boundedLimit;
    // `slice` stops at the end of the list.
    page := if hasMore then filtered[..boundedLimit] else filtered;
    next := None;
    if hasMore {
      var boundary := page[|page| - 1];
      var firstAtBoundary := FirstAtTimestamp(page, boundary.timestamp);
      NextCursor(list, cursor, limit, filtered, firstAtBoundary);
      // Without a cursor the source reads "" as 0 and its missing offset as "0".
      var previous := if cursor.Some? then cursor.value else LogCursor(0, 0);
      var previouslyEmitted := if previous.millis == boundary.timestamp then previous.offset else 0;
      next := Some(LogCursor(boundary.timestamp, previouslyEmitted + |page| - firstAtBoundary));
    }
  }

  /** The API's pager, which keeps the cursor as text. */
  method PublishLogsResponse(entries: seq<LogEntry>, matches: LogEntry -> bool, cursor: Option<string>, limit: nat)
    returns (page: seq<LogEntry>, nextCursor: Option<string>)
    requires cursor.Some? ==> CursorGrammar(cursor.value)
    ensures var parsed := if cursor.Some? then Some(JsCursor(cursor.value)) else None;
            && page == PageOf(entries, matches, parsed, limit).entries
            && nextCursor == PrintedNext(PageOf(entries, matches, parsed, limit).next)
            && |page| == Min(Left(entries, matches, parsed), if limit < 1 then 1 else if limit > 500 then 500 else limit)
            && (nextCursor.None? <==> Left(entries, matches, parsed) == |page|)
  {
    PageHolds(entries, matches, if cursor.Some? then Some(JsCursor(cursor.value)) else None, limit);
    var kept := MatchingEntries(entries, matches);
    ListingDescending(entries, matches);
    var parsed := if cursor.Some? then Some(JsCursor(cursor.value)) else None;
    var next;
    page, next := PublishPage(Sort(kept, NewestFirst()), parsed, limit);
    nextCursor := PrintedNext(next);
  }

  /** On one cursor text, the two pagers return one page and one next cursor. */
  method PagersAgree(entries: seq<LogEntry>, matches: LogEntry -> bool, cursor: Option<string>, limit: nat)
    returns (daemon: (seq<LogEntry>, Option<string>), api: (seq<LogEntry>, Option<string>))
    requires cursor.Some? ==> CursorGrammar(cursor.value)
    requires cursor.Some? ==>
               JsCursor(cursor.value).millis <= MAX_SAFE_INTEGER && JsCursor(cursor.value).offset <= MAX_SAFE_INTEGER
    ensures daemon == api
  {
    var parsed: Option<LogCursor> := None;
    if cursor.Some? {
      CursorReadersAgree(cursor.value);
      parsed := ParseCursor(cursor.value);
    }
    var p, n := PageLogEntries(entries, matches, parsed, limit);
    var q, m := PublishLogsResponse(entries, matches, cursor, limit);
    daemon, api := (p, n), (q, m);
  }

  // ---------------------------------------------------------------- following the cursors

  /** One request of a client that follows cursors: the log as it then was, and the limit asked for. */
  datatype Request = Request(entries: seq<LogEntry>, limit: nat)

  /** The cursor a client holds after `requests`, having sent back each printed cursor it received. */
  function Held(requests: seq<Request>, matches: LogEntry -> bool): Option<LogCursor> {
    if requests == [] then None
    else
      var last := requests[|requests| - 1];
      match PrintedNext(PageOf(last.entries, matches, Held(requests[..|requests| - 1], matches), last.limit).next)
      case None => None
      case Some(text) => ParseCursor(text)
  }

  function PageReceived(requests: seq<Request>, matches: LogEntry -> bool): Page
    requires requests != []
  {
    var last := requests[|requests| - 1];
    PageOf(last.entries, matches, Held(requests[..|requests| - 1], matches), last.limit)
  }

  /** Everything received so far, page after page. */
  function Received(requests: seq<Request>, matches: LogEntry -> bool): seq<LogEntry> {
    if requests == [] then []
    else Received(requests[..|requests| - 1], matches) + PageReceived(requests, matches).entries
  }

  /**
   Every request after the first was made because the page before it carried a cursor, and between the two the log
   changed at most in entries newer than the cursor's millisecond, and in entries of that millisecond that come after
   those it already had.
   */
  ghost predicate Following(requests: seq<Request>, matches: LogEntry -> bool) {
    forall i :: 0 <= i < |requests| ==> FollowsAt(requests[..i], requests[i], matches)
  }

  predicate FollowsAt(front: seq<Request>, request: Request, matches: LogEntry -> bool) {
    FitsRequest(request) && (front != [] ==> Continues(front, request, matches))
  }

  predicate Continues(front: seq<Request>, request: Request, matches: LogEntry -> bool)
    requires front != []
  {
    && Held(front, matches).Some?
    && OnlyAppends(front[|front| - 1].entries, request.entries, Held(front, matches).value.millis)
  }

  predicate OnlyAppends(before: seq<LogEntry>, after: seq<LogEntry>, millis: nat) {
    && Filter(after, OlderThan(millis)) == Filter(before, OlderThan(millis))
    && Filter(before, At(millis)) <= Filter(after, At(millis))
  }

  /** The matching entries of a millisecond that were added behind those it already had. */
  function Added(before: seq<LogEntry>, after: seq<LogEntry>, matches: LogEntry -> bool, millis: nat): seq<LogEntry> {
    var had, has := Filter(before, At(millis)), Filter(after, At(millis));
    Filter(has[Min(|had|, |has|)..], matches)
  }

  /** The matching entries that arrived in the millisecond of a held cursor. */
  function LateEntries(requests: seq<Request>, matches: LogEntry -> bool): seq<LogEntry> {
    if |requests| < 2 then []
    else
      var n := |requests| - 1;
      LateEntries(requests[..n], matches)
      + match Held(requests[..n], matches)
        case None => []
        case Some(cursor) => Added(requests[n - 1].entries, requests[n].entries, matches, cursor.millis)
  }

  lemma FilterPrefix(had: seq<LogEntry>, has: seq<LogEntry>, matches: LogEntry -> bool)
    requires had <= has
    ensures Filter(has, matches) == Filter(had, matches) + Filter(has[Min(|had|, |has|)..], matches)
  {
    assert has == had + has[|had|..];
    FilterConcat(had, has[|had|..], matches);
  }

  /** What was added to the millisecond stands at the end of its run, and the older part is the same. */
  lemma RunGrows(before: seq<LogEntry>, after: seq<LogEntry>, matches: LogEntry -> bool, millis: nat,
                 run: seq<LogEntry>, older: seq<LogEntry>)
    requires OnlyAppends(before, after, millis)
    requires run == Filter(Listing(before, matches), At(millis))
    requires older == Filter(Listing(before, matches), OlderThan(millis))
    ensures Filter(Listing(after, matches), At(millis)) == run + Added(before, after, matches, millis)
    ensures Filter(Listing(after, matches), OlderThan(millis)) == older
  {
    ListingParts(before, matches, millis);
    ListingParts(after, matches, millis);
    FilterPrefix(Filter(before, At(millis)), Filter(after, At(millis)), matches);
  }

  lemma PartsAre(list: seq<LogEntry>, millis: nat)
    ensures forall e :: e in Filter(list, At(millis)) ==> e.timestamp == millis
    ensures forall e :: e in Filter(list, OlderThan(millis)) ==> e.timestamp < millis
  {
    FilterMembers(list, At(millis));
    FilterMembers(list, OlderThan(millis));
  }

  /** How the remainder behind a cursor changes: what was added to its millisecond stands between run and older part. */
  lemma RemainderGrows(before: seq<LogEntry>, after: seq<LogEntry>, matches: LogEntry -> bool, cursor: LogCursor,
                       added: seq<LogEntry>) returns (run: seq<LogEntry>, older: seq<LogEntry>)
    requires OnlyAppends(before, after, cursor.millis) && added == Added(before, after, matches, cursor.millis)
    requires cursor.offset <= AtMillis(Listing(before, matches), cursor.millis)
    ensures Behind(Listing(before, matches), Some(cursor)) == run + older
    ensures Behind(Listing(after, matches), Some(cursor)) == run + added + older
    ensures forall e :: e in run ==> e.timestamp == cursor.millis
    ensures forall e :: e in older ==> e.timestamp < cursor.millis
  {
    var a, b, millis := Listing(before, matches), Listing(after, matches), cursor.millis;
    var whole := Filter(a, At(millis));
    older := Filter(a, OlderThan(millis));
    ListingDescending(before, matches);
    ListingDescending(after, matches);
    RunGrows(before, after, matches, millis, whole, older);
    BehindParts(a, cursor, whole, older);
    BehindParts(b, cursor, whole + added, older);
    run := whole[cursor.offset..];
    DropFront(whole, added, cursor.offset);
    PartsAre(a, millis);
    SuffixMembers(whole, cursor.offset);
  }

  lemma SuffixMembers<T>(s: seq<T>, i: nat)
    requires i <= |s|
    ensures forall x :: x in s[i..] ==> x in s
  {
  }

  lemma DropFront<T>(a: seq<T>, b: seq<T>, i: nat)
    requires i <= |a|
    ensures (a + b)[i..] == a[i..] + b
  {
  }

  predicate FitsRequest(request: Request) {
    |request.entries| <= U64_MAX && forall e :: e in request.entries ==> e.timestamp <= U64_MAX
  }

  lemma CutCursorFits(list: seq<LogEntry>, cursor: Option<LogCursor>, limit: nat)
    requires Descending(list) && |list| <= U64_MAX && forall e :: e in list ==> e.timestamp <= U64_MAX
    ensures PageFrom(list, cursor, limit).next.Some? ==> FitsCursor(PageFrom(list, cursor, limit).next.value)
  {
    var end := Min(ResumeIndex(list, cursor), |list|) + Bounded(limit);
    if end < |list| {
      assert list[end - 1] in list;
      RunPositions(list[..end], list[end - 1].timestamp);
    }
  }

  /** The cursor of a page comes back unchanged when the client returns its text. */
  lemma PageCursorReturns(request: Request, matches: LogEntry -> bool, cursor: Option<LogCursor>)
    requires FitsRequest(request)
    requires PageOf(request.entries, matches, cursor, request.limit).next.Some?
    ensures var next := PageOf(request.entries, matches, cursor, request.limit).next;
            ParseCursor(PrintCursor(next.value)) == next
  {
    SortMembers(Filter(request.entries, matches), NewestFirst());
    FilterMembers(request.entries, matches);
    ListingDescending(request.entries, matches);
    CutCursorFits(Listing(request.entries, matches), cursor, request.limit);
    CursorRoundTrip(PageOf(request.entries, matches, cursor, request.limit).next.value);
  }

  /** One page of a list: what it holds plus what its cursor leaves is what was left before. */
  lemma PageAdvances(list: seq<LogEntry>, cursor: Option<LogCursor>, limit: nat)
    requires Descending(list)
    ensures var page := PageFrom(list, cursor, limit);
            if page.next.None? then page.entries == Behind(list, cursor)
            else
              && page.entries != [] && Behind(list, page.next) != []
              && Behind(list, cursor) == page.entries + Behind(list, page.next)
  {
    ResumeIndexInRange(list, cursor);
    var start := ResumeIndex(list, cursor);
    var end := start + Bounded(limit);
    if end < |list| {
      ResumeAtCut(list, end);
      assert list[start..] == list[start..end] + list[end..];
    }
  }

  /** What is still to come for a client holding `held`; without a cursor, nothing. */
  function Outstanding(list: seq<LogEntry>, held: Option<LogCursor>): seq<LogEntry> {
    if held.None? then [] else Behind(list, held)
  }

  // ---------------------------------------------------------------- what a following client has received

  /** The elements of one sequence stand in another, in their order. */
  predicate Within<T(==)>(part: seq<T>, whole: seq<T>) {
    if part == [] then true
    else if whole == [] then false
    else if part[|part| - 1] == whole[|whole| - 1] then Within(part[..|part| - 1], whole[..|whole| - 1])
    else Within(part, whole[..|whole| - 1])
  }

  lemma {:induction false} WithinItself<T>(s: seq<T>)
    ensures Within(s, s)
  {
    if s != [] {
      WithinItself(s[..|s| - 1]);
    }
  }

  /** Dropping the last element of the part leaves it within. */
  lemma {:induction false} WithinFront<T>(part: seq<T>, whole: seq<T>)
    requires part != [] && Within(part, whole)
    ensures Within(part[..|part| - 1], whole)
    decreases |whole|, 0
  {
    var front := part[..|part| - 1];
    if part[|part| - 1] == whole[|whole| - 1] {
      WithinLonger(front, whole[..|whole| - 1], whole[|whole| - 1]);
      assert whole[..|whole| - 1] + [whole[|whole| - 1]] == whole;
    } else {
      WithinFront(part, whole[..|whole| - 1]);
      WithinLonger(front, whole[..|whole| - 1], whole[|whole| - 1]);
      assert whole[..|whole| - 1] + [whole[|whole| - 1]] == whole;
    }
  }

  lemma {:induction false} WithinLonger<T>(part: seq<T>, whole: seq<T>, x: T)
    requires Within(part, whole)
    ensures Within(part, whole + [x])
    decreases |whole|, 1
  {
    var longer := whole + [x];
    assert longer[..|longer| - 1] == whole;
    if part != [] && part[|part| - 1] == x {
      WithinFront(part, whole);
    }
  }

  /** What stands within a sequence still does when more is put somewhere into it. */
  lemma {:induction false} WithinInserted<T>(part: seq<T>, a: seq<T>, b: seq<T>, more: seq<T>)
    requires Within(part, a + b)
    ensures Within(part, a + more + b)
    decreases |b| + |more|
  {
    if b != [] {
      var n := |b| - 1;
      var whole, longer := a + b, a + more + b;
      assert whole[..|whole| - 1] == a + b[..n] && longer[..|longer| - 1] == a + more + b[..n];
      if part != [] && part[|part| - 1] == b[n] {
        WithinInserted(part[..|part| - 1], a, b[..n], more);
      } else if part != [] {
        WithinInserted(part, a, b[..n], more);
      }
    } else if more != [] {
      var n := |more| - 1;
      WithinInserted(part, a, b, more[..n]);
      WithinLonger(part, a + more[..n] + b, more[n]);
      assert a + more[..n] + b + [more[n]] == a + more + b;
    } else {
      assert a + more + b == a + b;
    }
  }

  lemma {:induction false} WithinIsShorter<T>(part: seq<T>, whole: seq<T>)
    requires Within(part, whole)
    ensures |part| <= |whole|
    ensures |part| == |whole| ==> part == whole
  {
    if part != [] {
      var p, w := part[..|part| - 1], whole[..|whole| - 1];
      if part[|part| - 1] == whole[|whole| - 1] {
        WithinIsShorter(p, w);
        assert part == p + [part[|part| - 1]] && whole == w + [whole[|whole| - 1]];
      } else {
        WithinIsShorter(part, w);
      }
    }
  }

  /**
   One sequence is the listing at the first request with the late entries put in: all of them once, newest first, and
   the listing in its own order.
   */
  ghost predicate Completes(total: seq<LogEntry>, listing: seq<LogEntry>, late: seq<LogEntry>) {
    && Within(listing, total) && Descending(total)
    && multiset(total) == multiset(listing) + multiset(late)
  }

  lemma CompletesMore(a: seq<LogEntry>, b: seq<LogEntry>, listing: seq<LogEntry>, late: seq<LogEntry>, more: seq<LogEntry>,
                      millis: nat)
    requires Completes(a + b, listing, late)
    requires forall e :: e in more ==> e.timestamp == millis
    requires forall e :: e in a ==> e.timestamp >= millis
    requires forall e :: e in b ==> e.timestamp < millis
    ensures Completes(a + more + b, listing, late + more)
  {
    WithinInserted(listing, a, b, more);
    InsertedDescends(a, b, more, millis);
    assert multiset(a + more + b) == multiset(a + b) + multiset(more);
    assert multiset(late + more) == multiset(late) + multiset(more);
  }

  lemma InsertedDescends(a: seq<LogEntry>, b: seq<LogEntry>, more: seq<LogEntry>, millis: nat)
    requires Descending(a + b)
    requires forall e :: e in more ==> e.timestamp == millis
    requires forall e :: e in a ==> e.timestamp >= millis
    requires forall e :: e in b ==> e.timestamp < millis
    ensures Descending(a + more + b)
  {
    var whole, longer := a + b, a + more + b;
    forall i, j | 0 <= i < j < |longer| ensures longer[i].timestamp >= longer[j].timestamp {
      if j < |a| {
        assert whole[i] == a[i] && whole[j] == a[j];
      } else if i >= |a| + |more| {
        assert whole[i - |more|] == longer[i] && whole[j - |more|] == longer[j];
      } else {
        assert longer[i] in a || longer[i] in more;
        assert longer[j] in more || longer[j] in b;
      }
    }
  }

  /** The state of a client: what it received, and the last entry's millisecond is the one its cursor names. */
  ghost predicate Followed(received: seq<LogEntry>, list: seq<LogEntry>, held: Option<LogCursor>, requests: nat) {
    && (requests > 1 ==> |received| >= requests)
    && (held.Some? ==>
      && |received| >= requests && received != [] && received[|received| - 1].timestamp == held.value.millis
      && held.value.offset <= AtMillis(list, held.value.millis)
      && Behind(list, held) != [])
  }

  lemma PageIsCut(list: seq<LogEntry>, cursor: Option<LogCursor>, limit: nat)
    requires Descending(list) && PageFrom(list, cursor, limit).next.Some?
    ensures var page := PageFrom(list, cursor, limit);
            && page.entries != [] && page.entries[|page.entries| - 1].timestamp == page.next.value.millis
            && page.next.value.offset <= AtMillis(list, page.next.value.millis)
  {
    ResumeIndexInRange(list, cursor);
    var end := ResumeIndex(list, cursor) + Bounded(limit);
    CountPrefix(list, end, list[end - 1].timestamp);
  }

  /** What the last request adds to what came before it. */
  lemma LastRequest(requests: seq<Request>, matches: LogEntry -> bool, front: seq<Request>, request: Request, list: seq<LogEntry>)
    requires requests == front + [request] && list == Listing(request.entries, matches)
    ensures var page := PageFrom(list, Held(front, matches), request.limit);
            && Received(requests, matches) == Received(front, matches) + page.entries
            && Held(requests, matches)
               == match PrintedNext(page.next) { case None => None case Some(text) => ParseCursor(text) }
  {
    assert requests[..|requests| - 1] == front;
  }

  lemma LateGrows(requests: seq<Request>, matches: LogEntry -> bool, front: seq<Request>, request: Request, cursor: LogCursor)
    requires requests == front + [request] && front != [] && Held(front, matches) == Some(cursor)
    ensures LateEntries(requests, matches)
            == LateEntries(front, matches)
               + Added(front[|front| - 1].entries, request.entries, matches, cursor.millis)
  {
    assert requests[..|requests| - 1] == front;
  }

  lemma FollowingFront(requests: seq<Request>, matches: LogEntry -> bool, front: seq<Request>, request: Request)
    requires requests == front + [request] && Following(requests, matches)
    ensures Following(front, matches)
  {
    forall i | 0 <= i < |front| ensures FollowsAt(front[..i], front[i], matches) {
      assert requests[..i] == front[..i] && requests[i] == front[i];
      assert FollowsAt(requests[..i], requests[i], matches);
    }
  }

  lemma FollowingLast(requests: seq<Request>, matches: LogEntry -> bool, front: seq<Request>, request: Request)
    requires requests == front + [request] && Following(requests, matches)
    ensures FollowsAt(front, request, matches)
  {
    assert requests[..|front|] == front && requests[|front|] == request;
    assert FollowsAt(requests[..|front|], requests[|front|], matches);
  }

  lemma StartsComplete(list: seq<LogEntry>)
    requires Descending(list)
    ensures Completes([] + Behind(list, None), list, [])
  {
    assert [] + Behind(list, None) == list;
    WithinItself(list);
  }

  /** A client after its requests: the listing it last saw, what it received, its cursor, and the late entries so far. */
  datatype Client = Client(list: seq<LogEntry>, received: seq<LogEntry>, held: Option<LogCursor>, late: seq<LogEntry>)

  function ClientOf(requests: seq<Request>, matches: LogEntry -> bool): Client
    requires requests != []
  {
    Client(Listing(requests[|requests| - 1].entries, matches), Received(requests, matches), Held(requests, matches),
           LateEntries(requests, matches))
  }

  /** What a client has received and what is still behind its cursor make up the first listing and the late entries. */
  ghost predicate Consistent(c: Client, first: seq<LogEntry>, requests: nat) {
    && Completes(c.received + Outstanding(c.list, c.held), first, c.late)
    && Followed(c.received, c.list, c.held, requests)
  }

  lemma PageIsTaken(requests: seq<Request>, matches: LogEntry -> bool, front: seq<Request>, request: Request,
                    first: seq<LogEntry>, c: Client)
    requires requests == front + [request] && FitsRequest(request) && c == ClientOf(requests, matches)
    requires |Received(front, matches)| >= |front| && (front != [] ==> Behind(c.list, Held(front, matches)) != [])
    requires Completes(Received(front, matches) + Behind(c.list, Held(front, matches)), first, c.late)
    ensures Consistent(c, first, |requests|)
  {
    ListingDescending(request.entries, matches);
    LastRequest(requests, matches, front, request, c.list);
    var page := PageFrom(c.list, Held(front, matches), request.limit);
    CursorIsReturned(request, matches, Held(front, matches), page.next);
    PageMoves(c.list, Held(front, matches), request.limit, Received(front, matches), |front|, page);
  }

  lemma FirstTaken(requests: seq<Request>, matches: LogEntry -> bool, request: Request, c: Client)
    requires requests == [request] && Following(requests, matches) && c == ClientOf(requests, matches)
    ensures Consistent(c, c.list, 1)
  {
    FollowingLast(requests, matches, [], request);
    ListingDescending(request.entries, matches);
    StartsComplete(c.list);
    PageIsTaken(requests, matches, [], request, c.list, c);
  }

  lemma NextTaken(requests: seq<Request>, matches: LogEntry -> bool, front: seq<Request>, request: Request,
                  first: seq<LogEntry>, before: Client, c: Client)
    requires requests == front + [request] && front != [] && Following(requests, matches)
    requires before == ClientOf(front, matches) && c == ClientOf(requests, matches)
    requires Consistent(before, first, |front|)
    ensures Consistent(c, first, |requests|)
  {
    FollowingLast(requests, matches, front, request);
    var cursor := before.held.value;
    LateGrows(requests, matches, front, request, cursor);
    LateArrives(front[|front| - 1].entries, request.entries, matches, cursor, before.received, first, before.late, |front|);
    PageIsTaken(requests, matches, front, request, first, c);
  }

  lemma {:induction false} FollowStep(requests: seq<Request>, matches: LogEntry -> bool, first: seq<LogEntry>, c: Client)
    requires requests != [] && Following(requests, matches) && c == ClientOf(requests, matches)
    requires first == Listing(requests[0].entries, matches)
    ensures Consistent(c, first, |requests|)
  {
    var front, request := SplitLast(requests);
    if front == [] {
      FirstTaken(requests, matches, request, c);
    } else {
      FollowingFront(requests, matches, front, request);
      var before := ClientOf(front, matches);
      FollowStep(front, matches, first, before);
      NextTaken(requests, matches, front, request, first, before, c);
    }
  }

  /** All that was received, and the rest of the run, is no older than the millisecond last received. */
  lemma ReceivedAreNewer(earlier: seq<LogEntry>, run: seq<LogEntry>, older: seq<LogEntry>, millis: nat)
    requires Descending((earlier + run) + older) && earlier != [] && earlier[|earlier| - 1].timestamp == millis
    requires forall e :: e in run ==> e.timestamp == millis
    ensures forall e :: e in earlier + run ==> e.timestamp >= millis
  {
    var total := (earlier + run) + older;
    forall e | e in earlier ensures e.timestamp >= millis {
      var i :| 0 <= i < |earlier| && earlier[i] == e;
      assert total[i] == e && total[|earlier| - 1] == earlier[|earlier| - 1];
    }
  }

  lemma LateIsAdded(earlier: seq<LogEntry>, run: seq<LogEntry>, older: seq<LogEntry>, added: seq<LogEntry>, millis: nat,
                    first: seq<LogEntry>, late: seq<LogEntry>)
    requires Completes(earlier + (run + older), first, late)
    requires earlier != [] && earlier[|earlier| - 1].timestamp == millis
    requires forall e :: e in run ==> e.timestamp == millis
    requires forall e :: e in added ==> e.timestamp == millis
    requires forall e :: e in older ==> e.timestamp < millis
    ensures Completes(earlier + (run + added + older), first, late + added)
  {
    assert earlier + (run + older) == (earlier + run) + older;
    assert earlier + (run + added + older) == (earlier + run) + added + older;
    ReceivedAreNewer(earlier, run, older, millis);
    CompletesMore(earlier + run, older, first, late, added, millis);
  }

  lemma LateArrives(before: seq<LogEntry>, after: seq<LogEntry>, matches: LogEntry -> bool, cursor: LogCursor,
                    earlier: seq<LogEntry>, first: seq<LogEntry>, late: seq<LogEntry>, requests: nat)
    requires OnlyAppends(before, after, cursor.millis)
    requires Completes(earlier + Behind(Listing(before, matches), Some(cursor)), first, late)
    requires Followed(earlier, Listing(before, matches), Some(cursor), requests)
    ensures Completes(earlier + Behind(Listing(after, matches), Some(cursor)), first,
                      late + Added(before, after, matches, cursor.millis))
    ensures Behind(Listing(after, matches), Some(cursor)) != []
  {
    var added := Added(before, after, matches, cursor.millis);
    var run, older := RemainderGrows(before, after, matches, cursor, added);
    AddedAt(before, after, matches, cursor.millis);
    LateIsAdded(earlier, run, older, added, cursor.millis, first, late);
  }

  lemma AddedAt(before: seq<LogEntry>, after: seq<LogEntry>, matches: LogEntry -> bool, millis: nat)
    ensures forall e :: e in Added(before, after, matches, millis) ==> e.timestamp == millis
  {
    var had, has := Filter(before, At(millis)), Filter(after, At(millis));
    FilterMembers(after, At(millis));
    FilterMembers(has[Min(|had|, |has|)..], matches);
    forall e | e in has[Min(|had|, |has|)..] ensures e.timestamp == millis {
      assert e in has;
    }
  }

  /** One page moves entries from behind the cursor to the received ones. */
  lemma PageMoves(list: seq<LogEntry>, cursor: Option<LogCursor>, limit: nat, earlier: seq<LogEntry>, requests: nat, page: Page)
    requires Descending(list) && |earlier| >= requests && page == PageFrom(list, cursor, limit)
    requires requests > 0 ==> Behind(list, cursor) != []
    ensures (earlier + page.entries) + Outstanding(list, page.next) == earlier + Behind(list, cursor)
    ensures Followed(earlier + page.entries, list, page.next, requests + 1)
  {
    PageAdvances(list, cursor, limit);
    if page.next.Some? {
      PageIsCut(list, cursor, limit);
      LastOfBoth(earlier, page.entries);
      Reassociate(earlier, page.entries, Behind(list, page.next));
    } else {
      Reassociate(earlier, page.entries, []);
    }
  }

  lemma LastOfBoth<T>(a: seq<T>, b: seq<T>)
    requires b != []
    ensures a + b != [] && (a + b)[|a + b| - 1] == b[|b| - 1]
  {
  }

  lemma CursorIsReturned(request: Request, matches: LogEntry -> bool, cursor: Option<LogCursor>, next: Option<LogCursor>)
    requires FitsRequest(request) && next == PageOf(request.entries, matches, cursor, request.limit).next
    ensures next == match PrintedNext(next) { case None => None case Some(text) => ParseCursor(text) }
  {
    if next.Some? {
      PageCursorReturns(request, matches, cursor);
    }
  }

  lemma Reassociate<T>(a: seq<T>, b: seq<T>, c: seq<T>)
    ensures a + (b + c) == (a + b) + c
  {
  }

  /**
   Following the cursors from none until none, whatever the limits, while entries newer than the held cursor's
   millisecond arrive and others are appended at that very millisecond: the listing of the first request is received
   in its order, every appended matching entry is received too, each of them exactly once, all newest first.
   */
  lemma FollowingReceivesLateEntries(requests: seq<Request>, matches: LogEntry -> bool)
    requires requests != [] && Following(requests, matches)
    ensures Held(requests, matches).None? ==>
              Completes(Received(requests, matches), Listing(requests[0].entries, matches), LateEntries(requests, matches))
  {
    var c := ClientOf(requests, matches);
    FollowStep(requests, matches, Listing(requests[0].entries, matches), c);
    assert c.received + [] == c.received;
  }

  function NotNewer(millis: nat): LogEntry -> bool {
    (e: LogEntry) => e.timestamp <= millis
  }

  lemma {:induction false} FilterNarrower(s: seq<LogEntry>, wide: LogEntry -> bool, narrow: LogEntry -> bool)
    requires forall e: LogEntry :: narrow(e) ==> wide(e)
    ensures Filter(Filter(s, wide), narrow) == Filter(s, narrow)
  {
    if s != [] {
      var front, x := s[..|s| - 1], s[|s| - 1];
      FilterNarrower(front, wide, narrow);
      if wide(x) {
        FilterAppend(Filter(front, wide), x, narrow);
      } else {
        assert Filter(s, wide) == Filter(front, wide);
      }
    }
  }

  /** A change among strictly newer entries is one of those allowed, and appends nothing at the millisecond. */
  lemma OnlyNewerAddsNothing(before: seq<LogEntry>, after: seq<LogEntry>, matches: LogEntry -> bool, millis: nat)
    requires Filter(after, NotNewer(millis)) == Filter(before, NotNewer(millis))
    ensures OnlyAppends(before, after, millis) && Added(before, after, matches, millis) == []
  {
    FilterNarrower(before, NotNewer(millis), OlderThan(millis));
    FilterNarrower(after, NotNewer(millis), OlderThan(millis));
    FilterNarrower(before, NotNewer(millis), At(millis));
    FilterNarrower(after, NotNewer(millis), At(millis));
  }

  /** Nothing was appended at the millisecond of a held cursor, as when only strictly newer entries arrive. */
  predicate NothingLate(requests: seq<Request>, matches: LogEntry -> bool) {
    LateEntries(requests, matches) == []
  }

  /**
   Following the cursors from none until none returns the filtered, stably sorted newest-first list exactly
   once and in order, whatever the limits, even if strictly newer entries arrive between the requests.
   */
  lemma FollowingIsComplete(requests: seq<Request>, matches: LogEntry -> bool)
    requires requests != [] && Following(requests, matches) && NothingLate(requests, matches)
    ensures Held(requests, matches).None? ==> Received(requests, matches) == Listing(requests[0].entries, matches)
    ensures Received(requests, matches) <= Listing(requests[0].entries, matches)
  {
    var listing, c := Listing(requests[0].entries, matches), ClientOf(requests, matches);
    FollowStep(requests, matches, listing, c);
    var total := c.received + Outstanding(c.list, c.held);
    TotalSize(total, listing, []);
    WithinIsShorter(listing, total);
  }

  /** Every page but the last makes progress, so following ends: at most one request per listed or late entry. */
  lemma FollowingTerminates(requests: seq<Request>, matches: LogEntry -> bool, first: seq<LogEntry>, late: seq<LogEntry>)
    requires requests != [] && Following(requests, matches)
    requires first == Listing(requests[0].entries, matches) && late == LateEntries(requests, matches)
    ensures |requests| <= Max(1, |first| + |late|)
  {
    var c := ClientOf(requests, matches);
    FollowStep(requests, matches, first, c);
    ConsistentSize(c, first, |requests|);
  }

  lemma ConsistentSize(c: Client, first: seq<LogEntry>, requests: nat)
    requires Consistent(c, first, requests)
    ensures requests <= Max(1, |first| + |c.late|)
  {
    TotalSize(c.received + Outstanding(c.list, c.held), first, c.late);
  }

  lemma TotalSize(total: seq<LogEntry>, a: seq<LogEntry>, b: seq<LogEntry>)
    requires multiset(total) == multiset(a) + multiset(b)
    ensures |total| == |a| + |b|
  {
    assert |multiset(total)| == |total| && |multiset(a)| == |a| && |multiset(b)| == |b|;
  }
}
