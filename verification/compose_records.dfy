/** What a planned edit asks for and produces, read off the texts themselves. */
module ComposeRecords {
  import opened Prelude
  import opened RuntimeModel
  import opened ComposeModel
  import opened TextLines
  import opened ComposeEdit
  import Decimal

  // ---------------------------------------------------------------- request values

  /** Between two slashes, or an end and a slash, there is exactly `part`. */
  ghost predicate HasComponent(path: string, part: string) {
    exists before, after :: ComponentAt(path, part, before, after)
  }

  predicate ComponentAt(path: string, part: string, before: string, after: string) {
    && path == before + part + after
    && (before == "" || before[|before| - 1] == '/') && (after == "" || after[0] == '/')
  }

  lemma SlashInside(first: string, rest: string)
    ensures '/' in first + ['/'] + rest
  {
    assert (first + ['/'] + rest)[|first|] == '/';
  }

  /** A text in front of a slash that contains none is what stands before the first slash. */
  lemma ComponentAtFront(part: string, after: string, first: string, rest: string)
    requires '/' !in part && '/' !in first && (after == "" || after[0] == '/')
    requires part + after == first + ['/'] + rest
    ensures first == part
  {
    Decimal.SplitOnceJoined(first, '/', rest);
    if after == "" {
      assert part + after == part;
      SlashInside(first, rest);
    } else {
      assert part + after == part + ['/'] + after[1..];
      Decimal.SplitOnceJoined(part, '/', after[1..]);
    }
  }

  /** A component that is not the first one lies behind the first slash. */
  lemma ComponentInFront(before: string, part: string, after: string, first: string, rest: string)
    requires '/' !in part && '/' !in first && before != "" && before[|before| - 1] == '/'
    requires (after == "" || after[0] == '/') && before + part + after == first + ['/'] + rest
    ensures HasComponent(rest, part)
  {
    var i := Decimal.IndexOf(before, '/');
    var lead, behind := before[..i], before[i + 1..];
    assert before == lead + ['/'] + behind;
    assert '/' !in lead;
    assert before + part + after == lead + ['/'] + (behind + part + after);
    Decimal.SplitOnceJoined(lead, '/', behind + part + after);
    Decimal.SplitOnceJoined(first, '/', rest);
    assert rest == behind + part + after;
    if behind != "" {
      assert behind[|behind| - 1] == before[|before| - 1];
    }
    assert ComponentAt(rest, part, behind, after);
  }

  lemma ComponentBehind(rest: string, part: string, first: string)
    requires HasComponent(rest, part)
    ensures HasComponent(first + ['/'] + rest, part)
  {
    var before, after :| ComponentAt(rest, part, before, after);
    assert first + ['/'] + rest == (first + ['/'] + before) + part + after;
    assert ComponentAt(first + ['/'] + rest, part, first + ['/'] + before, after);
  }

  lemma NoSlashParts(before: string, part: string, after: string)
    requires '/' !in before + part + after
    ensures '/' !in before && '/' !in after
  {
    forall i | 0 <= i < |before| ensures before[i] != '/' {
      assert (before + part + after)[i] == before[i];
    }
    forall i | 0 <= i < |after| ensures after[i] != '/' {
      assert (before + part + after)[|before| + |part| + i] == after[i];
    }
  }

  lemma NoSlashOneComponent(path: string, part: string)
    requires '/' !in path
    ensures HasComponent(path, part) <==> path == part
  {
    if before, after :| ComponentAt(path, part, before, after) {
      NoSlashParts(before, part, after);
    }
    if path == part {
      assert ComponentAt(path, part, "", "");
    }
  }

  /** A source is refused for traversal exactly when one of its components is `..`. */
  lemma {:induction false} TraversalExactly(path: string)
    ensures HasParentTraversal(path) <==> HasComponent(path, "..")
    decreases |path|
  {
    match Decimal.SplitOnce(path, '/')
    case None => NoSlashOneComponent(path, "..");
    case Some((first, rest)) =>
      Decimal.SplitOnceParts(path, '/', first, rest);
      assert '/' !in first;
      TraversalExactly(rest);
      if first == ".." {
        assert path == "" + ".." + (['/'] + rest);
        assert ComponentAt(path, "..", "", ['/'] + rest);
      }
      if HasComponent(rest, "..") {
        ComponentBehind(rest, "..", first);
      }
      if before, after :| ComponentAt(path, "..", before, after) {
        if before == "" {
          assert "" + ".." + after == ".." + after;
          ComponentAtFront("..", after, first, rest);
        } else {
          ComponentInFront(before, "..", after, first, rest);
        }
      }
  }

  predicate Blank(s: string) {
    forall i :: 0 <= i < |s| ==> IsSpace(s[i])
  }

  predicate Tight(s: string) {
    s != "" && !IsSpace(s[0]) && !IsSpace(s[|s| - 1])
  }

  lemma {:induction false} TrimLeftIs(before: string, t: string)
    requires Blank(before) && (t == "" || !IsSpace(t[0]))
    ensures TrimLeft(before + t) == t
  {
    if before == "" {
      assert before + t == t;
    } else {
      assert (before + t)[0] == before[0];
      assert (before + t)[1..] == before[1..] + t;
      TrimLeftIs(before[1..], t);
    }
  }

  lemma {:induction false} TrimRightIs(t: string, after: string)
    requires Blank(after) && (t == "" || !IsSpace(t[|t| - 1]))
    ensures TrimRight(t + after) == t
    decreases |after|
  {
    if after == "" {
      assert t + after == t;
    } else {
      var n := |after| - 1;
      assert (t + after)[|t + after| - 1] == after[n];
      assert (t + after)[..|t + after| - 1] == t + after[..n];
      TrimRightIs(t, after[..n]);
    }
  }

  lemma {:induction false} TrimLeftParts(s: string) returns (before: string, t: string)
    ensures s == before + t && Blank(before) && (t == "" || !IsSpace(t[0])) && t == TrimLeft(s)
  {
    if s != "" && IsSpace(s[0]) {
      var b;
      b, t := TrimLeftParts(s[1..]);
      before := [s[0]] + b;
      assert s == before + t;
    } else {
      before, t := "", s;
    }
  }

  lemma {:induction false} TrimRightParts(s: string) returns (t: string, after: string)
    ensures s == t + after && Blank(after) && (t == "" || !IsSpace(t[|t| - 1])) && t == TrimRight(s)
  {
    if s != "" && IsSpace(s[|s| - 1]) {
      var a;
      t, a := TrimRightParts(s[..|s| - 1]);
      after := a + [s[|s| - 1]];
      assert s == s[..|s| - 1] + [s[|s| - 1]];
      assert s == t + after;
    } else {
      t, after := s, "";
    }
  }

  predicate Padded(value: string, t: string, before: string, after: string) {
    value == before + (t + after) && Blank(before) && Blank(after)
  }

  /** A request value is what stands between white space, and no request when nothing does. */
  lemma CleanExactly(value: string, t: string)
    ensures Clean(Some(value)) == Some(t) <==> Tight(t) && exists before, after :: Padded(value, t, before, after)
    ensures Clean(Some(value)).None? <==> Blank(value)
  {
    var before, inner := TrimLeftParts(value);
    var kept, after := TrimRightParts(inner);
    if kept != "" {
      assert kept[0] == inner[0];
      assert Padded(value, kept, before, after);
      BlankParts(before, inner);
      assert !IsSpace(inner[0]);
    } else {
      assert inner == after;
    }
    if Tight(t) {
      if b, a :| Padded(value, t, b, a) {
        assert (t + a)[0] == t[0];
        TrimLeftIs(b, t + a);
        TrimRightIs(t, a);
      }
    }
  }

  lemma BlankParts(a: string, b: string)
    ensures Blank(a + b) ==> Blank(b)
  {
    if Blank(a + b) {
      forall i | 0 <= i < |b| ensures IsSpace(b[i]) {
        assert (a + b)[|a| + i] == b[i];
      }
    }
  }

  // ---------------------------------------------------------------- lines

  lemma LinesPrependCrLf(line: string, rest: string)
    requires NewlineFree(line)
    ensures Lines(line + "\r\n" + rest) == [line] + Lines(rest)
  {
    var long := line + "\r";
    var s := long + ['\n'] + rest;
    assert s == line + "\r\n" + rest;
    Decimal.IndexOfFirst(long, '\n', rest);
    assert s[..|long|] == long && s[|long| + 1..] == rest && long[..|long| - 1] == line;
  }

  /** A line ends at a line feed, with or without a CR in front; what follows the last one is a line unless empty. */
  lemma LinesExactly(line: string, rest: string)
    requires NewlineFree(line)
    ensures !EndsWith(line, '\r') ==> Lines(line + "\n" + rest) == [line] + Lines(rest)
    ensures Lines(line + "\r\n" + rest) == [line] + Lines(rest)
    ensures Lines(line) == if line == "" then [] else [line]
  {
    if !EndsWith(line, '\r') {
      LinesPrepend(line, rest);
    }
    LinesPrependCrLf(line, rest);
  }

  // ---------------------------------------------------------------- replacing

  /** The only line that carries both the token and the target. */
  ghost predicate OnlyLine(lines: seq<string>, token: string, target: string, c: nat) {
    && c < |lines| && Contains(lines[c], token) && Contains(lines[c], target)
    && forall i :: 0 <= i < |lines| && Contains(lines[i], token) && Contains(lines[i], target) ==> i == c
  }

  ghost predicate Declared(lines: seq<string>, token: string, target: string) {
    exists c: nat :: OnlyLine(lines, token, target, c)
  }

  predicate Rising(r: seq<nat>, n: nat) {
    (forall i, j :: 0 <= i < j < |r| ==> r[i] < r[j]) && forall i :: 0 <= i < |r| ==> r[i] < n
  }

  lemma {:induction false} CandidatesRise(lines: seq<string>, token: string, target: string, candidates: seq<nat>)
    requires candidates == Candidates(lines, token, target)
    ensures Rising(candidates, |lines|)
  {
    if lines != [] {
      var front := lines[..|lines| - 1];
      CandidatesRise(front, token, target, Candidates(front, token, target));
    }
  }

  lemma OneInRising(r: seq<nat>, c: nat)
    requires c in r && (forall i, j :: 0 <= i < j < |r| ==> r[i] < r[j]) && forall k: nat :: k in r ==> k == c
    ensures r == [c]
  {
    assert |r| > 1 ==> r[0] < r[1];
    forall i | 0 <= i < |r| ensures r[i] == c {
      assert r[i] in r;
    }
  }

  lemma OneCandidateIs(lines: seq<string>, token: string, target: string, candidates: seq<nat>)
    requires candidates == Candidates(lines, token, target)
    ensures |candidates| == 1 ==> OnlyLine(lines, token, target, candidates[0])
    ensures |candidates| == 1 <==> Declared(lines, token, target)
    ensures forall c: nat :: OnlyLine(lines, token, target, c) ==> candidates == [c]
  {
    CandidatesRise(lines, token, target, candidates);
    forall k: nat ensures k in candidates <==> k < |lines| && Declares(lines[k], token, target) {
      CandidateIs(lines, token, target, k);
    }
    if |candidates| == 1 {
      assert candidates[0] in candidates;
      forall i | 0 <= i < |lines| && Contains(lines[i], token) && Contains(lines[i], target) ensures i == candidates[0] {
        assert Declares(lines[i], token, target);
        assert i in candidates;
      }
    }
    forall c: nat | OnlyLine(lines, token, target, c) ensures candidates == [c] {
      assert Declares(lines[c], token, target);
      assert c in candidates;
      OneInRising(candidates, c);
    }
    if Declared(lines, token, target) {
      var c: nat :| OnlyLine(lines, token, target, c);
      assert candidates == [c];
    }
  }

  /** The first occurrence of the token in the line. */
  predicate FirstOccurrence(line: string, token: string, before: string, after: string) {
    line == before + token + after && forall i :: 0 <= i < |before| ==> !OccursAt(line, token, i)
  }

  /** The text with the first occurrence on the declaration line replaced and every line ended by a plain line feed. */
  ghost predicate Replaced(content: string, target: string, token: string, replacement: string, out: string) {
    exists c: nat, before, after :: ReplacedOn(content, target, token, replacement, out, c, before, after)
  }

  ghost predicate ReplacedOn(content: string, target: string, token: string, replacement: string, out: string, c: nat,
                             before: string, after: string)
  {
    && OnlyLine(Lines(content), token, target, c) && FirstOccurrence(Lines(content)[c], token, before, after)
    && out == Join(Lines(content)[c := before + replacement + after]) + (if EndsWith(content, '\n') then "\n" else "")
  }

  lemma FirstIs(line: string, token: string, replacement: string, before: string, after: string)
    requires FirstOccurrence(line, token, before, after)
    ensures ReplaceFirst(line, token, replacement) == before + replacement + after
  {
    var n := |before|;
    assert line[n..n + |token|] == token && line[n + |token|..] == after && line[..n] == before;
    assert OccursAt(line, token, n);
  }

  /** A replacement gives a text exactly when one line declares the mount, and then that line is changed. */
  lemma ReplacesExactly(content: string, target: string, token: string, replacement: string, out: string)
    ensures ReplaceToken(content, target, token, replacement) == Some(out)
            <==> Replaced(content, target, token, replacement, out)
    ensures ReplaceToken(content, target, token, replacement).Some?
            <==> Declared(Lines(content), token, target)
  {
    var lines := Lines(content);
    var candidates := Candidates(lines, token, target);
    OneCandidateIs(lines, token, target, candidates);
    if |candidates| == 1 {
      var c := candidates[0];
      var before, after := ReplacedAt(lines[c], token, replacement);
      assert FirstOccurrence(lines[c], token, before, after);
      if ReplaceToken(content, target, token, replacement) == Some(out) {
        assert ReplacedOn(content, target, token, replacement, out, c, before, after);
      }
    }
    if c: nat, before, after :| ReplacedOn(content, target, token, replacement, out, c, before, after) {
      FirstIs(lines[c], token, replacement, before, after);
    }
  }

  /** Lines read back lose one more CR where a line feed follows. */
  function Reread(lines: seq<string>, newline: bool): (r: seq<string>)
    ensures |r| == |lines|
  {
    seq(|lines|, i requires 0 <= i < |lines| => if newline || i < |lines| - 1 then StripCr(lines[i]) else lines[i])
  }

  predicate Fits(lines: seq<string>, newline: bool) {
    && (forall i :: 0 <= i < |lines| ==> NewlineFree(lines[i]))
    && (if newline then lines != [] else lines != [] ==> lines[|lines| - 1] != "")
  }

  lemma LinesStripped(line: string, rest: string)
    requires NewlineFree(line)
    ensures Lines(line + "\n" + rest) == [StripCr(line)] + Lines(rest)
  {
    if EndsWith(line, '\r') {
      var short := line[..|line| - 1];
      assert line + "\n" + rest == short + "\r\n" + rest;
      LinesPrependCrLf(short, rest);
    } else {
      LinesPrepend(line, rest);
    }
  }

  lemma RereadFurther(first: string, rest: seq<string>, newline: bool)
    requires rest != []
    ensures Reread([first] + rest, newline) == [StripCr(first)] + Reread(rest, newline)
  {
  }

  lemma {:induction false} LinesOfJoined(lines: seq<string>, newline: bool)
    requires Fits(lines, newline)
    ensures Lines(Join(lines) + Tail(newline)) == Reread(lines, newline)
  {
    if lines == [] {
    } else if |lines| == 1 {
      if newline {
        assert lines[0] + "\n" == lines[0] + "\n" + "";
        LinesStripped(lines[0], "");
        assert [StripCr(lines[0])] + [] == Reread(lines, newline);
      } else {
        assert lines[0] + "" == lines[0];
        LinesOfOne(lines[0]);
      }
    } else {
      var rest := lines[1..];
      assert lines == [lines[0]] + rest;
      JoinFront(lines[0], rest);
      LinesOfJoined(rest, newline);
      Associates(lines[0], Join(rest), Tail(newline));
      LinesStripped(lines[0], Join(rest) + Tail(newline));
      RereadFurther(lines[0], rest, newline);
    }
  }

  lemma {:induction false} LinesFit(s: string, lines: seq<string>)
    requires lines == Lines(s)
    ensures Fits(lines, EndsWith(s, '\n'))
    decreases |s|
  {
    LinesAreNewlineFree(s);
    if s != "" {
      var i := Decimal.IndexOf(s, '\n');
      if i < |s| {
        var rest := s[i + 1..];
        LinesFit(rest, Lines(rest));
        assert rest != "" ==> rest[|rest| - 1] == s[|s| - 1];
        if rest != "" {
          LinesNonempty(rest);
        }
      }
    }
  }

  /**
   Whatever ends the lines of a text, a replacement keeps their number and every line as it is read, but for one more CR
   where a line feed follows, and replaces the first occurrence on the declaration line.
   */
  lemma ReplacementKeepsLines(content: string, target: string, token: string, replacement: string, out: string, c: nat,
                              before: string, after: string)
    requires ReplacedOn(content, target, token, replacement, out, c, before, after) && PlainToken(replacement)
    ensures Lines(out) == Reread(Lines(content)[c := before + replacement + after], EndsWith(content, '\n'))
    ensures |Lines(out)| == |Lines(content)|
    ensures forall i :: 0 <= i < |Lines(content)| && i != c && !EndsWith(Lines(content)[i], '\r')
                        ==> Lines(out)[i] == Lines(content)[i]
  {
    var lines, newline := Lines(content), EndsWith(content, '\n');
    LinesFit(content, lines);
    FirstIs(lines[c], token, replacement, before, after);
    ReplacedLineFits(lines[c], token, replacement);
    LinesOfJoined(lines[c := before + replacement + after], newline);
  }

  // ---------------------------------------------------------------- the plan

  /** What a request may ask for at all. */
  predicate MayAsk(mount: ComposeMount, source: Option<string>, target: Option<string>) {
    && (source.Some? ==> mount.kind == Bind && '\0' !in source.value)
    && (target.Some? ==> '\0' !in target.value && AbsolutePath(target.value))
  }

  predicate AbsolutePath(path: string) {
    || (path != "" && path[0] == '/')
    || (|path| >= 3 && ('a' <= path[0] <= 'z' || 'A' <= path[0] <= 'Z') && path[1] == ':' && (path[2] == '\\' || path[2] == '/'))
  }

  /** The text behind the change of the source. */
  ghost predicate SourceGoes(content: string, mount: ComposeMount, source: Option<string>, middle: string) {
    match source
    case None => middle == content
    case Some(value) =>
      && !HasComponent(value, "..") && mount.source.Some?
      && Replaced(content, mount.target, mount.source.value, value, middle)
  }

  ghost predicate TargetGoes(middle: string, mount: ComposeMount, target: Option<string>, out: string) {
    match target
    case None => out == middle
    case Some(value) => Replaced(middle, mount.target, mount.target, value, out)
  }

  ghost predicate Goes(content: string, mount: ComposeMount, source: Option<string>, target: Option<string>, out: string) {
    exists middle :: MayAsk(mount, source, target) && SourceGoes(content, mount, source, middle)
                     && TargetGoes(middle, mount, target, out)
  }

  lemma RequestIs(mount: ComposeMount, source: Option<string>, target: Option<string>)
    ensures RequestAllowed(mount, source, target) <==> MayAsk(mount, source, target)
  {
  }

  lemma SourceIs(e: Edited, mount: ComposeMount, source: Option<string>, middle: string)
    requires !IsBlocked(e.diagnostics)
    ensures (!IsBlocked(EditSource(e, mount, source).diagnostics) && EditSource(e, mount, source).text == middle)
            <==> SourceGoes(e.text, mount, source, middle)
  {
    SourceBlocks(e, mount, source);
    if source.Some? {
      TraversalExactly(source.value);
      if mount.source.Some? {
        ReplacesExactly(e.text, mount.target, mount.source.value, source.value, middle);
      }
    }
  }

  lemma TargetIs(e: Edited, mount: ComposeMount, target: Option<string>, out: string)
    ensures (!IsBlocked(EditTarget(e, mount, target).diagnostics) && EditTarget(e, mount, target).text == out)
            <==> !IsBlocked(e.diagnostics) && TargetGoes(e.text, mount, target, out)
  {
    if target.Some? {
      ReplaceBlocks(e, mount.target, mount.target, target.value, "edit_original_target_not_found");
      ReplacesExactly(e.text, mount.target, mount.target, target.value, out);
    }
  }

  /** A plan goes through with a text exactly when the request may ask for it and both replacements give that text. */
  lemma PlansExactly(content: string, mount: ComposeMount, source: Option<string>, target: Option<string>, out: string)
    ensures (!IsBlocked(Plan(content, mount, source, target).diagnostics) && Plan(content, mount, source, target).text == out)
            <==> Goes(content, mount, source, target, out)
  {
    var start := Edited(content, RequestDiagnostics(mount, source, target));
    RequestBlocks(mount, source, target);
    RequestIs(mount, source, target);
    if !IsBlocked(start.diagnostics) {
      var e := EditSource(start, mount, source);
      SourceIs(start, mount, source, e.text);
      TargetIs(e, mount, target, out);
      forall middle | SourceGoes(content, mount, source, middle) ensures middle == e.text && !IsBlocked(e.diagnostics) {
        SourceIs(start, mount, source, middle);
      }
    }
  }

  // ---------------------------------------------------------------- what a plan reports

  predicate Told(diagnostics: seq<Diagnostic>, id: string) {
    exists i :: 0 <= i < |diagnostics| && diagnostics[i].id == id
  }

  lemma ToldConcat(a: seq<Diagnostic>, b: seq<Diagnostic>, id: string)
    ensures Told(a + b, id) <==> Told(a, id) || Told(b, id)
  {
    if i :| 0 <= i < |a| && a[i].id == id {
      assert (a + b)[i].id == id;
    }
    if i :| 0 <= i < |b| && b[i].id == id {
      assert (a + b)[|a| + i].id == id;
    }
    if i :| 0 <= i < |a + b| && (a + b)[i].id == id {
      assert if i < |a| then a[i].id == id else b[i - |a|].id == id;
    }
  }

  lemma ToldOne(d: Diagnostic, id: string)
    ensures Told([d], id) <==> d.id == id
    ensures !Told([], id)
  {
    assert [d][0] == d;
  }

  function When(condition: bool, d: Diagnostic): seq<Diagnostic> {
    if condition then [d] else []
  }

  lemma ToldWhen(before: seq<Diagnostic>, condition: bool, d: Diagnostic, id: string)
    ensures Told(before + When(condition, d), id) <==> Told(before, id) || (condition && d.id == id)
  {
    ToldConcat(before, When(condition, d), id);
    ToldOne(d, id);
  }

  /** What a request itself can be blamed for. */
  predicate RequestFault(mount: ComposeMount, source: Option<string>, target: Option<string>, id: string) {
    || (id == "edit_noop" && source.None? && target.None?)
    || (id == "edit_source_requires_bind" && source.Some? && mount.kind != Bind)
    || (id == "edit_invalid_target" && target.Some? && ('\0' in target.value || !AbsolutePath(target.value)))
    || (id == "edit_invalid_source" && source.Some? && '\0' in source.value)
  }

  lemma RequestTold(mount: ComposeMount, source: Option<string>, target: Option<string>, id: string)
    ensures Told(RequestDiagnostics(mount, source, target), id) <==> RequestFault(mount, source, target, id)
  {
    var noop := source.None? && target.None?;
    var kind := source.Some? && !mount.kind.Bind?;
    var path := target.Some? && (HasNul(target.value) || !LooksLikeContainerPath(target.value));
    var nul := source.Some? && HasNul(source.value);
    var a := When(noop, Diagnostic("edit_noop", Error));
    var b := a + When(kind, Diagnostic("edit_source_requires_bind", Blocked));
    var c := b + When(path, Diagnostic("edit_invalid_target", Blocked));
    assert [] + a == a;
    ToldOne(Diagnostic("edit_noop", Error), id);
    ToldWhen([], noop, Diagnostic("edit_noop", Error), id);
    ToldWhen(a, kind, Diagnostic("edit_source_requires_bind", Blocked), id);
    ToldWhen(b, path, Diagnostic("edit_invalid_target", Blocked), id);
    ToldWhen(c, nul, Diagnostic("edit_invalid_source", Blocked), id);
    assert RequestDiagnostics(mount, source, target) == c + When(nul, Diagnostic("edit_invalid_source", Blocked));
  }

  /** What an allowed change of the source can be blamed for. */
  ghost predicate SourceFault(content: string, mount: ComposeMount, source: Option<string>, id: string) {
    && source.Some?
    && (|| (id == "edit_source_parent_traversal" && HasComponent(source.value, ".."))
        || (id == "edit_missing_original_source" && mount.source.None?)
        || (id == "edit_original_source_not_found" && mount.source.Some?
            && !Declared(Lines(content), mount.source.value, mount.target)))
  }

  lemma SourceTold(e: Edited, mount: ComposeMount, source: Option<string>, id: string)
    ensures Told(EditSource(e, mount, source).diagnostics, id)
            <==> Told(e.diagnostics, id) || SourceFault(e.text, mount, source, id)
  {
    if source.Some? {
      var value := source.value;
      var traversal := Diagnostic("edit_source_parent_traversal", Blocked);
      var checked := if HasParentTraversal(value) then e.(diagnostics := e.diagnostics + [traversal]) else e;
      TraversalExactly(value);
      ToldConcat(e.diagnostics, [traversal], id);
      ToldOne(traversal, id);
      if mount.source.Some? {
        ReplacesExactly(e.text, mount.target, mount.source.value, value, e.text);
        ReplaceTold(checked, mount.target, mount.source.value, value, "edit_original_source_not_found", id);
      } else {
        ToldConcat(checked.diagnostics, [Diagnostic("edit_missing_original_source", Blocked)], id);
        ToldOne(Diagnostic("edit_missing_original_source", Blocked), id);
      }
    }
  }

  lemma ReplaceTold(e: Edited, target: string, token: string, replacement: string, fault: string, id: string)
    ensures Told(ReplaceOr(e, target, token, replacement, fault).diagnostics, id)
            <==> Told(e.diagnostics, id) || (id == fault && !Declared(Lines(e.text), token, target))
  {
    ReplacesExactly(e.text, target, token, replacement, e.text);
    ToldConcat(e.diagnostics, [Diagnostic(fault, Blocked)], id);
    ToldOne(Diagnostic(fault, Blocked), id);
  }

  /** The text a change of the target starts from: the changed one, or the given one when the source was not found. */
  ghost predicate Behind(content: string, mount: ComposeMount, source: Option<string>, middle: string) {
    match source
    case None => middle == content
    case Some(value) =>
      if mount.source.Some? && Declared(Lines(content), mount.source.value, mount.target)
      then Replaced(content, mount.target, mount.source.value, value, middle)
      else middle == content
  }

  lemma BehindIs(e: Edited, mount: ComposeMount, source: Option<string>)
    ensures Behind(e.text, mount, source, EditSource(e, mount, source).text)
  {
    if source.Some? && mount.source.Some? {
      TextBehind(e, mount, source);
      var token, value := mount.source.value, source.value;
      match ReplaceToken(e.text, mount.target, token, value)
      case None => ReplacesExactly(e.text, mount.target, token, value, e.text);
      case Some(out) =>
        ReplacesExactly(e.text, mount.target, token, value, out);
        assert Replaced(e.text, mount.target, token, value, out);
    }
  }

  lemma TextBehind(e: Edited, mount: ComposeMount, source: Option<string>)
    requires source.Some? && mount.source.Some?
    ensures EditSource(e, mount, source).text
            == match ReplaceToken(e.text, mount.target, mount.source.value, source.value)
               case None => e.text
               case Some(out) => out
  {
  }

  /**
   A plan reports exactly the faults of its request, and, when none of these blocks it, those of finding the two
   declaration lines.
   */
  lemma ReportsExactly(content: string, mount: ComposeMount, source: Option<string>, target: Option<string>, id: string)
    returns (middle: string)
    ensures Behind(content, mount, source, middle)
    ensures Told(Plan(content, mount, source, target).diagnostics, id)
            <==> || RequestFault(mount, source, target, id)
                 || (MayAsk(mount, source, target)
                     && (|| SourceFault(content, mount, source, id)
                         || (id == "edit_original_target_not_found" && target.Some?
                             && !Declared(Lines(middle), mount.target, mount.target))))
  {
    var start := Edited(content, RequestDiagnostics(mount, source, target));
    var e := EditSource(start, mount, source);
    middle := e.text;
    BehindIs(start, mount, source);
    RequestTold(mount, source, target, id);
    RequestBlocks(mount, source, target);
    RequestIs(mount, source, target);
    SourceTold(start, mount, source, id);
    if target.Some? {
      ReplaceTold(e, mount.target, mount.target, target.value, "edit_original_target_not_found", id);
    }
  }

  // ---------------------------------------------------------------- the diff

  predicate Kept(left: seq<string>, right: seq<string>, k: nat) {
    k < |left| && k < |right| && left[k] == right[k]
  }

  /** The lines before `n` that the other text does not have at the same place. */
  function Changed(lines: seq<string>, other: seq<string>, n: nat): seq<string> {
    if n == 0 then []
    else Changed(lines, other, n - 1) + (if n <= |lines| && !Kept(lines, other, n - 1) then [lines[n - 1]] else [])
  }

  function Marker(marker: char): DiffLine -> bool {
    (line: DiffLine) => line.marker == marker
  }

  function Texts(body: seq<DiffLine>): seq<string> {
    seq(|body|, i requires 0 <= i < |body| => body[i].line)
  }

  lemma TextsConcat(a: seq<DiffLine>, b: seq<DiffLine>)
    ensures Texts(a + b) == Texts(a) + Texts(b)
  {
  }

  lemma FilterLine(line: DiffLine, p: DiffLine -> bool)
    ensures Filter([line], p) == if p(line) then [line] else []
  {
    assert [line][..0] == [];
  }

  lemma MarkedConcat(before: seq<DiffLine>, step: seq<DiffLine>, marker: char)
    ensures Texts(Filter(before + step, Marker(marker)))
            == Texts(Filter(before, Marker(marker))) + Texts(Filter(step, Marker(marker)))
  {
    FilterConcat(before, step, Marker(marker));
    TextsConcat(Filter(before, Marker(marker)), Filter(step, Marker(marker)));
  }

  lemma MarkedOne(line: DiffLine, marker: char)
    ensures Texts(Filter([line], Marker(marker))) == if line.marker == marker then [line.line] else []
  {
    FilterLine(line, Marker(marker));
  }

  lemma MarkedTwo(a: DiffLine, b: DiffLine, marker: char)
    requires a.marker != b.marker
    ensures Texts(Filter([a, b], Marker(marker)))
            == if a.marker == marker then [a.line] else if b.marker == marker then [b.line] else []
  {
    assert [a, b] == [a] + [b];
    MarkedConcat([a], [b], marker);
    MarkedOne(a, marker);
    MarkedOne(b, marker);
  }

  lemma MarkedStep(left: seq<string>, right: seq<string>, k: nat)
    ensures Texts(Filter(DiffAt(left, right, k), Marker('-')))
            == if k < |left| && !Kept(left, right, k) then [left[k]] else []
    ensures Texts(Filter(DiffAt(left, right, k), Marker('+')))
            == if k < |right| && !Kept(right, left, k) then [right[k]] else []
  {
    var step := DiffAt(left, right, k);
    if |step| == 1 {
      assert step == [step[0]];
      MarkedOne(step[0], '-');
      MarkedOne(step[0], '+');
    } else if |step| == 2 {
      assert step == [step[0], step[1]];
      MarkedTwo(step[0], step[1], '-');
      MarkedTwo(step[0], step[1], '+');
    }
  }

  lemma {:induction false} MarkedUpTo(left: seq<string>, right: seq<string>, n: nat, body: seq<DiffLine>)
    requires body == DiffUpTo(left, right, n)
    ensures Texts(Filter(body, Marker('-'))) == Changed(left, right, n)
    ensures Texts(Filter(body, Marker('+'))) == Changed(right, left, n)
  {
    if n > 0 {
      var before, step := DiffUpTo(left, right, n - 1), DiffAt(left, right, n - 1);
      MarkedUpTo(left, right, n - 1, before);
      MarkedStep(left, right, n - 1);
      MarkedConcat(before, step, '-');
      MarkedConcat(before, step, '+');
    }
  }

  /** A diff marks exactly the lines that differ from the line at the same place of the other text, in their order. */
  lemma DiffMarksExactly(file: string, original: string, planned: string, head: string)
    requires head == "--- " + file + "\n+++ " + file + " (dry-run)\n"
    ensures head <= Diff(file, original, planned)
    ensures var body := ReadBody(Diff(file, original, planned)[|head|..]);
            var left, right := Lines(original), Lines(planned);
            && Texts(Filter(body, Marker('-'))) == Changed(left, right, Max(|left|, |right|))
            && Texts(Filter(body, Marker('+'))) == Changed(right, left, Max(|left|, |right|))
  {
    var left, right := Lines(original), Lines(planned);
    var n := Max(|left|, |right|);
    var body := DiffUpTo(left, right, n);
    LinesAreNewlineFree(original);
    LinesAreNewlineFree(planned);
    DiffIsReadable(left, right, n);
    ReadRendered(body);
    MarkedUpTo(left, right, n, body);
    assert Diff(file, original, planned)[|head|..] == Rendered(body);
  }
}
