/** Planning an edit of one declared mount: rewriting the one line that declares it, and showing the change. */
module ComposeEdit {
  import opened Prelude
  import opened ComposeModel
  import opened TextLines
  import opened RuntimeModel
  import Decimal

  datatype Diagnostic = Diagnostic(id: string, severity: Severity)

  datatype EditPlan = EditPlan(
    newSource: Option<string>, newTarget: Option<string>, unifiedDiff: string, diagnostics: seq<Diagnostic>)

  predicate IsBlocked(diagnostics: seq<Diagnostic>) {
    exists i :: 0 <= i < |diagnostics| && diagnostics[i].severity == Blocked
  }

  // ---------------------------------------------------------------- rewriting the declaration line

  predicate Declares(line: string, token: string, target: string) {
    Contains(line, token) && Contains(line, target)
  }

  function Candidates(lines: seq<string>, token: string, target: string): (r: seq<nat>)
    ensures forall j :: 0 <= j < |r| ==> r[j] < |lines|
  {
    if lines == [] then []
    else
      Candidates(lines[..|lines| - 1], token, target)
      + (if Declares(lines[|lines| - 1], token, target) then [|lines| - 1] else [])
  }

  /** The candidates are the positions of the lines that carry both the token and the target. */
  lemma {:induction false} CandidateIs(lines: seq<string>, token: string, target: string, k: nat)
    ensures k in Candidates(lines, token, target) <==> k < |lines| && Declares(lines[k], token, target)
  {
    if lines != [] {
      CandidateIs(lines[..|lines| - 1], token, target, k);
    }
  }

  /** The text with the token replaced on its one candidate line; nothing when there is not exactly one. */
  function ReplaceToken(content: string, target: string, token: string, replacement: string): Option<string> {
    var lines := Lines(content);
    var candidates := Candidates(lines, token, target);
    if |candidates| != 1 then None
    else
      var c := candidates[0];
      Some(Join(lines[c := ReplaceFirst(lines[c], token, replacement)]) + Tail(EndsWith(content, '\n')))
  }

  method ReplaceMountLineToken(content: string, target: string, token: string, replacement: string,
                               diagnosticId: string, diagnostics: seq<Diagnostic>)
    returns (output: string, more: seq<Diagnostic>)
    ensures var replaced := ReplaceToken(content, target, token, replacement);
            if replaced.Some? then output == replaced.value && more == diagnostics
            else output == content && more == diagnostics + [Diagnostic(diagnosticId, Blocked)]
  {
    var lines := Lines(content);
    var candidates: seq<nat> := [];
    for k := 0 to |lines|
      invariant candidates == Candidates(lines[..k], token, target)
    {
      assert lines[..k + 1][..k] == lines[..k];
      if Declares(lines[k], token, target) {
        candidates := candidates + [k];
      }
    }
    assert lines[..|lines|] == lines;
    if |candidates| != 1 {
      return content, diagnostics + [Diagnostic(diagnosticId, Blocked)];
    }
    ghost var edited := lines[candidates[0] := ReplaceFirst(lines[candidates[0]], token, replacement)];
    output := "";
    for k := 0 to |lines|
      invariant output == Join(edited[..k])
    {
      JoinOneMore(edited, k);
      if k > 0 {
        output := output + "\n";
      }
      output := output + (if k == candidates[0] then ReplaceFirst(lines[k], token, replacement) else lines[k]);
    }
    assert edited[..|lines|] == edited;
    if EndsWith(content, '\n') {
      output := output + "\n";
    }
    more := diagnostics;
  }

  lemma JoinOneMore(lines: seq<string>, k: nat)
    requires k < |lines|
    ensures Join(lines[..k + 1]) == (if k > 0 then Join(lines[..k]) + "\n" else "") + lines[k]
  {
    assert lines[..k + 1][..k] == lines[..k];
  }

  /** Text a replacement token can be: not empty, without line feeds and, being trimmed, not ending in a CR. */
  predicate PlainToken(token: string) {
    token != "" && NewlineFree(token) && !EndsWith(token, '\r')
  }

  lemma ReplacedLineFits(line: string, token: string, replacement: string)
    requires NewlineFree(line) && Contains(line, token) && PlainToken(replacement)
    ensures var edited := ReplaceFirst(line, token, replacement);
            NewlineFree(edited) && edited != "" && (EndsWith(edited, '\r') ==> EndsWith(line, '\r'))
  {
    var before, after := ReplacedAt(line, token, replacement);
    PartsNewlineFree(before, token, after);
    WholeNewlineFree(before, replacement, after);
    LastCharacter(before, replacement, after);
    if after != "" {
      assert line[|line| - 1] == after[|after| - 1];
    }
  }

  lemma PartsNewlineFree(a: string, b: string, c: string)
    requires NewlineFree(a + b + c)
    ensures NewlineFree(a) && NewlineFree(c)
  {
    var s := a + b + c;
    forall i | 0 <= i < |a| ensures a[i] != '\n' {
      assert s[i] == a[i];
    }
    forall i | 0 <= i < |c| ensures c[i] != '\n' {
      assert s[|a| + |b| + i] == c[i];
    }
  }

  lemma WholeNewlineFree(a: string, b: string, c: string)
    requires NewlineFree(a) && NewlineFree(b) && NewlineFree(c)
    ensures NewlineFree(a + b + c)
  {
  }

  lemma LastCharacter(a: string, b: string, c: string)
    requires b != ""
    ensures a + b + c != ""
    ensures (a + b + c)[|a + b + c| - 1] == if c == "" then b[|b| - 1] else c[|c| - 1]
  {
  }

  lemma {:induction false} JoinIsLfOnly(lines: seq<string>, newline: bool)
    requires Joinable(lines, newline)
    ensures LfOnly(Join(lines) + Tail(newline))
  {
    if |lines| == 1 {
      LineIsLfOnly(lines[0], Tail(newline), newline);
    } else if lines != [] {
      var rest := lines[1..];
      assert lines == [lines[0]] + rest;
      JoinFront(lines[0], rest);
      JoinIsLfOnly(rest, newline);
      var text := Join(rest) + Tail(newline);
      assert Join(lines) + Tail(newline) == lines[0] + "\n" + text;
      PrependIsLfOnly(lines[0], text);
    }
  }

  lemma LineIsLfOnly(line: string, tail: string, newline: bool)
    requires NewlineFree(line) && tail == Tail(newline) && (newline ==> !EndsWith(line, '\r'))
    ensures LfOnly(line + tail)
  {
  }

  lemma PrependIsLfOnly(line: string, text: string)
    requires NewlineFree(line) && !EndsWith(line, '\r') && LfOnly(text)
    ensures LfOnly(line + "\n" + text)
  {
    var s := line + "\n" + text;
    forall i | 0 <= i < |s| - 1 ensures !CrLfAt(s, i) {
      if i > |line| {
        assert s[i] == text[i - |line| - 1] && s[i + 1] == text[i - |line|];
        assert !CrLfAt(text, i - |line| - 1);
      }
    }
  }

  /** Only the edited line of two texts differs. */
  ghost predicate DiffersAt(before: string, after: string, c: nat) {
    && c < |Lines(before)| == |Lines(after)|
    && (forall i :: 0 <= i < |Lines(before)| && i != c ==> Lines(after)[i] == Lines(before)[i])
    && EndsWith(after, '\n') == EndsWith(before, '\n')
  }

  /**
   For text without CRLF and a replacement without line feeds, a replacement that succeeds changes the one line that
   carries both the token and the target, there only the first occurrence of the token, and nothing else.
   */
  lemma ReplacementIsLocal(content: string, target: string, token: string, replacement: string) returns (c: nat)
    requires LfOnly(content) && PlainToken(replacement)
    requires ReplaceToken(content, target, token, replacement).Some?
    ensures var out := ReplaceToken(content, target, token, replacement).value;
            && DiffersAt(content, out, c)
            && Lines(out)[c] == ReplaceFirst(Lines(content)[c], token, replacement)
            && LfOnly(out)
    ensures Declares(Lines(content)[c], token, target)
    ensures forall i :: 0 <= i < |Lines(content)| && Declares(Lines(content)[i], token, target) ==> i == c
  {
    var lines, newline := Lines(content), EndsWith(content, '\n');
    var candidates := Candidates(lines, token, target);
    c := candidates[0];
    CandidateIs(lines, token, target, c);
    forall i | 0 <= i < |lines| && Declares(lines[i], token, target) ensures i == c {
      CandidateIs(lines, token, target, i);
    }
    var edited := lines[c := ReplaceFirst(lines[c], token, replacement)];
    EditedLines(content, c, edited[c], token, replacement);
  }

  /** Joining the lines of a text with one of them replaced. */
  lemma EditedLines(content: string, c: nat, edit: string, token: string, replacement: string)
    requires LfOnly(content) && c < |Lines(content)| && PlainToken(replacement)
    requires Contains(Lines(content)[c], token) && edit == ReplaceFirst(Lines(content)[c], token, replacement)
    ensures var out := Join(Lines(content)[c := edit]) + Tail(EndsWith(content, '\n'));
            && Lines(out) == Lines(content)[c := edit] && LfOnly(out)
            && EndsWith(out, '\n') == EndsWith(content, '\n')
  {
    var lines, newline := Lines(content), EndsWith(content, '\n');
    JoinOfLines(content);
    ReplacedLineFits(lines[c], token, replacement);
    var edited := lines[c := edit];
    assert Joinable(edited, newline);
    LinesOfJoin(edited, newline);
    JoinIsLfOnly(edited, newline);
    TailStays(edited, newline);
  }

  lemma TailStays(lines: seq<string>, newline: bool)
    requires Joinable(lines, newline)
    ensures EndsWith(Join(lines) + Tail(newline), '\n') == newline
  {
    if !newline && lines != [] {
      assert Join(lines) + "" == Join(lines);
      assert Join(lines)[|Join(lines)| - 1] == lines[|lines| - 1][|lines[|lines| - 1]| - 1];
    }
  }

  // ---------------------------------------------------------------- the diff

  /** One line of the diff body: kept, removed or added. */
  datatype DiffLine = DiffLine(marker: char, line: string)

  function At(lines: seq<string>, k: nat): Option<string> {
    if k < |lines| then Some(lines[k]) else None
  }

  function DiffAt(original: seq<string>, planned: seq<string>, k: nat): seq<DiffLine> {
    match (At(original, k), At(planned, k))
    case (Some(left), Some(right)) =>
      if left == right then [DiffLine(' ', left)] else [DiffLine('-', left), DiffLine('+', right)]
    case (Some(left), None) => [DiffLine('-', left)]
    case (None, Some(right)) => [DiffLine('+', right)]
    case (None, None) => []
  }

  function DiffUpTo(original: seq<string>, planned: seq<string>, k: nat): seq<DiffLine> {
    if k == 0 then [] else DiffUpTo(original, planned, k - 1) + DiffAt(original, planned, k - 1)
  }

  function Body(original: seq<string>, planned: seq<string>): seq<DiffLine> {
    DiffUpTo(original, planned, Max(|original|, |planned|))
  }

  function Rendered(body: seq<DiffLine>): string {
    if body == [] then ""
    else Rendered(body[..|body| - 1]) + [body[|body| - 1].marker] + body[|body| - 1].line + "\n"
  }

  function Header(file: string): string {
    "--- " + file + "\n+++ " + file + " (dry-run)\n"
  }

  function Diff(file: string, original: string, planned: string): string {
    Header(file) + Rendered(Body(Lines(original), Lines(planned)))
  }

  lemma {:induction false} RenderedConcat(a: seq<DiffLine>, b: seq<DiffLine>)
    ensures Rendered(a + b) == Rendered(a) + Rendered(b)
    decreases |b|
  {
    if b == [] {
      assert a + b == a;
    } else {
      assert (a + b)[..|a + b| - 1] == a + b[..|b| - 1];
      RenderedConcat(a, b[..|b| - 1]);
    }
  }

  function RenderLine(line: DiffLine): string {
    [line.marker] + line.line + "\n"
  }

  lemma RenderedOne(line: DiffLine)
    ensures Rendered([line]) == RenderLine(line)
  {
    assert [line][..0] == [];
    assert "" + [line.marker] == [line.marker];
  }

  lemma RenderedTwo(a: DiffLine, b: DiffLine)
    ensures Rendered([a, b]) == RenderLine(a) + RenderLine(b)
  {
    assert [a, b] == [a] + [b];
    RenderedConcat([a], [b]);
    RenderedOne(a);
    RenderedOne(b);
  }

  method UnifiedDiff(file: string, original: string, planned: string) returns (output: string)
    ensures output == Diff(file, original, planned)
  {
    var left, right := Lines(original), Lines(planned);
    var body := "";
    var n := Max(|left|, |right|);
    for k := 0 to n
      invariant body == Rendered(DiffUpTo(left, right, k))
    {
      RenderedConcat(DiffUpTo(left, right, k), DiffAt(left, right, k));
      match (At(left, k), At(right, k))
      case (Some(a), Some(b)) =>
        if a == b {
          RenderedOne(DiffLine(' ', a));
          body := body + RenderLine(DiffLine(' ', a));
        } else {
          RenderedTwo(DiffLine('-', a), DiffLine('+', b));
          body := body + (RenderLine(DiffLine('-', a)) + RenderLine(DiffLine('+', b)));
        }
      case (Some(a), None) =>
        RenderedOne(DiffLine('-', a));
        body := body + RenderLine(DiffLine('-', a));
      case (None, Some(b)) =>
        RenderedOne(DiffLine('+', b));
        body := body + RenderLine(DiffLine('+', b));
      case (None, None) =>
    }
    output := Header(file) + body;
  }

  /** A reader of the body: every line is a marker, text, and a line feed. */
  function ReadBody(text: string): seq<DiffLine> {
    var i := Decimal.IndexOf(text, '\n');
    if i == 0 || i == |text| then [] else [DiffLine(text[0], text[1..i])] + ReadBody(text[i + 1..])
  }

  /** The lines a reader keeps for one side. */
  function Side(body: seq<DiffLine>, marker: char): seq<string> {
    if body == [] then []
    else
      var last := body[|body| - 1];
      Side(body[..|body| - 1], marker) + (if last.marker == ' ' || last.marker == marker then [last.line] else [])
  }

  predicate Readable(body: seq<DiffLine>) {
    forall i :: 0 <= i < |body| ==> body[i].marker != '\n' && NewlineFree(body[i].line)
  }

  lemma {:induction false} ReadRendered(body: seq<DiffLine>)
    requires Readable(body)
    ensures ReadBody(Rendered(body)) == body
  {
    if body != [] {
      var first, rest := body[0], body[1..];
      assert body == [first] + rest;
      RenderedConcat([first], rest);
      RenderedOne(first);
      ReadRendered(rest);
      ReadOne(first, Rendered(rest));
    }
  }

  lemma ReadOne(first: DiffLine, rest: string)
    requires first.marker != '\n' && NewlineFree(first.line)
    ensures ReadBody(RenderLine(first) + rest) == [first] + ReadBody(rest)
  {
    var line := [first.marker] + first.line;
    var text := line + ['\n'] + rest;
    assert RenderLine(first) + rest == text;
    assert '\n' !in line;
    Decimal.IndexOfFirst(line, '\n', rest);
    assert text[1..|line|] == first.line && text[|line| + 1..] == rest;
  }

  lemma {:induction false} SideConcat(a: seq<DiffLine>, b: seq<DiffLine>, marker: char)
    ensures Side(a + b, marker) == Side(a, marker) + Side(b, marker)
    decreases |b|
  {
    if b == [] {
      assert a + b == a;
    } else {
      assert (a + b)[..|a + b| - 1] == a + b[..|b| - 1];
      SideConcat(a, b[..|b| - 1], marker);
    }
  }

  lemma SidesOfStep(original: seq<string>, planned: seq<string>, k: nat)
    ensures Side(DiffAt(original, planned, k), '-') == LineAt(original, k)
    ensures Side(DiffAt(original, planned, k), '+') == LineAt(planned, k)
  {
    var step := DiffAt(original, planned, k);
    if |step| == 2 {
      SideOne(step[0], '-');
      SideOne(step[1], '-');
      SideOne(step[0], '+');
      SideOne(step[1], '+');
      assert step == [step[0]] + [step[1]];
      SideConcat([step[0]], [step[1]], '-');
      SideConcat([step[0]], [step[1]], '+');
    } else if |step| == 1 {
      assert step == [step[0]];
      SideOne(step[0], '-');
      SideOne(step[0], '+');
    }
  }

  lemma SideOne(line: DiffLine, marker: char)
    ensures Side([line], marker) == if line.marker == ' ' || line.marker == marker then [line.line] else []
  {
    assert [line][..0] == [];
  }

  function Taken(lines: seq<string>, k: nat): seq<string> {
    lines[..Min(k, |lines|)]
  }

  function LineAt(lines: seq<string>, k: nat): seq<string> {
    if k < |lines| then [lines[k]] else []
  }

  lemma TakeMore(lines: seq<string>, k: nat)
    requires k > 0
    ensures Taken(lines, k) == Taken(lines, k - 1) + LineAt(lines, k - 1)
  {
  }

  lemma NothingTaken(lines: seq<string>)
    ensures Taken(lines, 0) == []
  {
  }

  lemma SideGrows(before: seq<DiffLine>, step: seq<DiffLine>, marker: char, lines: seq<string>, k: nat)
    requires k > 0 && Side(before, marker) == Taken(lines, k - 1) && Side(step, marker) == LineAt(lines, k - 1)
    ensures Side(before + step, marker) == Taken(lines, k)
  {
    SideConcat(before, step, marker);
    TakeMore(lines, k);
  }

  lemma {:induction false} RemovedSide(original: seq<string>, planned: seq<string>, k: nat, body: seq<DiffLine>)
    requires body == DiffUpTo(original, planned, k)
    ensures Side(body, '-') == Taken(original, k)
  {
    if k > 0 {
      var before, step := DiffUpTo(original, planned, k - 1), DiffAt(original, planned, k - 1);
      RemovedSide(original, planned, k - 1, before);
      SidesOfStep(original, planned, k - 1);
      SideGrows(before, step, '-', original, k);
    } else {
      NothingTaken(original);
    }
  }

  lemma {:induction false} AddedSide(original: seq<string>, planned: seq<string>, k: nat, body: seq<DiffLine>)
    requires body == DiffUpTo(original, planned, k)
    ensures Side(body, '+') == Taken(planned, k)
  {
    if k > 0 {
      var before, step := DiffUpTo(original, planned, k - 1), DiffAt(original, planned, k - 1);
      AddedSide(original, planned, k - 1, before);
      SidesOfStep(original, planned, k - 1);
      SideGrows(before, step, '+', planned, k);
    } else {
      NothingTaken(planned);
    }
  }

  lemma {:induction false} DiffIsReadable(original: seq<string>, planned: seq<string>, k: nat)
    requires forall i :: 0 <= i < |original| ==> NewlineFree(original[i])
    requires forall i :: 0 <= i < |planned| ==> NewlineFree(planned[i])
    ensures Readable(DiffUpTo(original, planned, k))
  {
    if k > 0 {
      DiffIsReadable(original, planned, k - 1);
    }
  }

  /** Keeping context and removed lines of the diff gives the original lines, context and added lines the planned ones. */
  lemma DiffProjects(file: string, original: string, planned: string)
    ensures Header(file) <= Diff(file, original, planned)
    ensures var body := ReadBody(Diff(file, original, planned)[|Header(file)|..]);
            Side(body, '-') == Lines(original) && Side(body, '+') == Lines(planned)
  {
    var left, right := Lines(original), Lines(planned);
    var n := Max(|left|, |right|);
    LinesAreNewlineFree(original);
    LinesAreNewlineFree(planned);
    DiffIsReadable(left, right, n);
    ReadRendered(Body(left, right));
    RemovedSide(left, right, n, Body(left, right));
    AddedSide(left, right, n, Body(left, right));
    assert left[..|left|] == left && right[..|right|] == right;
    assert Diff(file, original, planned)[|Header(file)|..] == Rendered(Body(left, right));
  }

  // ---------------------------------------------------------------- the plan

  /** Unicode white space, as `trim` removes it. */
  predicate IsSpace(c: char) {
    || '\t' <= c <= '\r' || c == ' ' || c == '\U{85}' || c == '\U{a0}' || c == '\U{1680}'
    || '\U{2000}' <= c <= '\U{200a}' || c == '\U{2028}' || c == '\U{2029}' || c == '\U{202f}' || c == '\U{205f}'
    || c == '\U{3000}'
  }

  function TrimLeft(s: string): string {
    if s != "" && IsSpace(s[0]) then TrimLeft(s[1..]) else s
  }

  function TrimRight(s: string): string {
    if s != "" && IsSpace(s[|s| - 1]) then TrimRight(s[..|s| - 1]) else s
  }

  /** The trimmed value, if anything is left of it. */
  function Clean(value: Option<string>): Option<string> {
    match value
    case None => None
    case Some(text) =>
      var trimmed := TrimRight(TrimLeft(text));
      if trimmed == "" then None else Some(trimmed)
  }

  predicate HasNul(s: string) {
    '\0' in s
  }

  predicate IsAsciiLetter(c: char) {
    'a' <= c <= 'z' || 'A' <= c <= 'Z'
  }

  predicate LooksLikeContainerPath(s: string) {
    || StartsWith(s, "/")
    || (|s| >= 3 && IsAsciiLetter(s[0]) && s[1] == ':' && (s[2] == '\\' || s[2] == '/'))
  }

  /** Some component of the path is the parent directory. */
  predicate HasParentTraversal(path: string) {
    match Decimal.SplitOnce(path, '/')
    case None => path == ".."
    case Some((first, rest)) => first == ".." || (|rest| < |path| && HasParentTraversal(rest))
  }

  /** What is wrong with the request before the text is looked at. */
  function RequestDiagnostics(mount: ComposeMount, source: Option<string>, target: Option<string>): seq<Diagnostic> {
    (if source.None? && target.None? then [Diagnostic("edit_noop", Error)] else [])
    + (if source.Some? && !mount.kind.Bind? then [Diagnostic("edit_source_requires_bind", Blocked)] else [])
    + (if target.Some? && (HasNul(target.value) || !LooksLikeContainerPath(target.value))
       then [Diagnostic("edit_invalid_target", Blocked)] else [])
    + (if source.Some? && HasNul(source.value) then [Diagnostic("edit_invalid_source", Blocked)] else [])
  }

  datatype Edited = Edited(text: string, diagnostics: seq<Diagnostic>)

  function ReplaceOr(e: Edited, target: string, token: string, replacement: string, id: string): Edited {
    match ReplaceToken(e.text, target, token, replacement)
    case None => e.(diagnostics := e.diagnostics + [Diagnostic(id, Blocked)])
    case Some(text) => e.(text := text)
  }

  function EditSource(e: Edited, mount: ComposeMount, source: Option<string>): Edited {
    if source.None? then e
    else
      var checked := if HasParentTraversal(source.value)
        then e.(diagnostics := e.diagnostics + [Diagnostic("edit_source_parent_traversal", Blocked)]) else e;
      if mount.source.None? then
        checked.(diagnostics := checked.diagnostics + [Diagnostic("edit_missing_original_source", Blocked)])
      else ReplaceOr(checked, mount.target, mount.source.value, source.value, "edit_original_source_not_found")
  }

  function EditTarget(e: Edited, mount: ComposeMount, target: Option<string>): Edited {
    if target.None? then e
    else ReplaceOr(e, mount.target, mount.target, target.value, "edit_original_target_not_found")
  }

  /** The planned text and every diagnostic; a refused request leaves the text alone. */
  function Plan(content: string, mount: ComposeMount, source: Option<string>, target: Option<string>): Edited {
    var requested := RequestDiagnostics(mount, source, target);
    if IsBlocked(requested) then Edited(content, requested)
    else EditTarget(EditSource(Edited(content, requested), mount, source), mount, target)
  }

  function PlanOf(file: string, content: string, mount: ComposeMount, newSource: Option<string>, newTarget: Option<string>)
    : EditPlan
  {
    var source, target := Clean(newSource), Clean(newTarget);
    var plan := Plan(content, mount, source, target);
    EditPlan(source, target,
             if IsBlocked(plan.diagnostics) || plan.text == content then "" else Diff(file, content, plan.text),
             plan.diagnostics)
  }

  method PlanComposeMountEdit(file: string, content: string, mount: ComposeMount, newSource: Option<string>,
                              newTarget: Option<string>) returns (plan: EditPlan)
    ensures plan == PlanOf(file, content, mount, newSource, newTarget)
  {
    var source, target := Clean(newSource), Clean(newTarget);
    var diagnostics := RequestDiagnostics(mount, source, target);
    if IsBlocked(diagnostics) {
      return EditPlan(source, target, "", diagnostics);
    }
    var planned := content;
    if source.Some? {
      if HasParentTraversal(source.value) {
        diagnostics := diagnostics + [Diagnostic("edit_source_parent_traversal", Blocked)];
      }
      if mount.source.Some? {
        planned, diagnostics := ReplaceMountLineToken(planned, mount.target, mount.source.value, source.value,
                                                      "edit_original_source_not_found", diagnostics);
      } else {
        diagnostics := diagnostics + [Diagnostic("edit_missing_original_source", Blocked)];
      }
    }
    assert Edited(planned, diagnostics)
        == EditSource(Edited(content, RequestDiagnostics(mount, source, target)), mount, source);
    if target.Some? {
      planned, diagnostics := ReplaceMountLineToken(planned, mount.target, mount.target, target.value,
                                                    "edit_original_target_not_found", diagnostics);
    }
    var diff := "";
    if !IsBlocked(diagnostics) && planned != content {
      diff := UnifiedDiff(file, content, planned);
    }
    plan := EditPlan(source, target, diff, diagnostics);
  }

  // ---------------------------------------------------------------- what a plan shows

  /** A blocked plan shows no change at all; any other shows exactly the text it planned. */
  lemma PlanShowsItsText(file: string, content: string, mount: ComposeMount, newSource: Option<string>,
                         newTarget: Option<string>)
    ensures var plan := PlanOf(file, content, mount, newSource, newTarget);
            var text := Plan(content, mount, plan.newSource, plan.newTarget).text;
            && (IsBlocked(plan.diagnostics) ==> plan.unifiedDiff == "")
            && (plan.unifiedDiff == "" <==> IsBlocked(plan.diagnostics) || text == content)
            && (plan.unifiedDiff != "" ==>
                  && Header(file) <= plan.unifiedDiff
                  && var body := ReadBody(plan.unifiedDiff[|Header(file)|..]);
                     Side(body, '-') == Lines(content) && Side(body, '+') == Lines(text))
  {
    var plan := PlanOf(file, content, mount, newSource, newTarget);
    DiffProjects(file, content, Plan(content, mount, plan.newSource, plan.newTarget).text);
    assert Header(file)[0] == '-';
  }

  lemma BlockedAppend(diagnostics: seq<Diagnostic>, d: Diagnostic)
    requires d.severity == Blocked
    ensures IsBlocked(diagnostics + [d])
  {
    assert (diagnostics + [d])[|diagnostics|] == d;
  }

  lemma BlockedStays(a: seq<Diagnostic>, b: seq<Diagnostic>)
    requires IsBlocked(a)
    ensures IsBlocked(a + b)
  {
    var i :| 0 <= i < |a| && a[i].severity == Blocked;
    assert (a + b)[i] == a[i];
  }

  /** A step that replaces blocks the plan exactly when the token has no unique line, or the plan was blocked before. */
  lemma ReplaceBlocks(e: Edited, target: string, token: string, replacement: string, id: string)
    ensures IsBlocked(ReplaceOr(e, target, token, replacement, id).diagnostics)
            <==> IsBlocked(e.diagnostics) || ReplaceToken(e.text, target, token, replacement).None?
  {
    BlockedAppend(e.diagnostics, Diagnostic(id, Blocked));
  }

  /** The conditions under which a change of the source goes through. */
  predicate SourceAllowed(content: string, mount: ComposeMount, source: Option<string>) {
    source.Some? ==>
      && !HasParentTraversal(source.value) && mount.source.Some?
      && ReplaceToken(content, mount.target, mount.source.value, source.value).Some?
  }

  lemma SourceBlocks(e: Edited, mount: ComposeMount, source: Option<string>)
    requires !IsBlocked(e.diagnostics)
    ensures IsBlocked(EditSource(e, mount, source).diagnostics) <==> !SourceAllowed(e.text, mount, source)
  {
    if source.Some? {
      var traversal := Diagnostic("edit_source_parent_traversal", Blocked);
      var checked := if HasParentTraversal(source.value) then e.(diagnostics := e.diagnostics + [traversal]) else e;
      BlockedAppend(e.diagnostics, traversal);
      BlockedAppend(checked.diagnostics, Diagnostic("edit_missing_original_source", Blocked));
      if mount.source.Some? {
        ReplaceBlocks(checked, mount.target, mount.source.value, source.value, "edit_original_source_not_found");
      }
    }
  }

  predicate RequestAllowed(mount: ComposeMount, source: Option<string>, target: Option<string>) {
    && (source.Some? ==> mount.kind.Bind? && !HasNul(source.value))
    && (target.Some? ==> !HasNul(target.value) && LooksLikeContainerPath(target.value))
  }

  lemma RequestBlocks(mount: ComposeMount, source: Option<string>, target: Option<string>)
    ensures IsBlocked(RequestDiagnostics(mount, source, target)) <==> !RequestAllowed(mount, source, target)
  {
    var noop := if source.None? && target.None? then [Diagnostic("edit_noop", Error)] else [];
    var kind := if source.Some? && !mount.kind.Bind? then [Diagnostic("edit_source_requires_bind", Blocked)] else [];
    var path := if target.Some? && (HasNul(target.value) || !LooksLikeContainerPath(target.value))
      then [Diagnostic("edit_invalid_target", Blocked)] else [];
    var nul := if source.Some? && HasNul(source.value) then [Diagnostic("edit_invalid_source", Blocked)] else [];
    BlockedConcat(noop, kind);
    BlockedConcat(noop + kind, path);
    BlockedConcat(noop + kind + path, nul);
    assert !IsBlocked(noop);
    assert kind != [] ==> kind[0].severity == Blocked;
    assert path != [] ==> path[0].severity == Blocked;
    assert nul != [] ==> nul[0].severity == Blocked;
  }

  lemma BlockedConcat(a: seq<Diagnostic>, b: seq<Diagnostic>)
    ensures IsBlocked(a + b) <==> IsBlocked(a) || IsBlocked(b)
  {
    if IsBlocked(a) {
      BlockedStays(a, b);
    }
    if IsBlocked(b) {
      var i :| 0 <= i < |b| && b[i].severity == Blocked;
      assert (a + b)[|a| + i] == b[i];
    }
    if IsBlocked(a + b) {
      var i :| 0 <= i < |a + b| && (a + b)[i].severity == Blocked;
      assert if i < |a| then a[i].severity == Blocked else b[i - |a|].severity == Blocked;
    }
  }

  /** Exactly when a plan goes through: an allowed request, and one unique declaration line for each replacement. */
  lemma PlanProceedsExactly(content: string, mount: ComposeMount, source: Option<string>, target: Option<string>)
    ensures var start := Edited(content, RequestDiagnostics(mount, source, target));
            !IsBlocked(Plan(content, mount, source, target).diagnostics)
            <==> && RequestAllowed(mount, source, target)
                 && SourceAllowed(content, mount, source)
                 && (target.Some? ==>
                       ReplaceToken(EditSource(start, mount, source).text, mount.target, mount.target, target.value).Some?)
  {
    RequestBlocks(mount, source, target);
    var start := Edited(content, RequestDiagnostics(mount, source, target));
    if !IsBlocked(start.diagnostics) {
      SourceBlocks(start, mount, source);
      if target.Some? {
        ReplaceBlocks(EditSource(start, mount, source), mount.target, mount.target, target.value,
                      "edit_original_target_not_found");
      }
    }
  }

  lemma {:induction false} CleanIsTrimmed(s: string)
    ensures TrimRight(s) != "" ==> !IsSpace(TrimRight(s)[|TrimRight(s)| - 1])
  {
    if s != "" && IsSpace(s[|s| - 1]) {
      CleanIsTrimmed(s[..|s| - 1]);
    }
  }

  /** A requested token without line feeds is one a replacement can use. */
  lemma CleanIsPlain(value: Option<string>)
    requires Clean(value).Some? && NewlineFree(Clean(value).value)
    ensures PlainToken(Clean(value).value)
  {
    CleanIsTrimmed(TrimLeft(value.value));
  }

  /** A plan that goes through changes at most two lines of the text: the source's and the target's. */
  lemma PlanIsLocal(content: string, mount: ComposeMount, newSource: Option<string>, newTarget: Option<string>)
    returns (a: nat, b: nat)
    requires LfOnly(content) && Lines(content) != []
    requires Clean(newSource).Some? ==> NewlineFree(Clean(newSource).value)
    requires Clean(newTarget).Some? ==> NewlineFree(Clean(newTarget).value)
    requires !IsBlocked(Plan(content, mount, Clean(newSource), Clean(newTarget)).diagnostics)
    ensures var text := Plan(content, mount, Clean(newSource), Clean(newTarget)).text;
            && |Lines(text)| == |Lines(content)|
            && (forall i :: 0 <= i < |Lines(content)| && i != a && i != b ==> Lines(text)[i] == Lines(content)[i])
            && EndsWith(text, '\n') == EndsWith(content, '\n')
  {
    var source, target := Clean(newSource), Clean(newTarget);
    PlanProceedsExactly(content, mount, source, target);
    RequestBlocks(mount, source, target);
    var middle := content;
    a, b := 0, 0;
    if source.Some? {
      CleanIsPlain(newSource);
      a := ReplacementIsLocal(content, mount.target, mount.source.value, source.value);
      middle := ReplaceToken(content, mount.target, mount.source.value, source.value).value;
    }
    assert EditSource(Edited(content, RequestDiagnostics(mount, source, target)), mount, source).text == middle;
    if target.Some? {
      CleanIsPlain(newTarget);
      b := ReplacementIsLocal(middle, mount.target, mount.target, target.value);
    }
  }
}
