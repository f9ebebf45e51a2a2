/** Lines of a text as `str::lines` sees them, joining them back, and replacing the first occurrence of a token. */
module TextLines {
  import opened Prelude
  import Decimal

  predicate NewlineFree(s: string) {
    forall i :: 0 <= i < |s| ==> s[i] != '\n'
  }

  predicate EndsWith(s: string, c: char) {
    s != "" && s[|s| - 1] == c
  }

  /** No line end is a CRLF, so nothing but the line feed separates lines. */
  predicate LfOnly(s: string) {
    forall i :: 0 <= i < |s| - 1 ==> !CrLfAt(s, i)
  }

  predicate CrLfAt(s: string, i: nat)
    requires i < |s| - 1
  {
    s[i] == '\r' && s[i + 1] == '\n'
  }

  function StripCr(s: string): string {
    if EndsWith(s, '\r') then s[..|s| - 1] else s
  }

  /** `str::lines`: the rest behind the last line feed counts when it is not empty, and only then keeps a final CR. */
  function Lines(s: string): seq<string> {
    if s == "" then []
    else
      var i := Decimal.IndexOf(s, '\n');
      if i == |s| then [s] else [StripCr(s[..i])] + Lines(s[i + 1..])
  }

  function Join(lines: seq<string>): string {
    if lines == [] then ""
    else if |lines| == 1 then lines[0]
    else Join(lines[..|lines| - 1]) + "\n" + lines[|lines| - 1]
  }

  function Tail(newline: bool): string {
    if newline then "\n" else ""
  }

  lemma {:induction false} JoinFront(first: string, rest: seq<string>)
    requires rest != []
    ensures Join([first] + rest) == first + "\n" + Join(rest)
    decreases |rest|
  {
    var all := [first] + rest;
    var n := |rest| - 1;
    assert all[..|all| - 1] == [first] + rest[..n];
    if n == 0 {
      assert all[..|all| - 1] == [first];
    } else {
      JoinFront(first, rest[..n]);
    }
  }

  lemma {:induction false} LinesAreNewlineFree(s: string)
    ensures forall i :: 0 <= i < |Lines(s)| ==> NewlineFree(Lines(s)[i])
    decreases |s|
  {
    if s != "" {
      var i := Decimal.IndexOf(s, '\n');
      if i < |s| {
        LinesAreNewlineFree(s[i + 1..]);
      }
    }
  }

  /** A line in front of a line feed is read back as it is, when it neither contains one nor ends in a CR. */
  lemma LinesPrepend(line: string, rest: string)
    requires NewlineFree(line) && !EndsWith(line, '\r')
    ensures Lines(line + "\n" + rest) == [line] + Lines(rest)
  {
    var s := line + ['\n'] + rest;
    assert s == line + "\n" + rest;
    Decimal.IndexOfFirst(line, '\n', rest);
    assert s[..|line|] == line && s[|line| + 1..] == rest;
  }

  lemma LinesOfOne(line: string)
    requires NewlineFree(line) && line != ""
    ensures Lines(line) == [line]
  {
  }

  /** Which lines can stand where: inner lines end in no CR, and an unterminated last line is not empty. */
  predicate Joinable(lines: seq<string>, newline: bool) {
    && (forall i :: 0 <= i < |lines| ==> NewlineFree(lines[i]))
    && (forall i :: 0 <= i < |lines| && (newline || i < |lines| - 1) ==> !EndsWith(lines[i], '\r'))
    && (if newline then lines != [] else lines != [] ==> lines[|lines| - 1] != "")
  }

  lemma {:induction false} LinesOfJoin(lines: seq<string>, newline: bool)
    requires Joinable(lines, newline)
    ensures Lines(Join(lines) + Tail(newline)) == lines
  {
    if lines == [] {
    } else if |lines| == 1 {
      if newline {
        assert lines[0] + "\n" == lines[0] + "\n" + "";
        LinesPrepend(lines[0], "");
      } else {
        assert lines[0] + "" == lines[0];
        LinesOfOne(lines[0]);
      }
    } else {
      var rest := lines[1..];
      assert lines == [lines[0]] + rest;
      JoinFront(lines[0], rest);
      LinesOfJoin(rest, newline);
      assert Join(lines) + Tail(newline) == lines[0] + "\n" + (Join(rest) + Tail(newline));
      LinesPrepend(lines[0], Join(rest) + Tail(newline));
    }
  }

  /** The first line of a text that has a line feed. */
  lemma FirstLine(s: string) returns (first: string, rest: string)
    requires LfOnly(s) && Decimal.IndexOf(s, '\n') < |s|
    ensures s == first + "\n" + rest && |rest| < |s|
    ensures NewlineFree(first) && !EndsWith(first, '\r') && LfOnly(rest)
    ensures Lines(s) == [first] + Lines(rest)
    ensures rest != "" ==> EndsWith(s, '\n') == EndsWith(rest, '\n')
    ensures rest == "" ==> EndsWith(s, '\n')
  {
    var i := Decimal.IndexOf(s, '\n');
    first, rest := s[..i], s[i + 1..];
    assert s == first + "\n" + rest;
    if i > 0 {
      assert !CrLfAt(s, i - 1);
    }
    forall k | 0 <= k < |rest| - 1 ensures !CrLfAt(rest, k) {
      assert !CrLfAt(s, i + 1 + k);
    }
  }

  /** Splitting a text whose line ends are plain loses nothing but the final line feed. */
  lemma {:induction false} JoinOfLines(s: string)
    requires LfOnly(s)
    ensures Join(Lines(s)) + Tail(EndsWith(s, '\n')) == s
    ensures Joinable(Lines(s), EndsWith(s, '\n'))
    decreases |s|
  {
    if Decimal.IndexOf(s, '\n') < |s| {
      var first, rest := FirstLine(s);
      if rest == "" {
        assert Lines(s) == [first];
      } else {
        JoinOfLines(rest);
        LinesNonempty(rest);
        JoinFront(first, Lines(rest));
        JoinedFurther(first, Lines(rest), EndsWith(rest, '\n'));
        Associates(first, Join(Lines(rest)), Tail(EndsWith(rest, '\n')));
      }
    } else if s != "" {
      assert s + "" == s;
    }
  }

  lemma LinesNonempty(s: string)
    requires s != ""
    ensures Lines(s) != []
  {
  }

  lemma Associates(first: string, joined: string, tail: string)
    ensures (first + "\n" + joined) + tail == first + "\n" + (joined + tail)
  {
  }

  lemma JoinedFurther(first: string, rest: seq<string>, newline: bool)
    requires NewlineFree(first) && !EndsWith(first, '\r') && rest != [] && Joinable(rest, newline)
    ensures Joinable([first] + rest, newline)
  {
  }

  // ---------------------------------------------------------------- tokens

  predicate OccursAt(s: string, token: string, i: nat) {
    i + |token| <= |s| && s[i..i + |token|] == token
  }

  predicate Contains(s: string, token: string) {
    exists i :: 0 <= i <= |s| && OccursAt(s, token, i)
  }

  function FirstFrom(s: string, token: string, from: nat): (r: Option<nat>)
    requires from <= |s|
    ensures r.Some? ==> from <= r.value && OccursAt(s, token, r.value)
    ensures forall i :: from <= i <= |s| && OccursAt(s, token, i) ==> r.Some? && r.value <= i
    decreases |s| - from
  {
    if OccursAt(s, token, from) then Some(from)
    else if from == |s| then None
    else FirstFrom(s, token, from + 1)
  }

  /** `replacen(old, new, 1)`. */
  function ReplaceFirst(s: string, old_: string, new_: string): string {
    match FirstFrom(s, old_, 0)
    case None => s
    case Some(i) => s[..i] + new_ + s[i + |old_|..]
  }

  /** The replaced line is what stood before the first occurrence, the new token, and what stood behind it. */
  lemma ReplacedAt(s: string, old_: string, new_: string) returns (before: string, after: string)
    requires Contains(s, old_)
    ensures s == before + old_ + after && ReplaceFirst(s, old_, new_) == before + new_ + after
    ensures forall i :: 0 <= i < |before| ==> !OccursAt(s, old_, i)
  {
    var i := FirstFrom(s, old_, 0).value;
    before, after := s[..i], s[i + |old_|..];
  }
}
