/** What an edit of a short volume line `source:target[:mode]` writes, and when that is what was asked for. */
module ComposeVolume {
  import opened Prelude
  import opened ComposeModel
  import opened TextLines
  import opened ComposeEdit
  import Decimal

  predicate ColonFree(s: string) {
    ':' !in s
  }

  lemma ReplacedWhere(whole: string, before: string, token: string, after: string, replacement: string)
    requires whole == before + token + after && FirstFrom(whole, token, 0) == Some(|before|)
    ensures ReplaceFirst(whole, token, replacement) == before + replacement + after
  {
    assert whole[..|before|] == before && whole[|before| + |token|..] == after;
  }

  lemma FirstInFront(s: string, token: string, tail: string, whole: string)
    requires Contains(s, token) && whole == s + tail
    ensures FirstFrom(whole, token, 0) == FirstFrom(s, token, 0)
  {
    var i := FirstFrom(s, token, 0).value;
    assert whole[i..i + |token|] == s[i..i + |token|];
    assert OccursAt(whole, token, i);
    var j := FirstFrom(whole, token, 0).value;
    assert j + |token| <= |s| && s[j..j + |token|] == whole[j..j + |token|];
    assert OccursAt(s, token, j);
  }

  lemma Regroup(a: string, b: string, c: string, d: string)
    ensures (a + b + c) + d == a + b + (c + d)
  {
  }

  lemma LastGroups(a: string, b: string, c: string, d: string)
    ensures a + b + c + d == a + b + (c + d)
  {
  }

  /** An occurrence in the front part is the one rewritten, and the rest stays. */
  lemma RewritesFront(s: string, token: string, replacement: string, tail: string)
    requires Contains(s, token)
    ensures ReplaceFirst(s + tail, token, replacement) == ReplaceFirst(s, token, replacement) + tail
  {
    var i := FirstFrom(s, token, 0).value;
    var before, after := s[..i], s[i + |token|..];
    assert s == before + token + after;
    Regroup(before, token, after, tail);
    Regroup(before, replacement, after, tail);
    FirstInFront(s, token, tail, s + tail);
    ReplacedWhere(s, before, token, after, replacement);
    ReplacedWhere(s + tail, before, token, after + tail, replacement);
  }

  lemma OccursWithin(s: string, tail: string, token: string, j: nat)
    requires OccursAt(s + tail, token, j) && j + |token| <= |s|
    ensures Contains(s, token)
  {
    assert s[j..j + |token|] == (s + tail)[j..j + |token|];
    assert OccursAt(s, token, j);
  }

  lemma OccursAcross(line: string, token: string, j: nat, n: int)
    requires OccursAt(line, token, j) && j <= n < j + |token|
    ensures line[n] in token
  {
    assert line[j..j + |token|][n - j] == line[n];
  }

  lemma NoneBeforeColon(s: string, target: string, tail: string, line: string, j: nat)
    requires ColonFree(target) && target != "" && !Contains(s, target) && j <= |s| && line == s + ":" + tail
    ensures !OccursAt(line, target, j)
  {
    if OccursAt(line, target, j) {
      assert line == s + (":" + tail) && line[|s|] == ':';
      if j + |target| <= |s| {
        OccursWithin(s, ":" + tail, target, j);
      } else {
        OccursAcross(line, target, j, |s|);
      }
    }
  }

  /** Otherwise the target behind the colon is rewritten. */
  lemma RewritesTarget(s: string, target: string, replacement: string, rest: string)
    requires ColonFree(target) && target != "" && !Contains(s, target)
    ensures ReplaceFirst(s + ":" + target + rest, target, replacement) == s + ":" + replacement + rest
  {
    var line := s + ":" + (target + rest);
    var own := |s| + 1;
    assert s + ":" + target + rest == line;
    assert line[own..own + |target|] == target;
    assert OccursAt(line, target, own);
    var i := FirstFrom(line, target, 0).value;
    if i <= |s| {
      NoneBeforeColon(s, target, target + rest, line, i);
    }
    ReplacedWhere(line, s + ":", target, rest, replacement);
  }

  lemma ColonInside(a: string, left: string, rest: string, n: int)
    requires |a| < n <= |a| + |left| && (a + ":" + left + rest)[n] == ':'
    ensures ':' in left
  {
    assert (a + ":" + left + rest)[n] == left[n - |a| - 1];
  }

  /** Two lines that agree have their colons in the same place. */
  lemma ColonsAlign(a: string, b: string, left: string, right: string, rest: string)
    requires a + ":" + left + rest == b + ":" + right + rest
    requires ColonFree(left) && ColonFree(right)
    ensures left == right
  {
    var x, y := a + ":" + left + rest, b + ":" + right + rest;
    assert |a| + |left| == |b| + |right|;
    assert x[|a|] == ':' && y[|b|] == ':';
    if |a| < |b| {
      ColonInside(a, left, rest, |b|);
    } else if |b| < |a| {
      ColonInside(b, right, rest, |a|);
    } else {
      assert x[|a| + 1..|a| + 1 + |left|] == left && y[|a| + 1..|a| + 1 + |left|] == right;
    }
  }

  /** The text in front carries the target too: that occurrence is rewritten, and the declared target stays. */
  lemma RewritesInFront(s: string, target: string, replacement: string, rest: string)
    requires Contains(s, target)
    ensures ReplaceFirst(s + ":" + target + rest, target, replacement)
            == ReplaceFirst(s, target, replacement) + ":" + target + rest
  {
    var tail, front := ":" + target + rest, ReplaceFirst(s, target, replacement);
    RewritesFront(s, target, replacement, tail);
    Fronts(s, ":", target, rest);
    Fronts(front, ":", target, rest);
  }

  lemma Fronts(a: string, b: string, c: string, d: string)
    ensures a + b + c + d == a + (b + c + d)
  {
  }

  lemma TargetMissed(s: string, target: string, replacement: string, rest: string)
    requires ColonFree(target) && ColonFree(replacement) && Contains(s, target) && replacement != target
    ensures ReplaceFirst(s + ":" + target + rest, target, replacement) != s + ":" + replacement + rest
  {
    var front := ReplaceFirst(s, target, replacement);
    RewritesInFront(s, target, replacement, rest);
    if front + ":" + target + rest == s + ":" + replacement + rest {
      ColonsAlign(front, s, target, replacement, rest);
    }
  }

  lemma SameAgain(line: string, token: string)
    requires Contains(line, token)
    ensures ReplaceFirst(line, token, token) == line
  {
    var i := FirstFrom(line, token, 0).value;
    assert line == line[..i] + token + line[i + |token|..];
  }

  /** The declared target is rewritten exactly when the line does not carry the target in front of it. */
  lemma TargetRewrittenExactly(s: string, target: string, replacement: string, rest: string)
    requires ColonFree(target) && ColonFree(replacement)
    ensures ReplaceFirst(s + ":" + target + rest, target, replacement) == s + ":" + replacement + rest
            <==> !Contains(s, target) || replacement == target
  {
    assert target == "" ==> OccursAt(s, target, 0);
    if !Contains(s, target) {
      RewritesTarget(s, target, replacement, rest);
    } else if replacement == target {
      ContainsParts(s + ":", target, rest);
      SameAgain(s + ":" + target + rest, target);
    } else {
      TargetMissed(s, target, replacement, rest);
    }
  }

  lemma NoneAhead(ahead: string, lead: string, source: string, whole: string, j: nat)
    requires EndsWith(ahead, ':') && ColonFree(source) && source != "" && !Contains(ahead, source) && j < |ahead|
    requires whole == ahead + lead + source
    ensures !OccursAt(whole, source, j)
  {
    if OccursAt(whole, source, j) {
      assert whole == ahead + (lead + source) && whole[|ahead| - 1] == ':';
      if j + |source| <= |ahead| {
        OccursWithin(ahead, lead + source, source, j);
      } else {
        OccursAcross(whole, source, j, |ahead| - 1);
      }
    }
  }

  lemma OccursBehind(ahead: string, behind: string, token: string, j: nat)
    requires |ahead| <= j && OccursAt(ahead + behind, token, j)
    ensures OccursAt(behind, token, j - |ahead|)
  {
    assert behind[j - |ahead|..j - |ahead| + |token|] == (ahead + behind)[j..j + |token|];
  }

  lemma OccursShifted(ahead: string, behind: string, token: string, j: nat)
    requires OccursAt(behind, token, j)
    ensures OccursAt(ahead + behind, token, |ahead| + j)
  {
    assert (ahead + behind)[|ahead| + j..|ahead| + j + |token|] == behind[j..j + |token|];
  }

  lemma NotEarlier(ahead: string, lead: string, source: string, behind: string, whole: string, i: nat)
    requires ahead == "" || EndsWith(ahead, ':')
    requires ColonFree(source) && source != "" && !Contains(ahead, source)
    requires behind == lead + source && whole == ahead + behind && FirstFrom(behind, source, 0) == Some(|lead|)
    requires OccursAt(whole, source, i)
    ensures |ahead| + |lead| <= i
  {
    if i < |ahead| {
      GroupsRight(ahead, lead, source);
      NoneAhead(ahead, lead, source, whole, i);
    } else {
      OccursBehind(ahead, behind, source, i);
    }
  }

  lemma OwnComesFirst(ahead: string, lead: string, source: string, behind: string, whole: string)
    requires ahead == "" || EndsWith(ahead, ':')
    requires ColonFree(source) && source != "" && !Contains(ahead, source)
    requires behind == lead + source && whole == ahead + behind && FirstFrom(behind, source, 0) == Some(|lead|)
    ensures FirstFrom(whole, source, 0) == Some(|ahead| + |lead|)
  {
    OccursShifted(ahead, behind, source, |lead|);
    NotEarlier(ahead, lead, source, behind, whole, FirstFrom(whole, source, 0).value);
  }

  /** Nothing in front of the declared source repeats it, so that is the one rewritten. */
  lemma RewritesSource(ahead: string, lead: string, source: string, replacement: string)
    requires ahead == "" || EndsWith(ahead, ':')
    requires ColonFree(source) && source != "" && !Contains(ahead, source)
    requires FirstFrom(lead + source, source, 0) == Some(|lead|)
    ensures ReplaceFirst(ahead + lead + source, source, replacement) == ahead + lead + replacement
  {
    var whole, before := ahead + lead + source, ahead + lead;
    GroupsRight(ahead, lead, source);
    OwnComesFirst(ahead, lead, source, lead + source, whole);
    NothingBehind(before, source);
    ReplacedWhere(whole, before, source, "", replacement);
    NothingBehind(before, replacement);
  }

  lemma GroupsRight(a: string, b: string, c: string)
    ensures a + b + c == a + (b + c)
  {
  }

  lemma NothingBehind(a: string, b: string)
    ensures a + b + "" == a + b
  {
  }

  lemma ContainsBeforeColon(x: string, source: string)
    requires ColonFree(source) && source != "" && Contains(x + ":", source)
    ensures Contains(x, source)
  {
    var j :| 0 <= j <= |x + ":"| && OccursAt(x + ":", source, j);
    if j + |source| <= |x| {
      OccursWithin(x, ":", source, j);
    } else {
      OccursAcross(x + ":", source, j, |x|);
    }
  }

  lemma SourceMissed(x: string, lead: string, source: string, replacement: string)
    requires ColonFree(lead) && ColonFree(source) && ColonFree(replacement) && source != "" && replacement != source
    requires Contains(x, source)
    ensures ReplaceFirst(x + ":" + lead + source, source, replacement) != x + ":" + lead + replacement
  {
    var front := ReplaceFirst(x, source, replacement);
    RewritesFront(x, source, replacement, ":" + lead + source);
    Fronts(x, ":", lead, source);
    Fronts(front, ":", lead, source);
    if front + ":" + lead + source == x + ":" + lead + replacement {
      Middle(front, lead, source);
      Middle(x, lead, replacement);
      BothDiffer(lead, source, replacement);
      ColonsAlign(front, x, lead + source, lead + replacement, "");
    }
  }

  lemma BothDiffer(lead: string, a: string, b: string)
    requires a != b
    ensures lead + a != lead + b
  {
    assert (lead + a)[|lead|..] == a && (lead + b)[|lead|..] == b;
  }

  lemma Middle(a: string, b: string, c: string)
    ensures a + ":" + b + c == a + ":" + (b + c) + ""
  {
  }

  lemma MissedAhead(ahead: string, lead: string, source: string, replacement: string)
    requires ahead == "" || EndsWith(ahead, ':')
    requires ColonFree(lead) && ColonFree(source) && ColonFree(replacement) && source != "" && replacement != source
    requires Contains(ahead, source)
    ensures ReplaceFirst(ahead + lead + source, source, replacement) != ahead + lead + replacement
  {
    var x := ahead[..|ahead| - 1];
    assert ahead == x + ":";
    ContainsBeforeColon(x, source);
    SourceMissed(x, lead, source, replacement);
  }

  /**
   The declared source behind `lead`, which is all that follows the last colon in front of it, is rewritten exactly
   when the line does not carry the source ahead of that colon.
   */
  lemma SourceRewrittenExactly(ahead: string, lead: string, source: string, replacement: string)
    requires ahead == "" || EndsWith(ahead, ':')
    requires ColonFree(lead) && ColonFree(source) && ColonFree(replacement) && source != ""
    requires FirstFrom(lead + source, source, 0) == Some(|lead|)
    ensures ReplaceFirst(ahead + lead + source, source, replacement) == ahead + lead + replacement
            <==> !Contains(ahead, source) || replacement == source
  {
    if !Contains(ahead, source) {
      RewritesSource(ahead, lead, source, replacement);
    } else if replacement == source {
      ContainsParts(ahead + lead, source, "");
      NothingBehind(ahead + lead, source);
      SameAgain(ahead + lead + source, source);
    } else {
      MissedAhead(ahead, lead, source, replacement);
    }
  }

  /** Line `c` declares the mount: something, its source, a colon, its target, and a mode or nothing. */
  predicate DeclaredAt(content: string, c: nat, mount: ComposeMount, lead: string, rest: string) {
    && c < |Lines(content)| && mount.source.Some?
    && Lines(content)[c] == lead + mount.source.value + ":" + mount.target + rest
  }

  lemma ContainsParts(a: string, b: string, c: string)
    ensures Contains(a + b + c, b)
  {
    assert (a + b + c)[|a|..|a| + |b|] == b;
    assert OccursAt(a + b + c, b, |a|);
  }

  lemma DeclaredLineDeclares(lead: string, source: string, target: string, rest: string)
    ensures Declares(lead + source + ":" + target + rest, source, target)
  {
    ContainsParts(lead + source + ":", target, rest);
    LastGroups(lead, source, ":", target + rest);
    LastGroups(lead + source, ":", target, rest);
    ContainsParts(lead, source, ":" + (target + rest));
  }

  /** An unblocked replacement rewrites the line that is known to declare, and only it. */
  lemma RewritesLine(text: string, c: nat, target: string, token: string, replacement: string, line: string, out: string)
    requires LfOnly(text) && PlainToken(replacement) && c < |Lines(text)| && line == Lines(text)[c]
    requires Declares(line, token, target) && ReplaceToken(text, target, token, replacement) == Some(out)
    ensures LfOnly(out) && DiffersAt(text, out, c) && Lines(out)[c] == ReplaceFirst(line, token, replacement)
  {
    var k := ReplacementIsLocal(text, target, token, replacement);
  }

  lemma TargetOutcome(front: string, target: string, replacement: string, rest: string, line: string, edited: string)
    requires line == front + ":" + target + rest && edited == ReplaceFirst(line, target, replacement)
    ensures FirstFrom(line, target, 0) == Some(|front| + 1) ==> edited == front + ":" + replacement + rest
    ensures Contains(front, target) ==> edited == ReplaceFirst(front, target, replacement) + ":" + target + rest
    ensures ColonFree(target) && ColonFree(replacement) ==>
              (edited == front + ":" + replacement + rest <==> !Contains(front, target) || replacement == target)
  {
    if FirstFrom(line, target, 0) == Some(|front| + 1) {
      ReplacedWhere(line, front + ":", target, rest, replacement);
    }
    if Contains(front, target) {
      RewritesInFront(front, target, replacement, rest);
    }
    if ColonFree(target) && ColonFree(replacement) {
      TargetRewrittenExactly(front, target, replacement, rest);
    }
  }

  /** One unblocked target edit of the line `front:target rest`. */
  lemma TargetStep(text: string, c: nat, target: string, replacement: string, front: string, rest: string, line: string,
                   out: string)
    requires LfOnly(text) && PlainToken(replacement)
    requires c < |Lines(text)| && line == Lines(text)[c] && line == front + ":" + target + rest
    requires ReplaceToken(text, target, target, replacement) == Some(out)
    ensures DiffersAt(text, out, c) && Lines(out)[c] == ReplaceFirst(line, target, replacement)
  {
    ContainsParts(front + ":", target, rest);
    RewritesLine(text, c, target, target, replacement, line, out);
  }

  lemma SourceOutcome(lead: string, source: string, tail: string, replacement: string, line: string)
    requires line == lead + source + tail
    ensures ReplaceFirst(line, source, replacement) == ReplaceFirst(lead + source, source, replacement) + tail
  {
    ContainsParts(lead, source, "");
    NothingBehind(lead, source);
    RewritesFront(lead + source, source, replacement, tail);
  }

  /** An unblocked edit of the source rewrites what stands in front of the last colon of `lead source:target rest`. */
  lemma SourceStep(text: string, c: nat, mount: ComposeMount, replacement: string, lead: string, rest: string, line: string,
                   out: string)
    requires LfOnly(text) && PlainToken(replacement) && DeclaredAt(text, c, mount, lead, rest) && line == Lines(text)[c]
    requires ReplaceToken(text, mount.target, mount.source.value, replacement) == Some(out)
    ensures LfOnly(out) && c < |Lines(out)|
    ensures Lines(out)[c]
            == ReplaceFirst(lead + mount.source.value, mount.source.value, replacement) + ":" + mount.target + rest
  {
    var source := mount.source.value;
    var front := ReplaceFirst(lead + source, source, replacement);
    DeclaredLineDeclares(lead, source, mount.target, rest);
    RewritesLine(text, c, mount.target, source, replacement, line, out);
    Fronts(lead + source, ":", mount.target, rest);
    SourceOutcome(lead, source, ":" + mount.target + rest, replacement, line);
    Fronts(front, ":", mount.target, rest);
  }

  /** What stands in front of the target's colon when the target is edited. */
  function FrontThen(mount: ComposeMount, source: Option<string>, lead: string): string
    requires mount.source.Some?
  {
    var declared := lead + mount.source.value;
    if source.Some? then ReplaceFirst(declared, mount.source.value, source.value) else declared
  }

  lemma SourceThenTarget(content: string, c: nat, mount: ComposeMount, newSource: Option<string>,
                         newTarget: Option<string>, lead: string, rest: string, out: string, front: string)
    requires LfOnly(content) && DeclaredAt(content, c, mount, lead, rest)
    requires Clean(newSource).Some? ==> NewlineFree(Clean(newSource).value)
    requires Clean(newTarget).Some? ==> NewlineFree(Clean(newTarget).value)
    requires var plan := Plan(content, mount, Clean(newSource), Clean(newTarget));
             !IsBlocked(plan.diagnostics) && out == plan.text
    requires front == FrontThen(mount, Clean(newSource), lead)
    ensures c < |Lines(out)|
    ensures var line := front + ":" + mount.target + rest;
            Lines(out)[c] == match Clean(newTarget)
                             case None => line
                             case Some(target) => ReplaceFirst(line, mount.target, target)
  {
    var source, target := Clean(newSource), Clean(newTarget);
    PlanProceedsExactly(content, mount, source, target);
    RequestBlocks(mount, source, target);
    var middle := EditSource(Edited(content, RequestDiagnostics(mount, source, target)), mount, source).text;
    if source.Some? {
      CleanIsPlain(newSource);
      SourceStep(content, c, mount, source.value, lead, rest, Lines(content)[c], middle);
    }
    if target.Some? {
      CleanIsPlain(newTarget);
      TargetStep(middle, c, mount.target, target.value, front, rest, Lines(middle)[c], out);
    }
  }

  /**
   A plan that goes through and changes the target of a short volume line, with or without its source: the line says
   what was asked for exactly when the target does not also stand in front of the colon. When it does, that occurrence
   is rewritten and the declared target stays.
   */
  lemma PlanRetargetsExactly(content: string, c: nat, mount: ComposeMount, newSource: Option<string>,
                             newTarget: Option<string>, lead: string, rest: string, out: string)
    requires LfOnly(content) && DeclaredAt(content, c, mount, lead, rest)
    requires Clean(newSource).Some? ==> NewlineFree(Clean(newSource).value)
    requires Clean(newTarget).Some? && NewlineFree(Clean(newTarget).value)
    requires var plan := Plan(content, mount, Clean(newSource), Clean(newTarget));
             !IsBlocked(plan.diagnostics) && out == plan.text
    ensures c < |Lines(out)|
    ensures var front, target := FrontThen(mount, Clean(newSource), lead), Clean(newTarget).value;
            var line, asked := front + ":" + mount.target + rest, front + ":" + target + rest;
            && (FirstFrom(line, mount.target, 0) == Some(|front| + 1) ==> Lines(out)[c] == asked)
            && (Contains(front, mount.target) ==>
                  Lines(out)[c] == ReplaceFirst(front, mount.target, target) + ":" + mount.target + rest)
            && (ColonFree(mount.target) && ColonFree(target) ==>
                  (Lines(out)[c] == asked <==> !Contains(front, mount.target) || target == mount.target))
  {
    var front, target := FrontThen(mount, Clean(newSource), lead), Clean(newTarget).value;
    SourceThenTarget(content, c, mount, newSource, newTarget, lead, rest, out, front);
    TargetOutcome(front, mount.target, target, rest, front + ":" + mount.target + rest, Lines(out)[c]);
  }

  lemma SourceIsAsked(ahead: string, lead: string, source: string, replacement: string, tail: string, line: string)
    requires line == ReplaceFirst(ahead + lead + source, source, replacement) + tail
    ensures FirstFrom(ahead + lead + source, source, 0) == Some(|ahead + lead|) ==> line == ahead + lead + replacement + tail
    ensures (ahead == "" || EndsWith(ahead, ':'))
            && ColonFree(lead) && ColonFree(source) && ColonFree(replacement) && source != ""
            && FirstFrom(lead + source, source, 0) == Some(|lead|) ==>
              (line == ahead + lead + replacement + tail <==> !Contains(ahead, source) || replacement == source)
  {
    var whole, asked := ahead + lead + source, ahead + lead + replacement;
    var front := ReplaceFirst(whole, source, replacement);
    assert line == asked + tail <==> front == asked by {
      if line == asked + tail {
        assert |front| == |asked|;
        assert front == line[..|front|] && asked == (asked + tail)[..|asked|];
      }
    }
    if FirstFrom(whole, source, 0) == Some(|ahead + lead|) {
      NothingBehind(ahead + lead, source);
      ReplacedWhere(whole, ahead + lead, source, "", replacement);
      NothingBehind(ahead + lead, replacement);
    }
    if (ahead == "" || EndsWith(ahead, ':'))
       && ColonFree(lead) && ColonFree(source) && ColonFree(replacement) && source != ""
       && FirstFrom(lead + source, source, 0) == Some(|lead|)
    {
      SourceRewrittenExactly(ahead, lead, source, replacement);
    }
  }

  /**
   A plan that goes through and changes the source of a short volume line alone: the line says what was asked for when
   nothing in front of the declared source repeats it. Where the source does not stand between the last colon and its
   own place, that is exactly when it does not stand ahead of that colon, as the source of an earlier mount on the
   line would.
   */
  lemma PlanResourcesExactly(content: string, c: nat, mount: ComposeMount, newSource: Option<string>, ahead: string,
                             lead: string, rest: string, out: string)
    requires LfOnly(content) && DeclaredAt(content, c, mount, ahead + lead, rest)
    requires Clean(newSource).Some? && NewlineFree(Clean(newSource).value)
    requires var plan := Plan(content, mount, Clean(newSource), None); !IsBlocked(plan.diagnostics) && out == plan.text
    ensures c < |Lines(out)|
    ensures var own, source := mount.source.value, Clean(newSource).value;
            var tail := ":" + mount.target + rest;
            var asked := ahead + lead + source + tail;
            && Lines(out)[c] == ReplaceFirst(ahead + lead + own, own, source) + tail
            && (FirstFrom(ahead + lead + own, own, 0) == Some(|ahead + lead|) ==> Lines(out)[c] == asked)
            && ((ahead == "" || EndsWith(ahead, ':')) && ColonFree(lead) && ColonFree(own) && ColonFree(source)
                && own != "" && FirstFrom(lead + own, own, 0) == Some(|lead|) ==>
                  (Lines(out)[c] == asked <==> !Contains(ahead, own) || source == own))
  {
    var own, source, front := mount.source.value, Clean(newSource).value, FrontThen(mount, Clean(newSource), ahead + lead);
    SourceThenTarget(content, c, mount, newSource, None, ahead + lead, rest, out, front);
    Fronts(front, ":", mount.target, rest);
    SourceIsAsked(ahead, lead, own, source, ":" + mount.target + rest, Lines(out)[c]);
  }

  lemma ShortLine(line: string, t: string, r: string)
    requires line == "./d:/d" && t == "/d" && r == "/s"
    ensures ReplaceFirst(line, t, r) == "./s:/d" && Declares(line, t, t)
    ensures Lines(line) == [line] && !EndsWith(line, '\n')
  {
    assert line[1..3] == t;
    assert OccursAt(line, t, 1);
    assert line[0..2][0] != t[0];
    ReplacedWhere(line, ".", t, ":/d", r);
    LinesOfOne(line);
  }

  lemma OneCandidate(line: string, target: string, token: string, edited: string, r: string)
    requires Lines(line) == [line] && !EndsWith(line, '\n') && Declares(line, token, target)
    requires edited == ReplaceFirst(line, token, r)
    ensures ReplaceToken(line, target, token, r) == Some(edited)
  {
    assert [line][..0] == [];
    assert Candidates([line], token, target) == [0];
    assert [line][0 := edited] == [edited];
    assert edited + "" == edited;
  }

  lemma TargetAlone(content: string, mount: ComposeMount, target: string, edited: string)
    requires RequestAllowed(mount, None, Some(target))
    requires ReplaceToken(content, mount.target, mount.target, target) == Some(edited)
    ensures var plan := Plan(content, mount, None, Some(target)); !IsBlocked(plan.diagnostics) && plan.text == edited
  {
    RequestBlocks(mount, None, Some(target));
  }

  /** The edit of the target of `./d:/d` goes through, rewrites the source and leaves the target. */
  lemma TargetEditRewritesSource(mount: ComposeMount, line: string, target: string)
    requires line == "./d:/d" && mount.source == Some("./d") && mount.target == "/d" && target == "/s"
    ensures var plan := Plan(line, mount, None, Some(target)); !IsBlocked(plan.diagnostics) && plan.text == "./s:/d"
  {
    ShortLine(line, mount.target, target);
    var edited := ReplaceFirst(line, mount.target, target);
    OneCandidate(line, mount.target, mount.target, edited, target);
    TargetAlone(line, mount, target, edited);
  }

  lemma FlowSource(line: string, before: string, own: string, after: string, r: string)
    requires line == before + own + after && before == "[\"" && own == "./a" && r == "./b"
    ensures ReplaceFirst(line, own, r) == before + r + after && Contains(line, own)
  {
    ContainsParts(before, own, after);
    assert line[2..2 + |own|] == own;
    assert OccursAt(line, own, 2);
    assert line[0] != own[0] && line[1] != own[0];
    assert line[0..3][0] == line[0] && line[1..4][0] == line[1];
    ReplacedWhere(line, before, own, after, r);
  }

  /** A flow sequence of two short volumes, as one line. */
  function Flow(first: string, second: string, target: string): string {
    "[\"" + first + ":/x\", \"" + (second + ":") + target + "\"]"
  }

  lemma FlowGroups(a: string, b: string, c: string, d: string, e: string, f: string)
    ensures a + b + c + d + e + f == a + b + (c + d + e + f)
  {
  }

  lemma FlowLine(line: string, own: string, t: string, r: string)
    requires line == Flow(own, own, t) && own == "./a" && t == "/y" && r == "./b"
    ensures ReplaceFirst(line, own, r) == Flow(r, own, t) && Declares(line, own, t)
  {
    var before, between, close := "[\"", ":/x\", \"", "\"]";
    FlowGroups(before, own, between, own + ":", t, close);
    FlowGroups(before, r, between, own + ":", t, close);
    FlowSource(line, before, own, between + (own + ":") + t + close, r);
    ContainsParts(before + own + between + (own + ":"), t, close);
  }

  lemma FlowIsOneLine(line: string, own: string, t: string)
    requires line == Flow(own, own, t) && own == "./a" && t == "/y"
    ensures Lines(line) == [line] && !EndsWith(line, '\n')
  {
    assert NewlineFree(line) && line[|line| - 1] == ']';
    LinesOfOne(line);
  }

  lemma NoParent(r: string)
    requires r == "./b"
    ensures !HasParentTraversal(r) && !HasNul(r)
  {
    Decimal.SplitOnceJoined(".", '/', "b");
    assert r == "." + ['/'] + "b";
    assert Decimal.SplitOnce("b", '/').None?;
  }

  lemma SourceAlone(content: string, mount: ComposeMount, source: string, edited: string)
    requires RequestAllowed(mount, Some(source), None) && !HasParentTraversal(source) && mount.source.Some?
    requires ReplaceToken(content, mount.target, mount.source.value, source) == Some(edited)
    ensures var plan := Plan(content, mount, Some(source), None); !IsBlocked(plan.diagnostics) && plan.text == edited
  {
    RequestBlocks(mount, Some(source), None);
  }

  /** The edit of the second mount's source goes through and rewrites the first mount. */
  lemma SourceEditRewritesNeighbour(mount: ComposeMount, line: string, own: string, source: string)
    requires own == "./a" && source == "./b" && line == Flow(own, own, "/y")
    requires mount.kind.Bind? && mount.source == Some(own) && mount.target == "/y"
    ensures var plan := Plan(line, mount, Some(source), None);
            !IsBlocked(plan.diagnostics) && plan.text == Flow(source, own, "/y")
  {
    FlowLine(line, own, mount.target, source);
    FlowIsOneLine(line, own, mount.target);
    NoParent(source);
    var edited := ReplaceFirst(line, own, source);
    OneCandidate(line, mount.target, own, edited, source);
    SourceAlone(line, mount, source, edited);
  }
}
