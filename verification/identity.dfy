/** Collision-resistant identifier components: a readable slug and the digest of the complete value. */
module Identity {

  predicate LowerHexDigit(c: char) {
    '0' <= c <= '9' || 'a' <= c <= 'f'
  }

  predicate LowerHex(s: string, length: nat) {
    |s| == length && forall i :: 0 <= i < |s| ==> LowerHexDigit(s[i])
  }

  /** The hexadecimal form of a SHA-256 digest, of which only the shape matters here. */
  type HexDigest = s: string | LowerHex(s, 64) witness seq(64, _ => '0')

  /** An opaque 128-bit process token in hexadecimal. */
  type BootToken = s: string | LowerHex(s, 32) witness seq(32, _ => '0')

  predicate SlugCharacter(c: char) {
    'a' <= c <= 'z' || 'A' <= c <= 'Z' || '0' <= c <= '9' || c == '-' || c == '_' || c == '.'
  }

  /** Runs of other characters become one separator. */
  function Slug(value: string): string {
    if value == "" then ""
    else
      var front := Slug(value[..|value| - 1]);
      var c := value[|value| - 1];
      if SlugCharacter(c) then front + [c]
      else if |value| > 1 && !SlugCharacter(value[|value| - 2]) then front
      else front + ['-']
  }

  function TrimStart(s: string): string {
    if s != "" && s[0] == '-' then TrimStart(s[1..]) else s
  }

  function TrimEnd(s: string): string {
    if s != "" && s[|s| - 1] == '-' then TrimEnd(s[..|s| - 1]) else s
  }

  function Readable(value: string): (r: string)
    ensures |r| <= 48
  {
    var slug := TrimEnd(TrimStart(Slug(value)));
    if slug == "" then "identity" else if |slug| <= 48 then slug else slug[..48]
  }

  /** One pass over the value, remembering whether a separator was just emitted. */
  method CollisionResistantComponent(digest: string -> HexDigest, value: string) returns (component: string)
    ensures component == Component(digest, value)
  {
    var slug, separated := "", false;
    for k := 0 to |value|
      invariant slug == Slug(value[..k])
      invariant separated <==> k > 0 && !SlugCharacter(value[k - 1])
    {
      assert value[..k + 1][..k] == value[..k];
      if SlugCharacter(value[k]) {
        slug := slug + [value[k]];
        separated := false;
      } else if !separated {
        slug := slug + ['-'];
        separated := true;
      }
    }
    assert value[..|value|] == value;
    slug := TrimEnd(TrimStart(slug));
    var readable := if slug == "" then "identity" else if |slug| <= 48 then slug else slug[..48];
    component := readable + "--" + digest(value);
  }

  function Component(digest: string -> HexDigest, value: string): string {
    Readable(value) + "--" + digest(value)
  }

  /** No two of the given values share a digest. */
  ghost predicate CollisionFree(digest: string -> HexDigest, values: set<string>) {
    forall a, b :: a in values && b in values && digest(a) == digest(b) ==> a == b
  }

  /** Whatever prefixes are put in front, equal identifiers come from values with equal digests. */
  lemma ComponentDigest(digest: string -> HexDigest, p: string, a: string, q: string, b: string)
    requires p + Component(digest, a) == q + Component(digest, b)
    ensures digest(a) == digest(b)
  {
    var x, y := p + Component(digest, a), q + Component(digest, b);
    assert x[|x| - 64..] == digest(a);
    assert y[|y| - 64..] == digest(b);
  }

  // ---------------------------------------------------------------- the readable part

  predicate Plain(s: string) {
    forall i :: 0 <= i < |s| ==> SlugCharacter(s[i])
  }

  predicate Foreign(s: string) {
    forall i :: 0 <= i < |s| ==> !SlugCharacter(s[i])
  }

  lemma {:induction false} SlugIsPlain(value: string)
    ensures Plain(Slug(value)) && (Plain(value) ==> Slug(value) == value)
  {
    if value != "" {
      SlugIsPlain(value[..|value| - 1]);
    }
  }

  /** A run of other characters between plain ones becomes one separator. */
  lemma {:induction false} SlugOfRun(front: string, run: string, rest: string)
    requires Plain(front) && run != "" && Foreign(run) && (rest == "" || SlugCharacter(rest[0]))
    ensures Slug(front + run + rest) == front + ['-'] + Slug(rest)
    decreases |run| + |rest|
  {
    var value := front + run + rest;
    var n := |value| - 1;
    if rest != "" {
      var m := |rest| - 1;
      assert value[..n] == front + run + rest[..m] && value[n] == rest[m];
      SlugOfRun(front, run, rest[..m]);
      assert |rest| > 1 ==> value[n - 1] == rest[m - 1];
    } else if |run| > 1 {
      assert value[..n] == front + run[..|run| - 1] + rest && value[n] == run[|run| - 1] && value[n - 1] == run[|run| - 2];
      SlugOfRun(front, run[..|run| - 1], rest);
    } else {
      assert value[..n] == front && value[n] == run[0];
      SlugIsPlain(front);
      assert |value| > 1 ==> value[n - 1] == front[n - 1];
    }
  }

  predicate Loose(s: string) {
    forall i :: 0 <= i < |s| ==> s[i] == '-'
  }

  predicate Bounded(s: string) {
    s == "" || (s[0] != '-' && s[|s| - 1] != '-')
  }

  lemma {:induction false} StartParts(s: string) returns (cut: string)
    ensures s == cut + TrimStart(s) && Loose(cut) && (TrimStart(s) == "" || TrimStart(s)[0] != '-')
  {
    cut := "";
    if s != "" && s[0] == '-' {
      var less := StartParts(s[1..]);
      cut := [s[0]] + less;
      assert s == [s[0]] + s[1..];
    }
  }

  lemma {:induction false} EndParts(s: string) returns (cut: string)
    ensures s == TrimEnd(s) + cut && Loose(cut) && (TrimEnd(s) == "" || TrimEnd(s)[|TrimEnd(s)| - 1] != '-')
  {
    cut := "";
    if s != "" && s[|s| - 1] == '-' {
      var less := EndParts(s[..|s| - 1]);
      cut := less + [s[|s| - 1]];
      assert s == s[..|s| - 1] + [s[|s| - 1]];
    }
  }

  /** Trimming takes separators only, until none is left at either end. */
  lemma TrimParts(s: string, kept: string) returns (before: string, after: string)
    requires kept == TrimEnd(TrimStart(s))
    ensures s == before + kept + after && Loose(before) && Loose(after) && Bounded(kept)
  {
    before := StartParts(s);
    var inner := TrimStart(s);
    after := EndParts(inner);
    assert inner == kept + after;
    assert kept != "" ==> kept[0] == inner[0];
    assert s == before + kept + after;
  }

  lemma NothingToTrim(before: string, kept: string, after: string, s: string)
    requires s == before + kept + after && Loose(before) && Loose(after) && Bounded(s) && s != ""
    ensures kept == s
  {
    assert before == "" && after == "";
  }

  lemma PlainMiddle(a: string, b: string, c: string)
    requires Plain(a + b + c)
    ensures Plain(b)
  {
    forall i | 0 <= i < |b| ensures SlugCharacter(b[i]) {
      assert (a + b + c)[|a| + i] == b[i];
    }
  }

  lemma CutIsPlain(kept: string)
    requires Plain(kept)
    ensures Plain("identity") && (|kept| > 48 ==> Plain(kept[..48]))
  {
  }

  /**
   The readable part is the slug without the separators around it, cut to 48 characters, and a fixed word when nothing is
   left; a plain value of at most 48 characters that no separator surrounds is its own readable part.
   */
  lemma ReadableIs(value: string) returns (before: string, kept: string, after: string)
    ensures Slug(value) == before + kept + after && Loose(before) && Loose(after) && Bounded(kept)
    ensures Readable(value) == if kept == "" then "identity" else if |kept| <= 48 then kept else kept[..48]
    ensures Readable(value) != "" && Plain(Readable(value))
    ensures value != "" && Plain(value) && Bounded(value) && |value| <= 48 ==> Readable(value) == value
  {
    var slug := Slug(value);
    kept := TrimEnd(TrimStart(slug));
    SlugIsPlain(value);
    before, after := TrimParts(slug, kept);
    PlainMiddle(before, kept, after);
    CutIsPlain(kept);
    if value != "" && Plain(value) && Bounded(value) {
      NothingToTrim(before, kept, after, slug);
    }
  }
}
