/** Shared vocabulary: optional values, machine bounds and small facts about sequences. */
module Prelude {

  datatype Option<+T> = None | Some(value: T)

  /** Largest values of the source's `u32` and `u64`, and of a JavaScript safe integer. */
  const U32_MAX: nat := 0xFFFF_FFFF
  const U64_MAX: nat := 0xFFFF_FFFF_FFFF_FFFF
  const MAX_SAFE_INTEGER: nat := 9_007_199_254_740_991

  function Min(a: int, b: int): int {
    if a < b then a else b
  }

  function Max(a: int, b: int): int {
    if a < b then b else a
  }

  /** `saturating_sub` on the source's unsigned integers. */
  function SaturatingSub(a: nat, b: nat): nat {
    if a < b then 0 else a - b
  }

  /** What a map of counts says of a key. */
  function CountOf<K>(counts: map<K, nat>, key: K): nat {
    if key in counts then counts[key] else 0
  }

  /** The last `n` elements, or all of them when there are fewer. */
  function LastN<T>(s: seq<T>, n: nat): (r: seq<T>)
    ensures |r| == Min(n, |s|)
    ensures forall k :: 0 <= k < |r| ==> r[k] == s[|s| - |r| + k]
  {
    if |s| <= n then s else s[|s| - n..]
  }

  lemma LastNAppend<T>(s: seq<T>, x: T, n: nat)
    requires n > 0
    ensures LastN(s + [x], n) == LastN(LastN(s, n) + [x], n)
  {
    var a := LastN(s + [x], n);
    var b := LastN(LastN(s, n) + [x], n);
    assert |a| == |b|;
    forall k | 0 <= k < |a| ensures a[k] == b[k] {
    }
  }

  lemma LastNDrop<T>(s: seq<T>, n: nat)
    requires |s| > n
    ensures LastN(s[1..], n) == LastN(s, n)
  {
  }

  /** Elements satisfying `p`, in their original order. */
  function Filter<T>(s: seq<T>, p: T -> bool): seq<T> {
    if s == [] then []
    else Filter(s[..|s| - 1], p) + (if p(s[|s| - 1]) then [s[|s| - 1]] else [])
  }

  lemma {:induction false} FilterMembers<T(!new)>(s: seq<T>, p: T -> bool)
    ensures |Filter(s, p)| <= |s|
    ensures forall x :: x in Filter(s, p) <==> x in s && p(x)
  {
    if s != [] {
      var n := |s| - 1;
      FilterMembers(s[..n], p);
      assert s == s[..n] + [s[n]];
    }
  }

  lemma FilterAppend<T>(s: seq<T>, x: T, p: T -> bool)
    ensures Filter(s + [x], p) == Filter(s, p) + (if p(x) then [x] else [])
  {
    assert (s + [x])[..|s|] == s;
  }

  lemma {:induction false} FilterConcat<T>(a: seq<T>, b: seq<T>, p: T -> bool)
    ensures Filter(a + b, p) == Filter(a, p) + Filter(b, p)
    decreases |b|
  {
    if b == [] {
      assert a + b == a;
    } else {
      var n := |b| - 1;
      assert b == b[..n] + [b[n]];
      assert a + b == (a + b[..n]) + [b[n]];
      FilterConcat(a, b[..n], p);
      FilterAppend(a + b[..n], b[n], p);
    }
  }

  /** Filtering depends on what the predicate says, element by element. */
  lemma {:induction false} SamePointwise<T(!new)>(s: seq<T>, p: T -> bool, q: T -> bool)
    requires forall x :: p(x) == q(x)
    ensures Filter(s, p) == Filter(s, q)
  {
    if s != [] {
      SamePointwise(s[..|s| - 1], p, q);
    }
  }

  /** The first element that satisfies `p` heads the filtered sequence. */
  lemma {:induction false} FirstFiltered<T(!new)>(s: seq<T>, p: T -> bool, i: nat)
    requires i < |s| && p(s[i]) && forall k :: 0 <= k < i ==> !p(s[k])
    ensures Filter(s, p) != [] && Filter(s, p)[0] == s[i]
  {
    var n := |s| - 1;
    if i < n {
      FirstFiltered(s[..n], p, i);
    } else {
      forall x | x in s[..n] ensures !p(x) {
      }
      FilterNone(s[..n], p);
    }
  }

  /** If at most one element satisfies `p`, it is the filtered sequence. */
  lemma SoleFiltered<T(!new)>(s: seq<T>, p: T -> bool, x: T)
    requires x in s && p(x) && |Filter(s, p)| <= 1
    ensures Filter(s, p) == [x]
  {
    FilterMembers(s, p);
    assert x in Filter(s, p);
  }

  lemma {:induction false} FewerFiltered<T(!new)>(s: seq<T>, p: T -> bool, q: T -> bool)
    requires forall x :: p(x) ==> q(x)
    ensures |Filter(s, p)| <= |Filter(s, q)|
  {
    if s != [] {
      FewerFiltered(s[..|s| - 1], p, q);
    }
  }

  lemma {:induction false} FilterAll<T(!new)>(s: seq<T>, p: T -> bool)
    requires forall x :: x in s ==> p(x)
    ensures Filter(s, p) == s
  {
    if s != [] {
      var n := |s| - 1;
      assert s == s[..n] + [s[n]];
      assert s[n] in s && forall x :: x in s[..n] ==> x in s;
      FilterAll(s[..n], p);
    }
  }

  lemma {:induction false} FilterNone<T(!new)>(s: seq<T>, p: T -> bool)
    requires forall x :: x in s ==> !p(x)
    ensures Filter(s, p) == []
  {
    if s != [] {
      var n := |s| - 1;
      assert s == s[..n] + [s[n]];
      assert s[n] in s && forall x :: x in s[..n] ==> x in s;
      FilterNone(s[..n], p);
    }
  }

  lemma FilterMultiset<T(!new)>(a: seq<T>, b: seq<T>, p: T -> bool)
    requires multiset(a) == multiset(b)
    ensures multiset(Filter(a, p)) == multiset(Filter(b, p))
  {
    forall x ensures multiset(Filter(a, p))[x] == multiset(Filter(b, p))[x] {
      FilterMultiplicity(a, p, x);
      FilterMultiplicity(b, p, x);
    }
  }

  lemma {:induction false} FilterMultiplicity<T(!new)>(s: seq<T>, p: T -> bool, x: T)
    ensures multiset(Filter(s, p))[x] == if p(x) then multiset(s)[x] else 0
  {
    if s != [] {
      var n := |s| - 1;
      FilterMultiplicity(s[..n], p, x);
      assert s == s[..n] + [s[n]];
    }
  }

  lemma SameSingleton<T(!new)>(a: seq<T>, b: seq<T>)
    requires multiset(a) == multiset(b)
    ensures |a| == |b| && (|a| == 1 ==> a[0] == b[0])
  {
    assert |multiset(a)| == |multiset(b)|;
    if |a| == 1 {
      assert a[0] in multiset(b);
    }
  }

  /** Filtering a rearrangement keeps as many elements, and a single one is the same. */
  lemma FilterRearranged<T(!new)>(a: seq<T>, b: seq<T>, p: T -> bool)
    requires multiset(a) == multiset(b)
    ensures |Filter(a, p)| == |Filter(b, p)|
    ensures |Filter(a, p)| == 1 ==> Filter(a, p) == Filter(b, p)
  {
    FilterMultiset(a, b, p);
    SameSingleton(Filter(a, p), Filter(b, p));
    if |Filter(a, p)| == 1 {
      assert Filter(a, p) == [Filter(a, p)[0]] && Filter(b, p) == [Filter(b, p)[0]];
    }
  }

  /** Two positions that satisfy `p` are two elements of the filtered sequence. */
  lemma {:induction false} TwoFiltered<T(!new)>(s: seq<T>, p: T -> bool, i: nat, j: nat)
    requires i < j < |s| && p(s[i]) && p(s[j])
    ensures |Filter(s, p)| >= 2
  {
    var n := |s| - 1;
    if j < n {
      TwoFiltered(s[..n], p, i, j);
    } else {
      FilterMembers(s[..n], p);
      assert s[i] in s[..n];
    }
  }

  /** Filtering a filtered sequence keeps no more than filtering the whole. */
  lemma {:induction false} FilterTwice<T(!new)>(s: seq<T>, p: T -> bool, q: T -> bool)
    ensures |Filter(Filter(s, p), q)| <= |Filter(s, q)|
  {
    if s != [] {
      var n := |s| - 1;
      FilterTwice(s[..n], p, q);
      if p(s[n]) {
        FilterAppend(Filter(s[..n], p), s[n], q);
      } else {
        assert Filter(s, p) == Filter(s[..n], p);
      }
    }
  }

  lemma {:induction false} FindOne<T>(s: seq<T>, p: T -> bool) returns (i: nat)
    requires |Filter(s, p)| >= 1
    ensures i < |s| && p(s[i])
  {
    var n := |s| - 1;
    if p(s[n]) {
      i := n;
    } else {
      i := FindOne(s[..n], p);
    }
  }

  lemma {:induction false} FindTwo<T>(s: seq<T>, p: T -> bool) returns (i: nat, j: nat)
    requires |Filter(s, p)| >= 2
    ensures i < j < |s| && p(s[i]) && p(s[j])
  {
    var n := |s| - 1;
    if p(s[n]) {
      i := FindOne(s[..n], p);
      j := n;
    } else {
      i, j := FindTwo(s[..n], p);
    }
  }

  /** The one position that satisfies `p` holds this element. */
  ghost predicate One<T>(s: seq<T>, p: T -> bool, x: T) {
    exists i :: OneAt(s, p, x, i)
  }

  ghost predicate OneAt<T>(s: seq<T>, p: T -> bool, x: T, i: nat) {
    i < |s| && s[i] == x && p(x) && forall j :: 0 <= j < |s| && p(s[j]) ==> j == i
  }

  ghost predicate NoneOf<T>(s: seq<T>, p: T -> bool) {
    forall i :: 0 <= i < |s| ==> !p(s[i])
  }

  lemma OneFiltered<T(!new)>(s: seq<T>, p: T -> bool, x: T)
    ensures Filter(s, p) == [x] <==> One(s, p, x)
    ensures Filter(s, p) == [] <==> NoneOf(s, p)
  {
    var kept := Filter(s, p);
    FilterMembers(s, p);
    if kept == [x] {
      assert x in kept;
      var i :| 0 <= i < |s| && s[i] == x;
      forall j | 0 <= j < |s| && p(s[j]) ensures j == i {
        if j != i {
          TwoFiltered(s, p, Min(i, j), Max(i, j));
        }
      }
      assert OneAt(s, p, x, i);
    }
    if One(s, p, x) {
      var i :| OneAt(s, p, x, i);
      assert x in kept;
      if |kept| >= 2 {
        var j, k := FindTwo(s, p);
      }
      assert kept == [kept[0]];
    }
    if kept != [] {
      assert kept[0] in kept;
    }
    if !NoneOf(s, p) {
      var i :| 0 <= i < |s| && p(s[i]);
      assert s[i] in kept;
    }
  }

  /** What each element leads to, in order. */
  function FlatMap<T, U>(s: seq<T>, f: T -> seq<U>): seq<U> {
    if s == [] then [] else FlatMap(s[..|s| - 1], f) + f(s[|s| - 1])
  }

  lemma FlatMapAppend<T, U>(s: seq<T>, x: T, f: T -> seq<U>)
    ensures FlatMap(s + [x], f) == FlatMap(s, f) + f(x)
  {
    assert (s + [x])[..|s|] == s;
  }

  lemma FlatMapStep<T, U>(items: seq<T>, k: nat, f: T -> seq<U>)
    requires k < |items|
    ensures FlatMap(items[..k + 1], f) == FlatMap(items[..k], f) + f(items[k])
  {
    assert items[..k + 1] == items[..k] + [items[k]];
    FlatMapAppend(items[..k], items[k], f);
  }

  lemma {:induction false} FlatMapOrigin<T(!new), U>(s: seq<T>, f: T -> seq<U>, y: U) returns (x: T)
    requires y in FlatMap(s, f)
    ensures x in s && y in f(x)
  {
    var n := |s| - 1;
    if y in FlatMap(s[..n], f) {
      x := FlatMapOrigin(s[..n], f, y);
    } else {
      x := s[n];
    }
  }

  lemma {:induction false} FlatMapMember<T(!new), U>(s: seq<T>, f: T -> seq<U>, x: T, y: U)
    requires x in s && y in f(x)
    ensures y in FlatMap(s, f)
  {
    var n := |s| - 1;
    assert s == s[..n] + [s[n]];
    if x in s[..n] {
      FlatMapMember(s[..n], f, x, y);
    }
  }
}
