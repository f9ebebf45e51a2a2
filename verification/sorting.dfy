/**
 Stable sorting, as the source's `sort_by` and `sort_by_key` do it, byte-wise string order, and the
 ascending key order in which the source's ordered maps are iterated.
 */
module Sorting {
  import opened Prelude

  ghost predicate TotalAt<T>(le: (T, T) -> bool, a: T, b: T) {
    le(a, b) || le(b, a)
  }

  ghost predicate TransitiveAt<T>(le: (T, T) -> bool, a: T, b: T, c: T) {
    le(a, b) && le(b, c) ==> le(a, c)
  }

  ghost predicate TotalPreorder<T(!new)>(le: (T, T) -> bool) {
    && (forall a, b :: TotalAt(le, a, b))
    && (forall a, b, c :: TransitiveAt(le, a, b, c))
  }

  lemma Total<T(!new)>(le: (T, T) -> bool, a: T, b: T)
    requires TotalPreorder(le)
    ensures le(a, b) || le(b, a)
  {
    assert TotalAt(le, a, b);
  }

  lemma Transitive<T(!new)>(le: (T, T) -> bool, a: T, b: T, c: T)
    requires TotalPreorder(le) && le(a, b) && le(b, c)
    ensures le(a, c)
  {
    assert TransitiveAt(le, a, b, c);
  }

  ghost predicate SortedBy<T>(s: seq<T>, le: (T, T) -> bool) {
    forall i, j :: 0 <= i < j < |s| ==> le(s[i], s[j])
  }

  /** Insert `x` behind every element that may stay in front of it. */
  function Insert<T>(s: seq<T>, x: T, le: (T, T) -> bool): seq<T> {
    if s == [] then [x]
    else if le(s[|s| - 1], x) then s + [x]
    else Insert(s[..|s| - 1], x, le) + [s[|s| - 1]]
  }

  /** Stable insertion sort. */
  function Sort<T>(s: seq<T>, le: (T, T) -> bool): seq<T> {
    if s == [] then [] else Insert(Sort(s[..|s| - 1], le), s[|s| - 1], le)
  }

  lemma {:induction false} InsertMultiset<T>(s: seq<T>, x: T, le: (T, T) -> bool)
    ensures multiset(Insert(s, x, le)) == multiset(s) + multiset{x}
  {
    if s != [] {
      var n := |s| - 1;
      assert s == s[..n] + [s[n]];
      InsertMultiset(s[..n], x, le);
    }
  }

  lemma {:induction false} SortMultiset<T>(s: seq<T>, le: (T, T) -> bool)
    ensures multiset(Sort(s, le)) == multiset(s)
  {
    if s != [] {
      var n := |s| - 1;
      assert s == s[..n] + [s[n]];
      SortMultiset(s[..n], le);
      InsertMultiset(Sort(s[..n], le), s[n], le);
    }
  }

  lemma SortMembers<T(!new)>(s: seq<T>, le: (T, T) -> bool)
    ensures |Sort(s, le)| == |s|
    ensures forall x :: x in Sort(s, le) <==> x in s
  {
    SortMultiset(s, le);
    assert |multiset(s)| == |s| && |multiset(Sort(s, le))| == |Sort(s, le)|;
    forall x ensures x in Sort(s, le) <==> x in s {
      assert x in Sort(s, le) <==> x in multiset(Sort(s, le));
    }
  }

  lemma {:induction false} InsertSorted<T(!new)>(s: seq<T>, x: T, le: (T, T) -> bool)
    requires TotalPreorder(le) && SortedBy(s, le)
    ensures SortedBy(Insert(s, x, le), le)
  {
    if s != [] {
      var n := |s| - 1;
      if le(s[n], x) {
        forall i | 0 <= i < n ensures le(s[i], x) {
          Transitive(le, s[i], s[n], x);
        }
      } else {
        InsertSorted(s[..n], x, le);
        var t := Insert(s[..n], x, le);
        InsertMultiset(s[..n], x, le);
        Total(le, s[n], x);
        forall i | 0 <= i < |t| ensures le(t[i], s[n]) {
          assert t[i] in multiset(t);
          assert t[i] in multiset(s[..n]) + multiset{x};
          assert t[i] == x || t[i] in s[..n];
        }
      }
    }
  }

  lemma {:induction false} SortSorted<T(!new)>(s: seq<T>, le: (T, T) -> bool)
    requires TotalPreorder(le)
    ensures SortedBy(Sort(s, le), le)
  {
    if s != [] {
      var n := |s| - 1;
      SortSorted(s[..n], le);
      InsertSorted(Sort(s[..n], le), s[n], le);
    }
  }

  lemma {:induction false} FilterInsert<T(!new)>(s: seq<T>, x: T, le: (T, T) -> bool, p: T -> bool)
    requires TotalPreorder(le) && SortedBy(s, le)
    ensures Filter(Insert(s, x, le), p) == if p(x) then Insert(Filter(s, p), x, le) else Filter(s, p)
  {
    if s == [] {
      FilterAppend([], x, p);
      assert [] + [x] == [x];
    } else {
      var n := |s| - 1;
      if le(s[n], x) {
        FilterAppend(s, x, p);
        if Filter(s, p) != [] {
          FilteredLast(s, le, p);
          Transitive(le, Filter(s, p)[|Filter(s, p)| - 1], s[n], x);
        }
      } else {
        FilterInsert(s[..n], x, le, p);
        FilterAppend(Insert(s[..n], x, le), s[n], p);
        if p(s[n]) {
          var f := Filter(s, p);
          assert f[..|f| - 1] == Filter(s[..n], p) && f[|f| - 1] == s[n];
        } else {
          assert Filter(s, p) == Filter(s[..n], p);
        }
      }
    }
  }

  lemma {:induction false} FilteredLast<T(!new)>(s: seq<T>, le: (T, T) -> bool, p: T -> bool)
    requires TotalPreorder(le) && SortedBy(s, le) && Filter(s, p) != []
    ensures le(Filter(s, p)[|Filter(s, p)| - 1], s[|s| - 1])
  {
    var n := |s| - 1;
    if p(s[n]) {
      Total(le, s[n], s[n]);
    } else {
      assert Filter(s, p) == Filter(s[..n], p);
      FilteredLast(s[..n], le, p);
      Transitive(le, Filter(s, p)[|Filter(s, p)| - 1], s[n - 1], s[n]);
    }
  }

  /** Stability: sorting commutes with keeping only part of the elements. */
  lemma {:induction false} FilterSort<T(!new)>(s: seq<T>, le: (T, T) -> bool, p: T -> bool)
    requires TotalPreorder(le)
    ensures Filter(Sort(s, le), p) == Sort(Filter(s, p), le)
  {
    if s != [] {
      var n := |s| - 1;
      FilterSort(s[..n], le, p);
      SortSorted(s[..n], le);
      FilterInsert(Sort(s[..n], le), s[n], le, p);
      if p(s[n]) {
        var f := Filter(s, p);
        assert f[..|f| - 1] == Filter(s[..n], p) && f[|f| - 1] == s[n];
      } else {
        assert Filter(s, p) == Filter(s[..n], p);
      }
    }
  }

  /** `le` tells apart the elements of `s`: only equal ones are ordered both ways. */
  ghost predicate AntisymmetricOn<T(!new)>(le: (T, T) -> bool, s: seq<T>) {
    forall a, b :: a in s && b in s ==> AntisymmetricAt(le, a, b)
  }

  ghost predicate AntisymmetricAt<T>(le: (T, T) -> bool, a: T, b: T) {
    le(a, b) && le(b, a) ==> a == b
  }

  /** `Vec::dedup`: drop an element equal to the one kept just before it. */
  function Dedup<T(==,!new)>(s: seq<T>): (r: seq<T>)
    ensures |r| <= |s|
    ensures forall x :: x in r <==> x in s
    ensures s != [] ==> r != [] && r[|r| - 1] == s[|s| - 1]
  {
    if |s| <= 1 then s
    else
      var n := |s| - 1;
      assert s == s[..n] + [s[n]];
      var d := Dedup(s[..n]);
      if d[|d| - 1] == s[n] then d else d + [s[n]]
  }

  ghost predicate StrictlySorted<T>(s: seq<T>, le: (T, T) -> bool) {
    forall i, j :: 0 <= i < j < |s| ==> le(s[i], s[j]) && s[i] != s[j]
  }

  lemma {:induction false} DedupStrict<T(!new)>(s: seq<T>, le: (T, T) -> bool)
    requires TotalPreorder(le) && AntisymmetricOn(le, s) && SortedBy(s, le)
    ensures StrictlySorted(Dedup(s), le)
  {
    if |s| > 1 {
      var n := |s| - 1;
      DedupStrict(s[..n], le);
      var d := Dedup(s[..n]);
      if d[|d| - 1] != s[n] {
        forall i | 0 <= i < |d| ensures le(d[i], s[n]) && d[i] != s[n] {
          assert d[i] in s[..n];
          assert d[i] in s && d[|d| - 1] in s;
          assert AntisymmetricAt(le, d[i], d[|d| - 1]);
          assert d[|d| - 1] == s[n - 1];
        }
      }
    }
  }

  /** Two strictly sorted sequences over the same elements are the same sequence. */
  lemma {:induction false} StrictUnique<T(!new)>(a: seq<T>, b: seq<T>, le: (T, T) -> bool)
    requires TotalPreorder(le) && AntisymmetricOn(le, a)
    requires StrictlySorted(a, le) && StrictlySorted(b, le)
    requires forall x :: x in a <==> x in b
    ensures a == b
  {
    assert a != [] ==> a[0] in b;
    assert b != [] ==> b[0] in a;
    if a != [] {
      var n, m := |a| - 1, |b| - 1;
      var x, y := a[n], b[m];
      assert x in b && y in a;
      Total(le, x, x);
      assert le(x, y) by {
        var i :| 0 <= i < |b| && b[i] == x;
      }
      assert le(y, x) by {
        var i :| 0 <= i < |a| && a[i] == y;
      }
      assert AntisymmetricAt(le, x, y);
      forall z ensures z in a[..n] <==> z in b[..m] {
        assert z in a[..n] ==> z in a && z != x;
        assert z in b[..m] ==> z in b && z != y;
        if z in a && z != x {
          var i :| 0 <= i < |a| && a[i] == z;
          assert a[..n][i] == z;
        }
        if z in b && z != y {
          var i :| 0 <= i < |b| && b[i] == z;
          assert b[..m][i] == z;
        }
      }
      StrictUnique(a[..n], b[..m], le);
      assert a == a[..n] + [x] && b == b[..m] + [y];
    }
  }

  function SortDedup<T(==,!new)>(s: seq<T>, le: (T, T) -> bool): (r: seq<T>)
    ensures forall x :: x in r <==> x in s
  {
    SortMembers(s, le);
    Dedup(Sort(s, le))
  }

  /** Sorting and deduplicating depends on the set of elements alone. */
  lemma SortDedupCanonical<T(!new)>(a: seq<T>, b: seq<T>, le: (T, T) -> bool)
    requires TotalPreorder(le) && AntisymmetricOn(le, a)
    requires forall x :: x in a <==> x in b
    ensures SortDedup(a, le) == SortDedup(b, le)
    ensures StrictlySorted(SortDedup(a, le), le)
  {
    SortDedupStrict(a, le);
    SortDedupStrict(b, le);
    StrictUnique(SortDedup(a, le), SortDedup(b, le), le);
  }

  lemma SortDedupStrict<T(!new)>(a: seq<T>, le: (T, T) -> bool)
    requires TotalPreorder(le) && AntisymmetricOn(le, a)
    ensures StrictlySorted(SortDedup(a, le), le)
  {
    SortSorted(a, le);
    SortMembers(a, le);
    DedupStrict(Sort(a, le), le);
  }

  /** String order by scalar value, which is the byte order of the UTF-8 encodings. */
  predicate LexLe(a: string, b: string) {
    a == [] || (b != [] && (a[0] < b[0] || (a[0] == b[0] && LexLe(a[1..], b[1..]))))
  }

  lemma {:induction false} LexTotal(a: string, b: string)
    ensures LexLe(a, b) || LexLe(b, a)
  {
    if a != [] && b != [] && a[0] == b[0] {
      LexTotal(a[1..], b[1..]);
    }
  }

  lemma {:induction false} LexTransitive(a: string, b: string, c: string)
    requires LexLe(a, b) && LexLe(b, c)
    ensures LexLe(a, c)
  {
    if a != [] && a[0] == b[0] && b[0] == c[0] {
      LexTransitive(a[1..], b[1..], c[1..]);
    }
  }

  lemma {:induction false} LexAntisymmetric(a: string, b: string)
    requires LexLe(a, b) && LexLe(b, a)
    ensures a == b
  {
    if a != [] {
      LexAntisymmetric(a[1..], b[1..]);
      assert a == [a[0]] + a[1..] && b == [b[0]] + b[1..];
    }
  }

  ghost predicate Lowest(s: set<string>, x: string) {
    x in s && forall y :: y in s ==> LexLe(x, y)
  }

  lemma LowestWith(s: set<string>, x: string, z: string)
    requires Lowest(s, x)
    ensures Lowest(s + {z}, if LexLe(x, z) then x else z)
  {
    LexTotal(x, z);
    LexTotal(z, z);
    forall y | y in s && !LexLe(x, z) ensures LexLe(z, y) {
      LexTransitive(z, x, y);
    }
  }

  lemma {:induction false} LeastExists(s: set<string>)
    requires s != {}
    ensures exists x :: Lowest(s, x)
  {
    var z :| z in s;
    var rest := s - {z};
    assert s == rest + {z};
    if rest == {} {
      LexTotal(z, z);
      assert Lowest(s, z);
    } else {
      LeastExists(rest);
      var x :| Lowest(rest, x);
      LowestWith(rest, x, z);
    }
  }

  lemma OneLowest(s: set<string>)
    ensures forall x, y :: x in s && y in s && LexLe(x, y) && LexLe(y, x) ==> x == y
  {
    forall x, y | x in s && y in s && LexLe(x, y) && LexLe(y, x) ensures x == y {
      LexAntisymmetric(x, y);
    }
  }

  function Least(s: set<string>): (x: string)
    requires s != {}
    ensures x in s && forall y :: y in s ==> LexLe(x, y)
  {
    LeastExists(s);
    OneLowest(s);
    assert exists x :: x in s && forall y :: y in s ==> LexLe(x, y) by {
      var x :| Lowest(s, x);
    }
    var x :| x in s && forall y :: y in s ==> LexLe(x, y);
    x
  }

  /** The keys of an ordered map or set in iteration order. */
  function SortedKeys(s: set<string>): (r: seq<string>)
    ensures forall k :: k in r <==> k in s
    ensures forall i, j :: 0 <= i < j < |r| ==> r[i] != r[j]
    ensures SortedBy(r, LexLe)
  {
    if s == {} then []
    else
      var x := Least(s);
      [x] + SortedKeys(s - {x})
  }
}
