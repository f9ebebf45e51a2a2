/** Decimal text of unsigned integers, as the source prints and parses it, and first-occurrence splitting. */
module Decimal {
  import opened Prelude

  predicate IsDigit(c: char) {
    '0' <= c <= '9'
  }

  predicate AllDigits(s: string) {
    forall i :: 0 <= i < |s| ==> IsDigit(s[i])
  }

  function DigitValue(c: char): (d: nat)
    requires IsDigit(c)
    ensures d < 10
  {
    c as int - '0' as int
  }

  function DigitChar(d: nat): (c: char)
    requires d < 10
    ensures IsDigit(c) && DigitValue(c) == d
  {
    ('0' as int + d) as char
  }

  function Print(n: nat): (s: string)
    ensures s != [] && AllDigits(s)
  {
    if n < 10 then [DigitChar(n)] else Print(n / 10) + [DigitChar(n % 10)]
  }

  function Value(s: string): nat
    requires AllDigits(s)
  {
    if s == [] then 0 else 10 * Value(s[..|s| - 1]) + DigitValue(s[|s| - 1])
  }

  lemma {:induction false} ValueOfPrint(n: nat)
    ensures Value(Print(n)) == n
  {
    if n >= 10 {
      ValueOfPrint(n / 10);
      assert Print(n)[..|Print(n)| - 1] == Print(n / 10);
    }
  }

  /** Behind one prefix, different numbers are different texts. */
  lemma SameTextSameNumber(prefix: string, a: nat, b: nat)
    requires prefix + ['-'] + Print(a) == prefix + ['-'] + Print(b)
    ensures a == b
  {
    assert (prefix + ['-'] + Print(a))[|prefix| + 1..] == Print(a);
    assert (prefix + ['-'] + Print(b))[|prefix| + 1..] == Print(b);
    ValueOfPrint(a);
    ValueOfPrint(b);
  }

  function Pow10(n: nat): (p: nat)
    ensures p > 0
  {
    if n == 0 then 1 else 10 * Pow10(n - 1)
  }

  /** A number prints in at most `k` digits exactly when it is below the `k`-th power of ten. */
  lemma {:induction false} PrintLength(n: nat, k: nat)
    requires k > 0
    ensures |Print(n)| <= k <==> n < Pow10(k)
  {
    if n >= 10 && k > 1 {
      PrintLength(n / 10, k - 1);
    } else if n >= 10 {
      assert Pow10(1) == 10 * Pow10(0);
    } else {
      assert Pow10(k) == 10 * Pow10(k - 1);
    }
  }

  lemma {:induction false} PrintHasNoLeadingZero(n: nat)
    requires n > 0
    ensures Print(n)[0] != '0'
  {
    if n >= 10 {
      PrintHasNoLeadingZero(n / 10);
    }
  }

  /** `str::parse` on an unsigned type: one optional plus sign, then digits, at most `max`. */
  function ParseUnsigned(s: string, max: nat): Option<nat> {
    var digits := if s != [] && s[0] == '+' then s[1..] else s;
    if digits == [] || !AllDigits(digits) || Value(digits) > max then None else Some(Value(digits))
  }

  lemma ParsePrinted(n: nat, max: nat)
    requires n <= max
    ensures ParseUnsigned(Print(n), max) == Some(n)
  {
    ValueOfPrint(n);
  }

  /** Index of the first `c` in `s`, or `|s|`. */
  function IndexOf(s: string, c: char): (i: nat)
    ensures i <= |s|
    ensures forall k :: 0 <= k < i ==> s[k] != c
    ensures i < |s| ==> s[i] == c
  {
    if s == [] || s[0] == c then 0 else 1 + IndexOf(s[1..], c)
  }

  lemma IndexOfFirst(a: string, c: char, b: string)
    requires c !in a
    ensures IndexOf(a + [c] + b, c) == |a|
  {
    var s := a + [c] + b;
    assert s[|a|] == c;
    forall k | 0 <= k < |a| ensures s[k] != c {
      assert s[k] == a[k];
    }
    assert IndexOf(s, c) == |a|;
  }

  /** `str::split_once`. */
  function SplitOnce(s: string, c: char): Option<(string, string)> {
    var i := IndexOf(s, c);
    if i == |s| then None else Some((s[..i], s[i + 1..]))
  }

  lemma SplitOnceJoined(a: string, c: char, b: string)
    requires c !in a
    ensures SplitOnce(a + [c] + b, c) == Some((a, b))
  {
    IndexOfFirst(a, c, b);
    var s := a + [c] + b;
    assert s[..|a|] == a && s[|a| + 1..] == b;
  }

  lemma SplitOnceParts(s: string, c: char, a: string, b: string)
    requires SplitOnce(s, c) == Some((a, b))
    ensures s == a + [c] + b
  {
    var i := IndexOf(s, c);
    assert s[i..] == [s[i]] + s[i + 1..];
  }

  lemma DigitsAvoid(s: string, c: char)
    requires AllDigits(s) && !IsDigit(c)
    ensures c !in s
  {
  }
}
