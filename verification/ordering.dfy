/** The order `list.sort()` puts strings in: code-point lexicographic
    order, as Python compares `str` values. */
module Ordering {

  /** `a <= b` on Python strings: `a` is a prefix of `b`, or at the first
      position where they differ `a` has the smaller code point. */
  predicate LexLe(a: string, b: string)
    ensures a <= b ==> LexLe(a, b)
    decreases |a|
  {
    |a| == 0 || (|b| > 0 && (a[0] < b[0] || (a[0] == b[0] && LexLe(a[1..], b[1..]))))
  }

  lemma {:induction false} LexLeTotal(a: string, b: string)
    ensures LexLe(a, b) || LexLe(b, a)
    decreases |a|
  {
    if |a| > 0 && |b| > 0 && a[0] == b[0] {
      LexLeTotal(a[1..], b[1..]);
    }
  }

  lemma {:induction false} LexLeAntisymmetric(a: string, b: string)
    requires LexLe(a, b) && LexLe(b, a)
    ensures a == b
    decreases |a|
  {
    if |a| > 0 {
      LexLeAntisymmetric(a[1..], b[1..]);
      assert a == [a[0]] + a[1..] && b == [b[0]] + b[1..];
    }
  }

  lemma {:induction false} LexLeTransitive(a: string, b: string, c: string)
    requires LexLe(a, b) && LexLe(b, c)
    ensures LexLe(a, c)
    decreases |a|
  {
    if |a| > 0 && a[0] == b[0] && b[0] == c[0] {
      LexLeTransitive(a[1..], b[1..], c[1..]);
    }
  }

  predicate Sorted(xs: seq<string>)
  {
    forall i, j :: 0 <= i < j < |xs| ==> LexLe(xs[i], xs[j])
  }

  /** Puts `x` into a sorted list at its place. */
  function Insert(x: string, xs: seq<string>): (r: seq<string>)
    requires Sorted(xs)
    ensures Sorted(r)
    ensures multiset(r) == multiset(xs) + multiset{x}
  {
    if |xs| == 0 then [x]
    else if LexLe(x, xs[0]) then
      InsertHead(x, xs);
      [x] + xs
    else
      SortedTail(xs);
      var rest := Insert(x, xs[1..]);
      InsertBehind(x, xs, rest);
      [xs[0]] + rest
  }

  lemma InsertHead(x: string, xs: seq<string>)
    requires Sorted(xs) && |xs| > 0 && LexLe(x, xs[0])
    ensures Sorted([x] + xs)
  {
    forall i, j | 0 <= i < j < |[x] + xs| ensures LexLe(([x] + xs)[i], ([x] + xs)[j]) {
      if i == 0 && j > 1 {
        LexLeTransitive(x, xs[0], xs[j - 1]);
      }
    }
  }

  lemma InsertBehind(x: string, xs: seq<string>, rest: seq<string>)
    requires Sorted(xs) && |xs| > 0 && !LexLe(x, xs[0])
    requires Sorted(rest) && multiset(rest) == multiset(xs[1..]) + multiset{x}
    ensures Sorted([xs[0]] + rest)
    ensures multiset([xs[0]] + rest) == multiset(xs) + multiset{x}
  {
    assert xs == [xs[0]] + xs[1..];
    LexLeTotal(x, xs[0]);
    forall j | 0 <= j < |rest| ensures LexLe(xs[0], rest[j]) {
      assert rest[j] in multiset(rest);
      if rest[j] != x {
        assert rest[j] in multiset(xs[1..]);
        var k :| 0 <= k < |xs[1..]| && xs[1..][k] == rest[j];
        assert xs[k + 1] == rest[j];
      }
    }
    var r := [xs[0]] + rest;
    forall i, j | 0 <= i < j < |r| ensures LexLe(r[i], r[j]) {
      if i > 0 { assert r[i] == rest[i - 1] && r[j] == rest[j - 1]; }
      else { assert r[j] == rest[j - 1]; }
    }
  }

  /** `list.sort()` on strings, as an insertion sort. */
  function SortStrings(xs: seq<string>): (r: seq<string>)
    ensures Sorted(r)
    ensures multiset(r) == multiset(xs)
  {
    if |xs| == 0 then []
    else
      assert xs == xs[..|xs| - 1] + [xs[|xs| - 1]];
      Insert(xs[|xs| - 1], SortStrings(xs[..|xs| - 1]))
  }

  lemma SortedTail(xs: seq<string>)
    requires Sorted(xs) && |xs| > 0
    ensures Sorted(xs[1..])
  {
    forall i, j | 0 <= i < j < |xs[1..]| ensures LexLe(xs[1..][i], xs[1..][j]) {
      assert xs[1..][i] == xs[i + 1] && xs[1..][j] == xs[j + 1];
    }
  }

  /** The head of a sorted list is below every element of it. */
  lemma SortedHeadLeast(xs: seq<string>, y: string)
    requires Sorted(xs) && y in multiset(xs)
    ensures LexLe(xs[0], y)
  {
    var k :| 0 <= k < |xs| && xs[k] == y;
    if k == 0 {
      LexLeTotal(y, y);
    }
  }

  lemma MultisetTail(xs: seq<string>)
    requires |xs| > 0
    ensures multiset(xs[1..]) == multiset(xs) - multiset{xs[0]}
  {
    assert xs == [xs[0]] + xs[1..];
  }

  /** Two sorted arrangements of one multiset start with the same string. */
  lemma SortedSameHead(xs: seq<string>, ys: seq<string>)
    requires Sorted(xs) && Sorted(ys) && multiset(xs) == multiset(ys) && |xs| > 0
    ensures |ys| > 0 && xs[0] == ys[0]
  {
    assert |multiset(ys)| == |multiset(xs)| == |xs|;
    assert xs[0] in multiset(ys);
    SortedHeadLeast(ys, xs[0]);
    assert ys[0] in multiset(xs);
    SortedHeadLeast(xs, ys[0]);
    LexLeAntisymmetric(xs[0], ys[0]);
  }

  /** There is only one sorted arrangement of a multiset of strings, so any
      sorting algorithm (Python's is Timsort) gives this same list. */
  lemma {:induction false} SortedUnique(xs: seq<string>, ys: seq<string>)
    requires Sorted(xs) && Sorted(ys) && multiset(xs) == multiset(ys)
    ensures xs == ys
    decreases |xs|
  {
    if |xs| > 0 {
      SortedSameHead(xs, ys);
      MultisetTail(xs);
      MultisetTail(ys);
      SortedTail(xs);
      SortedTail(ys);
      SortedUnique(xs[1..], ys[1..]);
      assert xs == [xs[0]] + xs[1..] && ys == [ys[0]] + ys[1..];
    } else {
      assert |multiset(ys)| == 0;
    }
  }
}
