/** Row-level building blocks the dashboard's dataframe expressions are made
    of: boolean-mask filtering and first-occurrence de-duplication. */
module Seqs {

  /** `r` is obtained from `s` by deleting elements, keeping the order of the rest. */
  predicate IsSubsequence<T(==,!new)>(r: seq<T>, s: seq<T>)
    decreases |s|
  {
    r == [] ||
    (|s| > 0 &&
     ((r[0] == s[0] && IsSubsequence(r[1..], s[1..])) || IsSubsequence(r, s[1..])))
  }

  /** Deleting elements twice is deleting elements once. */
  lemma {:induction false} SubsequenceTransitive<T(!new)>(a: seq<T>, b: seq<T>, c: seq<T>)
    requires IsSubsequence(a, b) && IsSubsequence(b, c)
    ensures IsSubsequence(a, c)
    decreases |c|
  {
    if a != [] {
      assert b != [] && c != [];
      if b[0] == c[0] && IsSubsequence(b[1..], c[1..]) {
        if a[0] == b[0] && IsSubsequence(a[1..], b[1..]) {
          SubsequenceTransitive(a[1..], b[1..], c[1..]);
        } else {
          SubsequenceTransitive(a, b[1..], c[1..]);
        }
      } else {
        SubsequenceTransitive(a, b, c[1..]);
      }
    }
  }

  /** `table[mask]`: the rows satisfying `keep`, in their original order. */
  function Filter<T(==,!new)>(s: seq<T>, keep: T -> bool): (r: seq<T>)
    ensures IsSubsequence(r, s)
    ensures forall x :: x in r <==> x in s && keep(x)
    ensures |r| <= |s|
    decreases |s|
  {
    if s == [] then []
    else
      var rest := Filter(s[1..], keep);
      if keep(s[0]) then
        assert ([s[0]] + rest)[1..] == rest;
        [s[0]] + rest
      else rest
  }

  /** A filter keeps every occurrence of a kept row and no occurrence of any other
      row. With `IsSubsequence` this determines the filter's result completely. */
  lemma {:induction false} FilterCount<T(!new)>(s: seq<T>, keep: T -> bool)
    ensures forall x :: multiset(Filter(s, keep))[x] == if keep(x) then multiset(s)[x] else 0
    decreases |s|
  {
    if s != [] {
      FilterCount(s[1..], keep);
      assert s == [s[0]] + s[1..];
    }
  }

  lemma FilterCons<T(!new)>(x: T, s: seq<T>, keep: T -> bool)
    ensures Filter([x] + s, keep) == (if keep(x) then [x] else []) + Filter(s, keep)
  {
    assert ([x] + s)[1..] == s;
  }

  /** The position of the first occurrence of `x` in `s`. */
  function IndexOf<T(==)>(s: seq<T>, x: T): (k: nat)
    requires x in s
    ensures k < |s| && s[k] == x
    ensures forall q :: 0 <= q < k ==> s[q] != x
    decreases |s|
  {
    if s[0] == x then 0 else 1 + IndexOf(s[1..], x)
  }

  /** The values of `r` come in the order of their first occurrences in `s`. */
  predicate FirstOccurrenceOrder<T(==)>(r: seq<T>, s: seq<T>)
  {
    forall i, j :: 0 <= i < j < |r| ==> OccursBefore(s, r[i], r[j])
  }

  /** `x` first occurs in `s` before `y` does. */
  predicate OccursBefore<T(==)>(s: seq<T>, x: T, y: T)
  {
    x in s && y in s && IndexOf(s, x) < IndexOf(s, y)
  }

  /** The elements of `s` not in `seen`, each once, at its first occurrence. */
  function DistinctFrom<T(==,!new)>(s: seq<T>, seen: set<T>): (r: seq<T>)
    ensures IsSubsequence(r, s)
    ensures forall x :: x in r <==> x in s && x !in seen
    ensures forall i, j :: 0 <= i < j < |r| ==> r[i] != r[j]
    ensures FirstOccurrenceOrder(r, s)
    decreases |s|
  {
    if s == [] then []
    else if s[0] in seen then
      var rest := DistinctFrom(s[1..], seen);
      OrderBehindHead(s, rest);
      rest
    else
      var rest := DistinctFrom(s[1..], seen + {s[0]});
      OrderBehindHead(s, rest);
      OrderWithHead(s, rest);
      assert ([s[0]] + rest)[1..] == rest;
      [s[0]] + rest
  }

  /** First positions in `s` of values other than its head are one more than in its tail. */
  lemma IndexOfTail<T>(s: seq<T>, y: T)
    requires s != [] && y in s[1..] && y != s[0]
    ensures IndexOf(s, y) == 1 + IndexOf(s[1..], y)
  {
  }

  /** An order of first occurrences in the tail of `s` that avoids its head is
      one in `s` too. */
  lemma OrderBehindHead<T>(s: seq<T>, rest: seq<T>)
    requires s != []
    requires FirstOccurrenceOrder(rest, s[1..])
    requires forall y :: y in rest ==> y in s[1..] && y != s[0]
    ensures FirstOccurrenceOrder(rest, s)
  {
    forall i, j | 0 <= i < j < |rest|
      ensures OccursBefore(s, rest[i], rest[j])
    {
      assert rest[i] in rest && rest[j] in rest;
      IndexOfTail(s, rest[i]);
      IndexOfTail(s, rest[j]);
    }
  }

  /** The head of `s` occurs first of all. */
  lemma OrderWithHead<T>(s: seq<T>, rest: seq<T>)
    requires s != []
    requires FirstOccurrenceOrder(rest, s)
    requires forall y :: y in rest ==> y in s[1..] && y != s[0]
    ensures FirstOccurrenceOrder([s[0]] + rest, s)
  {
    var r := [s[0]] + rest;
    forall i, j | 0 <= i < j < |r|
      ensures OccursBefore(s, r[i], r[j])
    {
      assert r[j] == rest[j - 1] && r[j] in rest;
      if i > 0 {
        assert r[i] == rest[i - 1] && r[i] in rest;
      } else {
        assert IndexOf(s, r[i]) == 0 && s[IndexOf(s, r[j])] != s[0];
      }
    }
  }

  /** `unique()` / `drop_duplicates()`: every value of `s` exactly once, in order of
      first appearance. */
  function Distinct<T(==,!new)>(s: seq<T>): (r: seq<T>)
    ensures IsSubsequence(r, s)
    ensures forall x :: x in r <==> x in s
    ensures forall i, j :: 0 <= i < j < |r| ==> r[i] != r[j]
    ensures FirstOccurrenceOrder(r, s)
  {
    DistinctFrom(s, {})
  }
}
