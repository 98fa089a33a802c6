/** Relational operations on row sequences. `WHERE` keeps the rows satisfying a
    predicate. `ORDER BY` returns a permutation of the selected rows, sorted by the key;
    rows with equal keys may come back in any order, so the model fixes one order
    (insertion sort) while every contract relies only on "sorted permutation". */
module Rows {
  import opened Sql

  /** `WHERE f`: each row is kept as often as it occurs, if it satisfies `f`. */
  function Filter<T(!new)>(s: seq<T>, f: T -> bool): (r: seq<T>)
    ensures forall x :: multiset(r)[x] == if f(x) then multiset(s)[x] else 0
    ensures forall x :: x in r <==> x in s && f(x)
    ensures |r| <= |s|
  {
    if |s| == 0 then []
    else
      assert s == [s[0]] + s[1..];
      (if f(s[0]) then [s[0]] else []) + Filter(s[1..], f)
  }

  /** Past the first element, `[x] + s` is `s` shifted by one. */
  lemma ConsAt<T>(x: T, s: seq<T>, k: int)
    requires 1 <= k <= |s|
    ensures ([x] + s)[k] == s[k - 1]
  {
  }

  /** `le` is total and transitive, as the comparison of an ORDER BY key is. */
  ghost predicate TotalPreorder<T(!new)>(le: (T, T) -> bool) {
    && (forall a, b :: le(a, b) || le(b, a))
    && (forall a, b, c :: le(a, b) && le(b, c) ==> le(a, c))
  }

  ghost predicate SortedBy<T>(le: (T, T) -> bool, s: seq<T>) {
    forall i, j :: 0 <= i < j < |s| ==> le(s[i], s[j])
  }

  /** What `ORDER BY` may return for the input rows `s`. */
  ghost predicate IsOrderBy<T>(le: (T, T) -> bool, s: seq<T>, r: seq<T>) {
    multiset(r) == multiset(s) && SortedBy(le, r)
  }

  function Insert<T(!new)>(le: (T, T) -> bool, x: T, s: seq<T>): (r: seq<T>)
    requires TotalPreorder(le)
    requires SortedBy(le, s)
    ensures multiset(r) == multiset(s) + multiset{x}
    ensures SortedBy(le, r)
  {
    if |s| == 0 then [x]
    else if le(x, s[0]) then [x] + s
    else
      var rest := Insert(le, x, s[1..]);
      assert s == [s[0]] + s[1..];
      assert forall y :: y in multiset(rest) ==> le(s[0], y);
      [s[0]] + rest
  }

  /** The rows ordered by `le`; ties keep their input order. */
  function Sort<T(!new)>(le: (T, T) -> bool, s: seq<T>): (r: seq<T>)
    requires TotalPreorder(le)
    ensures IsOrderBy(le, s, r)
    ensures |r| == |s|
  {
    if |s| == 0 then []
    else
      assert s == [s[0]] + s[1..];
      Insert(le, s[0], Sort(le, s[1..]))
  }

  /** Reordering keeps exactly the same rows. */
  lemma OrderBySameRows<T>(le: (T, T) -> bool, s: seq<T>, r: seq<T>)
    requires IsOrderBy(le, s, r)
    ensures forall x :: x in r <==> x in s
  {
    assert forall x :: x in r <==> x in multiset(r);
    assert forall x :: x in s <==> x in multiset(s);
  }

  /** The first row of a sorted permutation is a least row: `ORDER BY … LIMIT 1`. */
  lemma FirstIsLeast<T>(le: (T, T) -> bool, s: seq<T>, r: seq<T>, x: T)
    requires IsOrderBy(le, s, r)
    requires x in s
    ensures |r| > 0 && r[0] in s && (r[0] == x || le(r[0], x))
  {
    assert x in multiset(s);
    assert x in multiset(r);
    assert r[0] in multiset(r);
    var j :| 0 <= j < |r| && r[j] == x;
    if j > 0 {
      assert le(r[0], r[j]);
    }
  }

  /** `LIMIT … OFFSET …` of a sorted sequence is sorted, and holds only its rows. */
  lemma WindowOfSorted<T>(le: (T, T) -> bool, s: seq<T>, limit: int, offset: int)
    requires SortedBy(le, s)
    ensures SortedBy(le, Window(s, limit, offset))
    ensures forall x :: x in Window(s, limit, offset) ==> x in s
  {
    var w := Window(s, limit, offset);
    var base := Max(0, offset);
    assert forall k :: 0 <= k < |w| ==> base + k < |s| && w[k] == s[base + k];
    forall i, j | 0 <= i < j < |w| ensures le(w[i], w[j]) {
      assert w[i] == s[base + i] && w[j] == s[base + j];
    }
  }

  /** No row satisfies `f`: `WHERE f` keeps nothing. */
  lemma {:induction false} FilterNone<T(!new)>(s: seq<T>, f: T -> bool)
    requires forall x :: x in s ==> !f(x)
    ensures Filter(s, f) == []
  {
    if |s| > 0 {
      assert s[0] in s;
      assert forall x :: x in s[1..] ==> x in s;
      FilterNone(s[1..], f);
    }
  }
}
