/** Sequence operations the queries are built from: a WHERE clause is a Filter,
    a SELECT list is a MapSeq, an ORDER BY is a SortBy. Tables are kept in rowid
    order; SortBy is an insertion sort, and its contract says nothing about the
    order of rows that compare equal (SQLite leaves that order unspecified). */
module Sequences {
  import opened Wrappers

  /** le is total and transitive: a sort key that ORDER BY can use */
  ghost predicate TotalPreorder<T(!new)>(le: (T, T) -> bool) {
    && (forall a, b :: le(a, b) || le(b, a))
    && (forall a, b, c :: le(a, b) && le(b, c) ==> le(a, c))
  }

  /** every element is le-before every later element */
  ghost predicate Sorted<T>(s: seq<T>, le: (T, T) -> bool) {
    forall i, j :: 0 <= i < j < |s| ==> le(s[i], s[j])
  }

  /** the key is strictly increasing along s (rowid order of a table) */
  ghost predicate StrictlyIncreasing<T>(s: seq<T>, key: T -> int) {
    forall i, j :: 0 <= i < j < |s| ==> key(s[i]) < key(s[j])
  }

  /** the elements of s that satisfy p, in their order in s */
  function Filter<T>(s: seq<T>, p: T -> bool): (r: seq<T>)
    ensures |r| <= |s|
    ensures forall i :: 0 <= i < |r| ==> r[i] in s && p(r[i])
    ensures forall i :: 0 <= i < |s| && p(s[i]) ==> s[i] in r
    ensures multiset(r) <= multiset(s)
  {
    if s == [] then []
    else
      assert s == [s[0]] + s[1..];
      if p(s[0]) then [s[0]] + Filter(s[1..], p) else Filter(s[1..], p)
  }

  /** Filter keeps the order of what it keeps */
  lemma {:induction false} FilterKeepsIncreasing<T>(s: seq<T>, p: T -> bool, key: T -> int)
    requires StrictlyIncreasing(s, key)
    ensures StrictlyIncreasing(Filter(s, p), key)
  {
    if s != [] {
      FilterKeepsIncreasing(s[1..], p, key);
      HeadBelowFiltered(s, p, key);
      assert s == [s[0]] + s[1..];
    }
  }

  lemma HeadBelowFiltered<T>(s: seq<T>, p: T -> bool, key: T -> int)
    requires StrictlyIncreasing(s, key) && s != []
    ensures forall k :: 0 <= k < |Filter(s[1..], p)| ==> key(s[0]) < key(Filter(s[1..], p)[k])
  {
    var tail := Filter(s[1..], p);
    forall k | 0 <= k < |tail| ensures key(s[0]) < key(tail[k]) {
      var j :| 0 <= j < |s[1..]| && s[1..][j] == tail[k];
      assert s[j + 1] == tail[k];
    }
  }

  /** the image of s under f, position by position */
  function MapSeq<T, U>(s: seq<T>, f: T -> U): (r: seq<U>)
    ensures |r| == |s|
    ensures forall i :: 0 <= i < |s| ==> r[i] == f(s[i])
  {
    seq(|s|, i requires 0 <= i < |s| => f(s[i]))
  }

  /** the position of the first element whose key is k (WHERE key = k) */
  function IndexOf<T, K(==)>(s: seq<T>, key: T -> K, k: K): (r: Option<nat>)
    ensures r.Some? ==> r.value < |s| && key(s[r.value]) == k
    ensures r.Some? ==> forall i :: 0 <= i < r.value ==> key(s[i]) != k
    ensures r.None? <==> forall i :: 0 <= i < |s| ==> key(s[i]) != k
  {
    if s == [] then None
    else if key(s[0]) == k then Some(0)
    else match IndexOf(s[1..], key, k)
      case Some(j) => Some(j + 1)
      case None => None
  }

  /** x placed in front of the first element it is le-before */
  function Insert<T(!new)>(x: T, s: seq<T>, le: (T, T) -> bool): (r: seq<T>)
    requires TotalPreorder(le)
    requires Sorted(s, le)
    ensures Sorted(r, le)
    ensures multiset(r) == multiset(s) + multiset{x}
  {
    if s == [] then [x]
    else if le(x, s[0]) then
      ConsSorted(x, s, le);
      [x] + s
    else
      assert s == [s[0]] + s[1..];
      var rest := Insert(x, s[1..], le);
      HeadBeforeInserted(x, s, rest, le);
      ConsSorted(s[0], rest, le);
      [s[0]] + rest
  }

  /** y in front of a sorted sequence whose first element it is le-before */
  lemma ConsSorted<T(!new)>(y: T, s: seq<T>, le: (T, T) -> bool)
    requires TotalPreorder(le) && Sorted(s, le)
    requires s != [] ==> le(y, s[0])
    ensures Sorted([y] + s, le)
  {
    var r := [y] + s;
    forall i, j | 0 <= i < j < |r| ensures le(r[i], r[j]) {
      if i == 0 && j > 1 {
        assert le(y, s[0]) && le(s[0], s[j - 1]);
      } else if i > 0 {
        assert r[i] == s[i - 1] && r[j] == s[j - 1];
      }
    }
  }

  /** when x goes after the head of s, the head is le-before the insertion into the tail */
  lemma HeadBeforeInserted<T(!new)>(x: T, s: seq<T>, rest: seq<T>, le: (T, T) -> bool)
    requires TotalPreorder(le) && Sorted(s, le) && s != [] && !le(x, s[0])
    requires multiset(rest) == multiset(s[1..]) + multiset{x}
    ensures rest != [] ==> le(s[0], rest[0])
  {
    if rest != [] {
      assert rest[0] in multiset(rest);
      if rest[0] != x {
        var j :| 0 <= j < |s[1..]| && s[1..][j] == rest[0];
        assert s[j + 1] == rest[0];
      }
    }
  }

  /** the ORDER BY of s under le: a sorted permutation of s */
  function SortBy<T(!new)>(s: seq<T>, le: (T, T) -> bool): (r: seq<T>)
    requires TotalPreorder(le)
    ensures Sorted(r, le)
    ensures multiset(r) == multiset(s)
    ensures |r| == |s|
  {
    if s == [] then []
    else
      assert s == [s[0]] + s[1..];
      Insert(s[0], SortBy(s[1..], le), le)
  }

  /** no element occurs twice */
  ghost predicate Distinct<T>(s: seq<T>) {
    forall i, j :: 0 <= i < j < |s| ==> s[i] != s[j]
  }

  lemma {:induction false} DistinctOccursOnce<T>(s: seq<T>, x: T)
    requires Distinct(s)
    ensures multiset(s)[x] <= 1
  {
    if s != [] {
      assert s == [s[0]] + s[1..];
      DistinctOccursOnce(s[1..], x);
      if x == s[0] {
        assert x !in s[1..];
      }
    }
  }

  lemma RepeatOccursTwice<T>(r: seq<T>, i: nat, j: nat)
    requires i < j < |r|
    ensures r[i] == r[j] ==> multiset(r)[r[i]] >= 2
  {
    assert r == r[..j] + [r[j]] + r[j + 1..];
    assert r[i] in multiset(r[..j]);
  }

  /** a permutation of a sequence without repeats has no repeats */
  lemma PermutationKeepsDistinct<T>(s: seq<T>, r: seq<T>)
    requires Distinct(s)
    requires multiset(r) == multiset(s)
    ensures Distinct(r)
  {
    forall i, j | 0 <= i < j < |r| ensures r[i] != r[j] {
      DistinctOccursOnce(s, r[i]);
      RepeatOccursTwice(r, i, j);
    }
  }
}
