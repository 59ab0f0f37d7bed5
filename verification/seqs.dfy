/**
 Sequence operations shared by the pages and the handlers: `Array.prototype.filter`
 and a stable sort that stands for a database `orderBy`.
 */
module Seqs {

  /** `r` is an order-preserving sub-list of `s`. */
  predicate SubList<T(==)>(r: seq<T>, s: seq<T>)
    decreases |s|
  {
    if r == [] then true
    else if s == [] then false
    else (r[0] == s[0] && SubList(r[1..], s[1..])) || SubList(r, s[1..])
  }

  /** Every list is a sub-list of itself. */
  lemma {:induction false} SubListRefl<T>(s: seq<T>)
    ensures SubList(s, s)
    decreases |s|
  {
    if s != [] {
      SubListRefl(s[1..]);
    }
  }

  /** Every element of a sub-list is an element of the list. */
  lemma {:induction false} SubListMembers<T>(r: seq<T>, s: seq<T>)
    requires SubList(r, s)
    ensures forall x :: x in r ==> x in s
    decreases |s|
  {
    if r != [] {
      if r[0] == s[0] && SubList(r[1..], s[1..]) {
        SubListMembers(r[1..], s[1..]);
        assert r == [r[0]] + r[1..];
      } else {
        SubListMembers(r, s[1..]);
      }
    }
  }

  /** A sub-list of a list whose elements have pairwise different keys has
      pairwise different keys too. */
  lemma {:induction false} SubListKeysDistinct<T, K>(r: seq<T>, s: seq<T>, key: T -> K)
    requires SubList(r, s)
    requires forall i, j :: 0 <= i < j < |s| ==> key(s[i]) != key(s[j])
    ensures forall i, j :: 0 <= i < j < |r| ==> key(r[i]) != key(r[j])
    decreases |s|
  {
    if r != [] {
      if r[0] == s[0] && SubList(r[1..], s[1..]) {
        SubListKeysDistinct(r[1..], s[1..], key);
        SubListMembers(r[1..], s[1..]);
        forall j | 0 < j < |r|
          ensures key(r[0]) != key(r[j])
        {
          assert r[j] == r[1..][j - 1];
          assert r[1..][j - 1] in r[1..];
          var k :| 0 <= k < |s[1..]| && s[1..][k] == r[j];
          assert s[k + 1] == r[j];
        }
        forall i, j | 0 <= i < j < |r|
          ensures key(r[i]) != key(r[j])
        {
          if i > 0 {
            assert r[i] == r[1..][i - 1] && r[j] == r[1..][j - 1];
          }
        }
      } else {
        SubListKeysDistinct(r, s[1..], key);
      }
    }
  }

  /** `s.filter(p)`. */
  function Filter<T(!new)>(s: seq<T>, p: T -> bool): (r: seq<T>)
    ensures SubList(r, s)
    ensures forall x :: x in r <==> x in s && p(x)
    ensures |r| <= |s|
    ensures forall x :: multiset(r)[x] == if p(x) then multiset(s)[x] else 0
    decreases |s|
  {
    if s == [] then []
    else
      assert s == [s[0]] + s[1..];
      if p(s[0]) then [s[0]] + Filter(s[1..], p)
      else Filter(s[1..], p)
  }

  /** A filter whose predicate holds everywhere keeps the whole list. */
  lemma {:induction false} FilterKeepsAll<T(!new)>(s: seq<T>, p: T -> bool)
    requires forall i :: 0 <= i < |s| ==> p(s[i])
    ensures Filter(s, p) == s
    decreases |s|
  {
    if s != [] {
      FilterKeepsAll(s[1..], p);
    }
  }

  /** Filters with predicates that agree on the list's elements give the same result. */
  lemma {:induction false} FilterCongruent<T(!new)>(s: seq<T>, p: T -> bool, q: T -> bool)
    requires forall i :: 0 <= i < |s| ==> p(s[i]) == q(s[i])
    ensures Filter(s, p) == Filter(s, q)
    decreases |s|
  {
    if s != [] {
      FilterCongruent(s[1..], p, q);
    }
  }

  /** `le` relates every pair of values one way or the other. */
  ghost predicate Total<T(!new)>(le: (T, T) -> bool) {
    forall a, b :: le(a, b) || le(b, a)
  }

  /** `le` is transitive. */
  ghost predicate Transitive<T(!new)>(le: (T, T) -> bool) {
    forall a, b, c :: le(a, b) && le(b, c) ==> le(a, c)
  }

  /** `s` is ordered by `le`: every earlier element is `le` every later one. */
  predicate SortedBy<T>(s: seq<T>, le: (T, T) -> bool) {
    forall i, j :: 0 <= i < j < |s| ==> le(s[i], s[j])
  }

  /** Inserts `x` before the first element it is `le` to. */
  function Insert<T(!new)>(x: T, s: seq<T>, le: (T, T) -> bool): (r: seq<T>)
    requires Total(le) && Transitive(le)
    requires SortedBy(s, le)
    ensures SortedBy(r, le)
    ensures multiset(r) == multiset(s) + multiset{x}
    decreases |s|
  {
    if s == [] then [x]
    else if le(x, s[0]) then [x] + s
    else
      var t := Insert(x, s[1..], le);
      HeadPrecedesInsertion(x, s, t, le);
      assert s == [s[0]] + s[1..];
      [s[0]] + t
  }

  /** When `x` does not go first, the head of `s` is `le` everything in the insertion into its tail. */
  lemma HeadPrecedesInsertion<T(!new)>(x: T, s: seq<T>, t: seq<T>, le: (T, T) -> bool)
    requires Total(le)
    requires s != [] && SortedBy(s, le) && !le(x, s[0])
    requires multiset(t) == multiset(s[1..]) + multiset{x}
    ensures forall k :: 0 <= k < |t| ==> le(s[0], t[k])
  {
    forall k | 0 <= k < |t|
      ensures le(s[0], t[k])
    {
      assert t[k] in multiset(t);
      if t[k] != x {
        assert t[k] in multiset(s[1..]);
        var j :| 0 <= j < |s[1..]| && s[1..][j] == t[k];
        assert s[j + 1] == t[k];
      }
    }
  }

  /** Insertion sort: a permutation of `s` ordered by `le`. */
  function Sort<T(!new)>(s: seq<T>, le: (T, T) -> bool): (r: seq<T>)
    requires Total(le) && Transitive(le)
    ensures SortedBy(r, le)
    ensures multiset(r) == multiset(s)
    decreases |s|
  {
    if s == [] then []
    else
      assert s == [s[0]] + s[1..];
      Insert(s[0], Sort(s[1..], le), le)
  }
}
