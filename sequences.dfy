/**
 * Sequence utilities shared by the model: the sorting primitive behind every
 * `sort_values` call, duplicate removal (the keys of a `groupby`) and
 * occurrence counting (a `groupby(...).sum()` of ones).
 *
 * The sort takes any total preorder `le`; its result is only promised to be
 * sorted and a permutation of the input, so ties may come out in any order.
 */
module Sequences {

  ghost predicate Total<T(!new)>(le: (T, T) -> bool) {
    forall a, b :: le(a, b) || le(b, a)
  }

  ghost predicate Transitive<T(!new)>(le: (T, T) -> bool) {
    forall a, b, c :: le(a, b) && le(b, c) ==> le(a, c)
  }

  ghost predicate TotalPreorder<T(!new)>(le: (T, T) -> bool) {
    Total(le) && Transitive(le)
  }

  predicate Sorted<T>(s: seq<T>, le: (T, T) -> bool) {
    forall i, j :: 0 <= i < j < |s| ==> le(s[i], s[j])
  }

  /** Puts `x` in front of the first element it may precede. */
  function Insert<T(!new)>(x: T, s: seq<T>, le: (T, T) -> bool): (r: seq<T>)
    requires TotalPreorder(le)
    requires Sorted(s, le)
    ensures multiset(r) == multiset(s) + multiset{x}
    ensures Sorted(r, le)
  {
    if s == [] || le(x, s[0]) then
      [x] + s
    else
      var rest := Insert(x, s[1..], le);
      assert multiset(s) == multiset{s[0]} + multiset(s[1..]) by {
        assert s == [s[0]] + s[1..];
      }
      HeadPrecedes(x, s, rest, le);
      [s[0]] + rest
  }

  /** What `Insert` puts after the head of `s` may all follow that head. */
  lemma HeadPrecedes<T(!new)>(x: T, s: seq<T>, rest: seq<T>, le: (T, T) -> bool)
    requires TotalPreorder(le) && Sorted(s, le)
    requires s != [] && !le(x, s[0])
    requires multiset(rest) == multiset(s[1..]) + multiset{x}
    ensures forall k :: 0 <= k < |rest| ==> le(s[0], rest[k])
  {
    forall k | 0 <= k < |rest| ensures le(s[0], rest[k]) {
      var y := rest[k];
      assert y in multiset(rest);
      if y != x {
        assert y in multiset(s[1..]);
        var j :| 0 <= j < |s[1..]| && s[1..][j] == y;
        assert s[j + 1] == y;
      }
    }
  }

  function SortBy<T(!new)>(s: seq<T>, le: (T, T) -> bool): (r: seq<T>)
    requires TotalPreorder(le)
    ensures multiset(r) == multiset(s)
    ensures Sorted(r, le)
  {
    if s == [] then
      []
    else
      assert s == [s[0]] + s[1..];
      Insert(s[0], SortBy(s[1..], le), le)
  }

  /** No value occurs twice. */
  predicate Distinct<T(==)>(s: seq<T>) {
    forall i, j :: 0 <= i < j < |s| ==> s[i] != s[j]
  }

  /** `a` is `b` with some elements deleted, the rest in their order. */
  predicate Subsequence<T(==)>(a: seq<T>, b: seq<T>)
    decreases |b|
  {
    if a == [] then true
    else b != [] && ((a[0] == b[0] && Subsequence(a[1..], b[1..])) || Subsequence(a, b[1..]))
  }

  /** The distinct values of `s`, each kept at its first occurrence. */
  function Dedup<T(==,!new)>(s: seq<T>): (r: seq<T>)
    ensures Distinct(r)
    ensures forall x :: x in r <==> x in s
    ensures |r| <= |s|
  {
    if s == [] then []
    else
      var init := Dedup(s[..|s| - 1]);
      assert forall x :: x in s <==> x in s[..|s| - 1] || x == s[|s| - 1] by {
        assert s == s[..|s| - 1] + [s[|s| - 1]];
      }
      if s[|s| - 1] in init then init else init + [s[|s| - 1]]
  }

  /** The number of occurrences of `x` in `s`. */
  function Count<T(==)>(x: T, s: seq<T>): (n: nat)
    ensures n <= |s|
    ensures n > 0 <==> x in s
  {
    if s == [] then 0
    else (if s[|s| - 1] == x then 1 else 0) + Count(x, s[..|s| - 1])
  }

  lemma {:induction false} CountAppend<T>(x: T, a: seq<T>, b: seq<T>)
    ensures Count(x, a + b) == Count(x, a) + Count(x, b)
    decreases |b|
  {
    if b == [] {
      assert a + b == a;
    } else {
      assert (a + b)[..|a + b| - 1] == a + b[..|b| - 1];
      CountAppend(x, a, b[..|b| - 1]);
    }
  }

  /** A value that occurs at most once in `s` is counted at most once. */
  lemma {:induction false} CountDistinct<T>(x: T, s: seq<T>)
    requires Distinct(s)
    ensures Count(x, s) <= 1
    ensures Count(x, s) == 1 <==> x in s
  {
    if s != [] {
      var init := s[..|s| - 1];
      CountDistinct(x, init);
      if s[|s| - 1] == x {
        assert x !in init;
      }
    }
  }

  /** Counting in a prefix never gives more. */
  lemma {:induction false} CountPrefix<T>(x: T, s: seq<T>, n: nat)
    requires n <= |s|
    ensures Count(x, s[..n]) <= Count(x, s)
  {
    assert s == s[..n] + s[n..];
    CountAppend(x, s[..n], s[n..]);
  }

  /** A value of a sequence without repeats occurs in it at most once. */
  lemma {:induction false} DistinctOnce<T>(s: seq<T>, x: T)
    requires Distinct(s)
    ensures multiset(s)[x] <= 1
  {
    if s != [] {
      var init := s[..|s| - 1];
      assert s == init + [s[|s| - 1]];
      DistinctOnce(init, x);
      if s[|s| - 1] == x {
        assert x !in init;
      }
    }
  }

  /** A value at two positions of `s` occurs in it at least twice. */
  lemma TwiceAtLeast<T>(s: seq<T>, i: nat, j: nat)
    requires i < j < |s| && s[i] == s[j]
    ensures multiset(s)[s[i]] >= 2
  {
    assert s == s[..j] + s[j..];
    assert s[i] in s[..j];
    assert s[j] in s[j..];
  }

  /** A permutation of a sequence without repeats has no repeats. */
  lemma PermutationDistinct<T>(a: seq<T>, b: seq<T>)
    requires multiset(a) == multiset(b) && Distinct(a)
    ensures Distinct(b)
  {
    forall i, j | 0 <= i < j < |b| ensures b[i] != b[j] {
      if b[i] == b[j] {
        TwiceAtLeast(b, i, j);
        DistinctOnce(a, b[i]);
      }
    }
  }

  /** Taking the element at `i` out of `s` takes one occurrence of it out of the multiset. */
  lemma MultisetRemove<T>(s: seq<T>, i: nat)
    requires i < |s|
    ensures multiset(s[..i] + s[i + 1..]) == multiset(s) - multiset{s[i]}
  {
    assert s == s[..i] + [s[i]] + s[i + 1..];
  }

  /** A permutation has the same members. */
  lemma PermutationMembers<T>(a: seq<T>, b: seq<T>)
    requires multiset(a) == multiset(b)
    ensures forall x :: x in a <==> x in b
  {
    forall x ensures x in a <==> x in b {
      assert x in a <==> x in multiset(a);
      assert x in b <==> x in multiset(b);
    }
  }

  /** `head(n)`: the first `n` elements, or all of them when there are fewer. */
  function Head<T>(s: seq<T>, n: nat): (r: seq<T>)
    ensures |r| == if |s| <= n then |s| else n
    ensures r <= s
  {
    if |s| <= n then s else s[..n]
  }
}
