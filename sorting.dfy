/** `DataFrame.sort_values` as a stable insertion sort over a total preorder.
    pandas' default sort is not stable; the model breaks ties by input order. */
module Sorting {

  /** `le` compares every pair of values and is transitive. */
  ghost predicate IsTotalPreorder<T(!new)>(le: (T, T) -> bool)
  {
    && (forall a, b :: le(a, b) || le(b, a))
    && (forall a, b, c :: le(a, b) && le(b, c) ==> le(a, c))
  }

  predicate Sorted<T>(s: seq<T>, le: (T, T) -> bool)
  {
    forall i, j :: 0 <= i < j < |s| ==> le(s[i], s[j])
  }

  /** Inserts `x` after every element of `s` that it does not precede. */
  function Insert<T>(s: seq<T>, x: T, le: (T, T) -> bool): (r: seq<T>)
    ensures |r| == |s| + 1
    ensures multiset(r) == multiset(s) + multiset{x}
    decreases |s|
  {
    if s == [] || le(s[|s| - 1], x) then s + [x]
    else
      var init := s[..|s| - 1];
      assert s == init + [s[|s| - 1]];
      Insert(init, x, le) + [s[|s| - 1]]
  }

  /** Sorts `s` by inserting its elements one after another. */
  function SortBy<T>(s: seq<T>, le: (T, T) -> bool): (r: seq<T>)
    ensures |r| == |s|
    ensures multiset(r) == multiset(s)
    decreases |s|
  {
    if s == [] then []
    else
      var init := s[..|s| - 1];
      assert s == init + [s[|s| - 1]];
      Insert(SortBy(init, le), s[|s| - 1], le)
  }

  lemma {:induction false} InsertSorted<T(!new)>(s: seq<T>, x: T, le: (T, T) -> bool)
    requires IsTotalPreorder(le)
    requires Sorted(s, le)
    ensures Sorted(Insert(s, x, le), le)
  {
    if s == [] || le(s[|s| - 1], x) {
    } else {
      var init, y := s[..|s| - 1], s[|s| - 1];
      InsertSorted(init, x, le);
      var front := Insert(init, x, le);
      assert le(x, y);
      forall k | 0 <= k < |front|
        ensures le(front[k], y)
      {
        assert front[k] in multiset(init) + multiset{x};
        if front[k] != x {
          assert front[k] in init;
        }
      }
    }
  }

  /** The result of `SortBy` is sorted and is a permutation of its input. */
  lemma {:induction false} SortBySorted<T(!new)>(s: seq<T>, le: (T, T) -> bool)
    requires IsTotalPreorder(le)
    ensures Sorted(SortBy(s, le), le)
    ensures multiset(SortBy(s, le)) == multiset(s)
  {
    if s != [] {
      SortBySorted(s[..|s| - 1], le);
      InsertSorted(SortBy(s[..|s| - 1], le), s[|s| - 1], le);
    }
  }

  /** Sorting an already sorted sequence leaves it as it is. */
  lemma {:induction false} SortBySortedIsIdentity<T>(s: seq<T>, le: (T, T) -> bool)
    requires Sorted(s, le)
    ensures SortBy(s, le) == s
  {
    if s != [] {
      var init := s[..|s| - 1];
      SortBySortedIsIdentity(init, le);
      assert s == init + [s[|s| - 1]];
    }
  }

  function Map<A, B>(s: seq<A>, f: A -> B): (r: seq<B>)
    ensures |r| == |s|
    ensures forall i :: 0 <= i < |s| ==> r[i] == f(s[i])
  {
    seq(|s|, i requires 0 <= i < |s| => f(s[i]))
  }

  lemma {:induction false} InsertMap<A, B>(s: seq<A>, x: A, f: A -> B, leA: (A, A) -> bool, leB: (B, B) -> bool)
    requires forall a, b :: leA(a, b) == leB(f(a), f(b))
    ensures Insert(Map(s, f), f(x), leB) == Map(Insert(s, x, leA), f)
    decreases |s|
  {
    if s != [] && !leA(s[|s| - 1], x) {
      var init := s[..|s| - 1];
      InsertMap(init, x, f, leA, leB);
      assert Map(s, f)[..|s| - 1] == Map(init, f);
    }
  }

  /** Sorting commutes with a row-wise transformation that keeps the sort
      key: transforming and then sorting equals sorting and then
      transforming. */
  lemma {:induction false} SortByMap<A, B>(s: seq<A>, f: A -> B, leA: (A, A) -> bool, leB: (B, B) -> bool)
    requires forall a, b :: leA(a, b) == leB(f(a), f(b))
    ensures SortBy(Map(s, f), leB) == Map(SortBy(s, leA), f)
    decreases |s|
  {
    if s != [] {
      var init := s[..|s| - 1];
      SortByMap(init, f, leA, leB);
      assert Map(s, f)[..|s| - 1] == Map(init, f);
      InsertMap(SortBy(init, leA), s[|s| - 1], f, leA, leB);
    }
  }
}
