/**
 * A stable insertion sort under a caller-supplied ordering. It stands for
 * the pandas `sort_values` calls of the anomaly scripts; the ordering is a
 * total preorder (rows with equal keys are allowed).
 */
module Sorting {

  ghost predicate TotalPreorder<T(!new)>(le: (T, T) -> bool)
  {
    && (forall a, b :: le(a, b) || le(b, a))
    && (forall a, b, c :: le(a, b) && le(b, c) ==> le(a, c))
  }

  ghost predicate SortedBy<T>(s: seq<T>, le: (T, T) -> bool)
  {
    forall i, j | 0 <= i < j < |s| :: le(s[i], s[j])
  }

  /** Inserts `x` after every element that is not strictly greater than it. */
  function Insert<T>(s: seq<T>, x: T, le: (T, T) -> bool): (r: seq<T>)
    ensures |r| == |s| + 1
  {
    if s == [] then [x]
    else if le(s[|s| - 1], x) then s + [x]
    else Insert(s[..|s| - 1], x, le) + [s[|s| - 1]]
  }

  /** Inserting into a sorted sequence keeps it sorted and adds exactly `x`. */
  lemma {:induction false} InsertSorts<T(!new)>(s: seq<T>, x: T, le: (T, T) -> bool)
    requires TotalPreorder(le)
    requires SortedBy(s, le)
    ensures SortedBy(Insert(s, x, le), le)
    ensures multiset(Insert(s, x, le)) == multiset(s) + multiset{x}
  {
    if s != [] && !le(s[|s| - 1], x) {
      var init, last := s[..|s| - 1], s[|s| - 1];
      var front := Insert(init, x, le);
      InsertSorts(init, x, le);
      assert s == init + [last];
      assert le(x, last);
      assert forall m | 0 <= m < |init| :: le(init[m], last) by {
        forall m | 0 <= m < |init| ensures le(init[m], last) {
          assert s[m] == init[m];
        }
      }
      AllBelow(front, init, x, last, le);
      SortedAppend(front, last, le);
      assert Insert(s, x, le) == front + [last];
      assert multiset(front + [last]) == multiset(front) + multiset{last};
      assert multiset(s) == multiset(init) + multiset{last};
    }
  }

  /** An element above every element of a sorted sequence can follow it. */
  lemma SortedAppend<T>(s: seq<T>, x: T, le: (T, T) -> bool)
    requires SortedBy(s, le)
    requires forall k | 0 <= k < |s| :: le(s[k], x)
    ensures SortedBy(s + [x], le)
  {
  }

  /** A permutation of elements that are all below `bound` stays below it. */
  lemma AllBelow<T>(front: seq<T>, init: seq<T>, x: T, bound: T, le: (T, T) -> bool)
    requires multiset(front) == multiset(init) + multiset{x}
    requires le(x, bound)
    requires forall m | 0 <= m < |init| :: le(init[m], bound)
    ensures forall k | 0 <= k < |front| :: le(front[k], bound)
  {
    forall k | 0 <= k < |front| ensures le(front[k], bound) {
      assert front[k] in multiset(front);
      if front[k] != x {
        assert front[k] in multiset(init);
        var m :| 0 <= m < |init| && init[m] == front[k];
      }
    }
  }

  /** Sorts `s`, keeping rows with equal keys in their original order. */
  function Sort<T>(s: seq<T>, le: (T, T) -> bool): (r: seq<T>)
    ensures |r| == |s|
  {
    if s == [] then []
    else Insert(Sort(s[..|s| - 1], le), s[|s| - 1], le)
  }

  /** The result is sorted and a permutation of the input. */
  lemma {:induction false} SortSorts<T(!new)>(s: seq<T>, le: (T, T) -> bool)
    requires TotalPreorder(le)
    ensures SortedBy(Sort(s, le), le)
    ensures multiset(Sort(s, le)) == multiset(s)
  {
    if s != [] {
      SortSorts(s[..|s| - 1], le);
      InsertSorts(Sort(s[..|s| - 1], le), s[|s| - 1], le);
      assert s == s[..|s| - 1] + [s[|s| - 1]];
    }
  }

  /** Every element of the sorted sequence comes from the input, and vice versa. */
  lemma SortMembers<T(!new)>(s: seq<T>, le: (T, T) -> bool, x: T)
    requires TotalPreorder(le)
    ensures x in Sort(s, le) <==> x in s
  {
    var r := Sort(s, le);
    SortSorts(s, le);
    assert x in r <==> x in multiset(r);
    assert x in s <==> x in multiset(s);
  }
}
