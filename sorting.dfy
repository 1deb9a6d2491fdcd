/** Ordering of query results. A SQL `ORDER BY` is modelled as sorting the
    table, in storage order, by insertion under a total preorder. */
module Sorting {
  import opened Base

  /** `le` is a total preorder: every pair is comparable and it is
      transitive. */
  ghost predicate TotalPreorder<T(!new)>(le: (T, T) -> bool)
  {
    (forall a, b :: le(a, b) || le(b, a)) &&
    (forall a, b, c :: le(a, b) && le(b, c) ==> le(a, c))
  }

  predicate SortedBy<T>(s: seq<T>, le: (T, T) -> bool)
  {
    forall i, j :: 0 <= i < j < |s| ==> le(s[i], s[j])
  }

  /** `x` placed before the first element it precedes strictly, so that
      equal elements keep their storage order. */
  function Insert<T(!new)>(x: T, s: seq<T>, le: (T, T) -> bool): (r: seq<T>)
    requires TotalPreorder(le)
    ensures multiset(r) == multiset(s) + multiset{x}
    ensures |r| == |s| + 1
    ensures SortedBy(s, le) ==> SortedBy(r, le)
  {
    if s == [] then [x]
    else if le(x, s[0]) && !le(s[0], x) then [x] + s
    else
      var t := Insert(x, s[1..], le);
      assert s == [s[0]] + s[1..];
      assert SortedBy(s, le) ==> SortedBy([s[0]] + t, le) by {
        if SortedBy(s, le) {
          LowerBound(s[0], x, s[1..], t, le);
        }
      }
      [s[0]] + t
  }

  /** A bound below `x` and below every element of `s` bounds every
      element of a sequence made of `x` and the elements of `s`. */
  lemma LowerBound<T(!new)>(b: T, x: T, s: seq<T>, t: seq<T>, le: (T, T) -> bool)
    requires TotalPreorder(le)
    requires !(le(x, b) && !le(b, x))
    requires forall k :: 0 <= k < |s| ==> le(b, s[k])
    requires multiset(t) == multiset(s) + multiset{x}
    ensures forall k :: 0 <= k < |t| ==> le(b, t[k])
  {
    forall k | 0 <= k < |t|
      ensures le(b, t[k])
    {
      assert t[k] in multiset(t);
      if t[k] != x {
        assert t[k] in multiset(s);
        var j :| 0 <= j < |s| && s[j] == t[k];
      }
    }
  }

  /** A stable insertion sort. */
  function Sort<T(!new)>(s: seq<T>, le: (T, T) -> bool): (r: seq<T>)
    requires TotalPreorder(le)
    ensures multiset(r) == multiset(s)
    ensures |r| == |s|
    ensures SortedBy(r, le)
  {
    if s == [] then []
    else
      assert s == s[..|s| - 1] + [s[|s| - 1]];
      Insert(s[|s| - 1], Sort(s[..|s| - 1], le), le)
  }

  /** `lt` is a strict order: irreflexive and transitive. */
  ghost predicate StrictOrder<T(!new)>(lt: (T, T) -> bool)
  {
    (forall a :: !lt(a, a)) &&
    (forall a, b, c :: lt(a, b) && lt(b, c) ==> lt(a, c))
  }

  /** `ORDER BY ... LIMIT 1`: an element no other element beats; among
      equally good ones, the first in storage order. */
  function BestOf<T(!new)>(s: seq<T>, better: (T, T) -> bool): (r: Option<T>)
    requires StrictOrder(better)
    ensures r.None? <==> s == []
    ensures r.Some? ==> r.value in s && forall x :: x in s ==> !better(x, r.value)
  {
    if s == [] then None
    else
      var last := s[|s| - 1];
      assert s == s[..|s| - 1] + [last];
      match BestOf(s[..|s| - 1], better)
      case None => Some(last)
      case Some(b) => if better(last, b) then Some(last) else Some(b)
  }
}
