/** Sorting by an order given as a function: the result is a sorted rearrangement, and the only one under a strict order. */
module Sorting {

  ghost predicate TotalOrder<T(!new)>(le: (T, T) -> bool) {
    && (forall x, y :: le(x, y) || le(y, x))
    && (forall x, y, z :: le(x, y) && le(y, z) ==> le(x, z))
  }

  ghost predicate Sorted<T>(s: seq<T>, le: (T, T) -> bool) {
    forall i, j :: 0 <= i < j < |s| ==> le(s[i], s[j])
  }

  /** After every element that comes before or ties with `x`, as a stable sort places it. */
  function Insert<T>(x: T, s: seq<T>, le: (T, T) -> bool): seq<T> {
    if |s| == 0 then [x]
    else if le(s[|s| - 1], x) then s + [x]
    else Insert(x, s[..|s| - 1], le) + [s[|s| - 1]]
  }

  function SortBy<T>(s: seq<T>, le: (T, T) -> bool): seq<T> {
    if |s| == 0 then [] else Insert(s[|s| - 1], SortBy(s[..|s| - 1], le), le)
  }

  lemma {:induction false} InsertMembers<T>(x: T, s: seq<T>, le: (T, T) -> bool)
    ensures multiset(Insert(x, s, le)) == multiset(s) + multiset{x}
  {
    if |s| > 0 && !le(s[|s| - 1], x) {
      InsertMembers(x, s[..|s| - 1], le);
      assert s == s[..|s| - 1] + [s[|s| - 1]];
    }
  }

  lemma {:induction false} InsertSorted<T(!new)>(x: T, s: seq<T>, le: (T, T) -> bool)
    requires TotalOrder(le) && Sorted(s, le)
    ensures Sorted(Insert(x, s, le), le)
  {
    if |s| > 0 && !le(s[|s| - 1], x) {
      var front, last := s[..|s| - 1], s[|s| - 1];
      InsertSorted(x, front, le);
      InsertMembers(x, front, le);
      var r := Insert(x, front, le);
      forall i | 0 <= i < |r|
        ensures le(r[i], last)
      {
        assert r[i] in multiset(r);
        assert r[i] == x || r[i] in front;
      }
    }
  }

  lemma {:induction false} SortByIsSort<T(!new)>(s: seq<T>, le: (T, T) -> bool)
    requires TotalOrder(le)
    ensures Sorted(SortBy(s, le), le) && multiset(SortBy(s, le)) == multiset(s)
  {
    if |s| > 0 {
      var front := s[..|s| - 1];
      SortByIsSort(front, le);
      InsertSorted(s[|s| - 1], SortBy(front, le), le);
      InsertMembers(s[|s| - 1], SortBy(front, le), le);
      assert s == front + [s[|s| - 1]];
    }
  }

  // Distinct elements of `s` never tie.
  ghost predicate Untied<T>(s: seq<T>, le: (T, T) -> bool) {
    forall i, j :: 0 <= i < |s| && 0 <= j < |s| && le(s[i], s[j]) && le(s[j], s[i]) ==> s[i] == s[j]
  }

  lemma SortedHeadsAgree<T(!new)>(s: seq<T>, t: seq<T>, le: (T, T) -> bool)
    requires Sorted(s, le) && Sorted(t, le) && multiset(s) == multiset(t) && Untied(s, le)
    requires |s| > 0
    ensures |t| > 0 && s[0] == t[0] && multiset(s[1..]) == multiset(t[1..])
  {
    assert s[0] in multiset(t);
    assert t[0] in multiset(s);
    var i :| 0 <= i < |t| && t[i] == s[0];
    var j :| 0 <= j < |s| && s[j] == t[0];
    assert s[0] == t[0];
    assert s == [s[0]] + s[1..] && t == [t[0]] + t[1..];
    assert multiset(s[1..]) == multiset(s) - multiset{s[0]};
    assert multiset(t[1..]) == multiset(t) - multiset{t[0]};
  }

  /** Two sorted rearrangements agree when no two different elements tie. */
  lemma {:induction false} SortedUnique<T(!new)>(s: seq<T>, t: seq<T>, le: (T, T) -> bool)
    requires Sorted(s, le) && Sorted(t, le) && multiset(s) == multiset(t) && Untied(s, le)
    ensures s == t
    decreases |s|
  {
    if |s| > 0 {
      SortedHeadsAgree(s, t, le);
      SortedUnique(s[1..], t[1..], le);
      assert s == [s[0]] + s[1..] && t == [t[0]] + t[1..];
    } else {
      assert |multiset(t)| == 0;
    }
  }
}
