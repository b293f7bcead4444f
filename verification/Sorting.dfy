/** A stable sort by a key, as the standard library's `sort_by_key` is. */
module Sorting {
  import opened Collections

  /** A total preorder, the contract a sort key's comparison meets. */
  ghost predicate TotalPreorder<T(!new)>(leq: (T, T) -> bool) {
    && (forall x, y :: leq(x, y) || leq(y, x))
    && (forall x, y, z :: leq(x, y) && leq(y, z) ==> leq(x, z))
  }

  ghost predicate Sorted<T>(s: seq<T>, leq: (T, T) -> bool) {
    forall i, j :: 0 <= i < j < |s| ==> leq(s[i], s[j])
  }

  /** `x` behind every element of the sorted `s` that is not greater. */
  function Insert<T>(s: seq<T>, x: T, leq: (T, T) -> bool): (r: seq<T>) {
    if s == [] || leq(s[|s| - 1], x) then s + [x]
    else Insert(s[..|s| - 1], x, leq) + [s[|s| - 1]]
  }

  /** `s` sorted; elements that compare equal both ways keep their order. */
  function StableSort<T>(s: seq<T>, leq: (T, T) -> bool): (r: seq<T>) {
    if s == [] then [] else Insert(StableSort(s[..|s| - 1], leq), s[|s| - 1], leq)
  }

  lemma {:induction false} InsertMultiset<T>(s: seq<T>, x: T, leq: (T, T) -> bool)
    ensures multiset(Insert(s, x, leq)) == multiset(s) + multiset{x}
  {
    if s != [] && !leq(s[|s| - 1], x) {
      InsertMultiset(s[..|s| - 1], x, leq);
      assert s == s[..|s| - 1] + [s[|s| - 1]];
    }
  }

  lemma {:induction false} InsertSorted<T(!new)>(s: seq<T>, x: T, leq: (T, T) -> bool)
    requires TotalPreorder(leq) && Sorted(s, leq)
    ensures Sorted(Insert(s, x, leq), leq)
  {
    if s != [] && !leq(s[|s| - 1], x) {
      var rest, last := s[..|s| - 1], s[|s| - 1];
      InsertSorted(rest, x, leq);
      var r := Insert(rest, x, leq);
      InsertMultiset(rest, x, leq);
      forall i | 0 <= i < |r| ensures leq(r[i], last) {
        assert r[i] in multiset(r);
        assert r[i] in rest || r[i] == x;
      }
    }
  }

  lemma {:induction false} SortMultiset<T>(s: seq<T>, leq: (T, T) -> bool)
    ensures multiset(StableSort(s, leq)) == multiset(s)
    ensures |StableSort(s, leq)| == |s|
  {
    if s != [] {
      var rest := s[..|s| - 1];
      SortMultiset(rest, leq);
      InsertMultiset(StableSort(rest, leq), s[|s| - 1], leq);
      assert s == rest + [s[|s| - 1]];
      assert |multiset(StableSort(s, leq))| == |multiset(s)|;
    }
  }

  lemma {:induction false} SortSorted<T(!new)>(s: seq<T>, leq: (T, T) -> bool)
    requires TotalPreorder(leq)
    ensures Sorted(StableSort(s, leq), leq)
  {
    if s != [] {
      SortSorted(s[..|s| - 1], leq);
      InsertSorted(StableSort(s[..|s| - 1], leq), s[|s| - 1], leq);
    }
  }

  /** Sorting keeps exactly the elements. */
  lemma SortMembers<T>(s: seq<T>, leq: (T, T) -> bool)
    ensures forall x :: x in StableSort(s, leq) <==> x in s
  {
    SortMultiset(s, leq);
    forall x ensures x in StableSort(s, leq) <==> x in s {
      assert x in StableSort(s, leq) <==> x in multiset(StableSort(s, leq));
      assert x in s <==> x in multiset(s);
    }
  }

  lemma {:induction false} InsertCount<T(!new)>(s: seq<T>, x: T, leq: (T, T) -> bool, p: T -> bool)
    ensures |Filter(Insert(s, x, leq), p)| == |Filter(s, p)| + if p(x) then 1 else 0
  {
    if s == [] || leq(s[|s| - 1], x) {
      assert (s + [x])[..|s|] == s;
    } else {
      InsertCount(s[..|s| - 1], x, leq, p);
      var r := Insert(s[..|s| - 1], x, leq);
      assert (r + [s[|s| - 1]])[..|r|] == r;
    }
  }

  /** Sorting keeps how many satisfy `p`. */
  lemma {:induction false} SortCount<T(!new)>(s: seq<T>, leq: (T, T) -> bool, p: T -> bool)
    ensures |Filter(StableSort(s, leq), p)| == |Filter(s, p)|
  {
    if s != [] {
      SortCount(s[..|s| - 1], leq, p);
      InsertCount(StableSort(s[..|s| - 1], leq), s[|s| - 1], leq, p);
    }
  }

  /** Sorting a distinct sequence leaves it distinct. */
  lemma SortDistinct<T>(s: seq<T>, leq: (T, T) -> bool)
    requires Distinct(s)
    ensures Distinct(StableSort(s, leq))
  {
    SortMultiset(s, leq);
    SortMembers(s, leq);
    DistinctMultiset(s);
    DistinctMultiset(StableSort(s, leq));
  }

  /** The members of a set, each once, in order. */
  method ListSorted<T(!new,==)>(members: set<T>, leq: (T, T) -> bool) returns (list: seq<T>)
    requires TotalPreorder(leq)
    ensures Distinct(list) && Sorted(list, leq)
    ensures |list| == |members| && forall x :: x in list <==> x in members
  {
    var found: seq<T> := [];
    var rest := members;
    while rest != {}
      invariant rest <= members && Distinct(found) && |found| + |rest| == |members|
      invariant forall x :: x in found <==> x in members && x !in rest
      decreases rest
    {
      var x := Any(rest);
      found := found + [x];
      rest := rest - {x};
    }
    list := StableSort(found, leq);
    SortMultiset(found, leq);
    SortDistinct(found, leq);
    SortSorted(found, leq);
    SortMembers(found, leq);
  }

  function TiedTo<T(!new)>(pivot: T, leq: (T, T) -> bool): T -> bool {
    (x: T) => leq(x, pivot) && leq(pivot, x)
  }

  /** Elements that compare equal both ways to `pivot`. */
  ghost function Ties<T(!new)>(s: seq<T>, pivot: T, leq: (T, T) -> bool): seq<T> {
    Filter(s, TiedTo(pivot, leq))
  }

  lemma TiesNext<T(!new)>(s: seq<T>, x: T, pivot: T, leq: (T, T) -> bool)
    ensures Ties(s + [x], pivot, leq) == Ties(s, pivot, leq) + if TiedTo(pivot, leq)(x) then [x] else []
  {
    assert (s + [x])[..|s|] == s;
  }

  lemma {:induction false} InsertStable<T(!new)>(s: seq<T>, x: T, pivot: T, leq: (T, T) -> bool)
    requires TotalPreorder(leq)
    ensures Ties(Insert(s, x, leq), pivot, leq) == Ties(s + [x], pivot, leq)
  {
    if s != [] && !leq(s[|s| - 1], x) {
      var rest, last := s[..|s| - 1], s[|s| - 1];
      InsertStable(rest, x, pivot, leq);
      TiesNext(Insert(rest, x, leq), last, pivot, leq);
      TiesNext(rest, x, pivot, leq);
      TiesNext(s, x, pivot, leq);
      TiesNext(rest, last, pivot, leq);
      assert s == rest + [last];
      // Were both ties of `pivot`, `last` would not be greater than `x`.
      assert !(TiedTo(pivot, leq)(last) && TiedTo(pivot, leq)(x));
    }
  }

  /** Stability: ties come out in the order they went in. */
  lemma {:induction false} SortStable<T(!new)>(s: seq<T>, pivot: T, leq: (T, T) -> bool)
    requires TotalPreorder(leq)
    ensures Ties(StableSort(s, leq), pivot, leq) == Ties(s, pivot, leq)
  {
    if s != [] {
      var rest, last := s[..|s| - 1], s[|s| - 1];
      SortStable(rest, pivot, leq);
      InsertStable(StableSort(rest, leq), last, pivot, leq);
      TiesNext(StableSort(rest, leq), last, pivot, leq);
      TiesNext(rest, last, pivot, leq);
      assert s == rest + [last];
    }
  }
}
