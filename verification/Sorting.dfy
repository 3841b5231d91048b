/** The library's stable sort, as insertion before equals, for any total order on the elements. */
module Sorting {
  import opened Wrappers

  ghost predicate Preorder<T(!new)>(atMost: (T, T) -> bool) {
    && (forall x, y :: atMost(x, y) || atMost(y, x))
    && forall x, y, z :: atMost(x, y) && atMost(y, z) ==> atMost(x, z)
  }

  /** Put `x` before the first element it may precede, that is, before its equals. */
  function Insert<T>(atMost: (T, T) -> bool, x: T, sorted: seq<T>): (r: seq<T>)
    ensures x in r && (forall y | y in sorted :: y in r) && forall y | y in r :: y == x || y in sorted
    ensures |r| == |sorted| + 1
  {
    if sorted == [] then [x]
    else if atMost(x, sorted[0]) then [x] + sorted
    else [sorted[0]] + Insert(atMost, x, sorted[1..])
  }

  function Sort<T>(atMost: (T, T) -> bool, s: seq<T>): (r: seq<T>)
    ensures (forall x | x in s :: x in r) && forall x | x in r :: x in s
    ensures |r| == |s|
  {
    if s == [] then [] else Insert(atMost, s[0], Sort(atMost, s[1..]))
  }

  ghost predicate Sorted<T>(atMost: (T, T) -> bool, s: seq<T>) {
    forall i, j | 0 <= i < j < |s| :: atMost(s[i], s[j])
  }

  lemma SortedPrepend<T>(atMost: (T, T) -> bool, x: T, s: seq<T>)
    requires Sorted(atMost, s) && forall y | y in s :: atMost(x, y)
    ensures Sorted(atMost, [x] + s)
  {
    forall i, j | 0 <= i < j < |s| + 1 ensures atMost(([x] + s)[i], ([x] + s)[j]) {
      assert s[j - 1] in s;
    }
  }

  lemma {:induction false} InsertSorted<T(!new)>(atMost: (T, T) -> bool, x: T, sorted: seq<T>)
    requires Preorder(atMost) && Sorted(atMost, sorted)
    ensures Sorted(atMost, Insert(atMost, x, sorted))
  {
    if sorted == [] {
    } else if atMost(x, sorted[0]) {
      forall y | y in sorted ensures atMost(x, y) {
        var j :| 0 <= j < |sorted| && sorted[j] == y;
        assert j > 0 ==> atMost(sorted[0], sorted[j]);
      }
      SortedPrepend(atMost, x, sorted);
    } else {
      var rest := Insert(atMost, x, sorted[1..]);
      InsertSorted(atMost, x, sorted[1..]);
      forall y | y in rest ensures atMost(sorted[0], y) {
        if y != x {
          var j :| 1 <= j < |sorted| && sorted[j] == y;
        }
      }
      SortedPrepend(atMost, sorted[0], rest);
    }
  }

  lemma {:induction false} SortSorted<T(!new)>(atMost: (T, T) -> bool, s: seq<T>)
    requires Preorder(atMost)
    ensures Sorted(atMost, Sort(atMost, s))
  {
    if s != [] {
      SortSorted(atMost, s[1..]);
      InsertSorted(atMost, s[0], Sort(atMost, s[1..]));
    }
  }

  lemma {:induction false} InsertMembers<T>(atMost: (T, T) -> bool, x: T, sorted: seq<T>)
    ensures multiset(Insert(atMost, x, sorted)) == multiset(sorted) + multiset{x}
  {
    if sorted != [] && !atMost(x, sorted[0]) {
      InsertMembers(atMost, x, sorted[1..]);
      assert sorted == [sorted[0]] + sorted[1..];
    }
  }

  lemma {:induction false} SortMembers<T>(atMost: (T, T) -> bool, s: seq<T>)
    ensures multiset(Sort(atMost, s)) == multiset(s)
  {
    if s != [] {
      SortMembers(atMost, s[1..]);
      InsertMembers(atMost, s[0], Sort(atMost, s[1..]));
      assert s == [s[0]] + s[1..];
    }
  }

  lemma {:induction false} InsertDistinct<T>(atMost: (T, T) -> bool, x: T, sorted: seq<T>)
    requires Distinct(sorted) && x !in sorted
    ensures Distinct(Insert(atMost, x, sorted))
  {
    if sorted != [] && !atMost(x, sorted[0]) {
      InsertDistinct(atMost, x, sorted[1..]);
      var rest := Insert(atMost, x, sorted[1..]);
      forall j | 0 <= j < |rest| ensures rest[j] != sorted[0] {
        assert rest[j] in rest;
      }
    }
  }

  lemma {:induction false} SortKeepsDistinct<T>(atMost: (T, T) -> bool, s: seq<T>)
    requires Distinct(s)
    ensures Distinct(Sort(atMost, s))
  {
    if s != [] {
      assert s[0] !in s[1..];
      SortKeepsDistinct(atMost, s[1..]);
      InsertDistinct(atMost, s[0], Sort(atMost, s[1..]));
    }
  }
}
