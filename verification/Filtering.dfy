/** Leaving elements out of a sequence, in order. */
module Filtering {
  import opened Wrappers

  function Not<T>(p: T -> bool): T -> bool {
    (x: T) => !p(x)
  }

  function Both<T>(p: T -> bool, q: T -> bool): T -> bool {
    (x: T) => p(x) && q(x)
  }

  function In<T(==)>(members: set<T>): T -> bool {
    (x: T) => x in members
  }

  function Filter<T>(s: seq<T>, keep: T -> bool): (kept: seq<T>)
    ensures forall x | x in kept :: x in s && keep(x)
    ensures forall x | x in s && keep(x) :: x in kept
    ensures |kept| <= |s|
  {
    if s == [] then []
    else (if keep(s[0]) then [s[0]] else []) + Filter(s[1..], keep)
  }

  lemma {:induction false} FilterConcat<T>(a: seq<T>, b: seq<T>, keep: T -> bool)
    ensures Filter(a + b, keep) == Filter(a, keep) + Filter(b, keep)
  {
    if a == [] {
      assert a + b == b;
    } else {
      assert (a + b)[1..] == a[1..] + b;
      FilterConcat(a[1..], b, keep);
    }
  }

  lemma {:induction false} FilterAgree<T>(s: seq<T>, p: T -> bool, q: T -> bool)
    requires forall x | x in s :: p(x) == q(x)
    ensures Filter(s, p) == Filter(s, q)
  {
    if s != [] {
      FilterAgree(s[1..], p, q);
    }
  }

  lemma {:induction false} FilterTwice<T>(s: seq<T>, p: T -> bool, q: T -> bool)
    ensures Filter(Filter(s, p), q) == Filter(s, Both(p, q))
  {
    if s != [] {
      FilterTwice(s[1..], p, q);
      FilterConcat(if p(s[0]) then [s[0]] else [], Filter(s[1..], p), q);
    }
  }

  lemma {:induction false} FilterDistinct<T>(s: seq<T>, keep: T -> bool)
    requires Distinct(s)
    ensures Distinct(Filter(s, keep))
  {
    if s != [] {
      assert s[0] !in s[1..];
      FilterDistinct(s[1..], keep);
    }
  }

  lemma {:induction false} FilterAllOrNone<T>(s: seq<T>, keep: T -> bool)
    ensures (forall x | x in s :: keep(x)) ==> Filter(s, keep) == s
    ensures (forall x | x in s :: !keep(x)) ==> Filter(s, keep) == []
  {
    if s != [] {
      FilterAllOrNone(s[1..], keep);
    }
  }
}
