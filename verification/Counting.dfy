/** Counting the elements of a sequence that satisfy a predicate, and splitting such counts by a key. */
module Counting {
  import opened Filtering
  import opened Wrappers

  function Any<T>(): T -> bool {
    (x: T) => true
  }

  /** Elements whose `key` is `k`. */
  function Has<T, K(==)>(key: T -> K, k: K): T -> bool {
    (x: T) => key(x) == k
  }

  function Count<T>(s: seq<T>, p: T -> bool): (n: nat)
    ensures n <= |s|
  {
    if s == [] then 0 else Count(s[..|s| - 1], p) + if p(s[|s| - 1]) then 1 else 0
  }

  /** Over the given keys, how many elements satisfy `p` and have that key. */
  function Spread<T, K(==)>(keys: seq<K>, s: seq<T>, p: T -> bool, key: T -> K): nat {
    if keys == [] then 0 else Count(s, Both(p, Has(key, keys[0]))) + Spread(keys[1..], s, p, key)
  }

  lemma {:induction false} CountAgree<T>(s: seq<T>, p: T -> bool, q: T -> bool)
    requires forall x | x in s :: p(x) == q(x)
    ensures Count(s, p) == Count(s, q)
  {
    if s != [] {
      CountAgree(s[..|s| - 1], p, q);
    }
  }

  lemma {:induction false} CountNone<T>(s: seq<T>, p: T -> bool)
    requires forall x | x in s :: !p(x)
    ensures Count(s, p) == 0
  {
    if s != [] {
      CountNone(s[..|s| - 1], p);
    }
  }

  lemma {:induction false} CountAny<T>(s: seq<T>)
    ensures Count(s, Any()) == |s|
  {
    if s != [] {
      CountAny(s[..|s| - 1]);
    }
  }

  lemma CountPush<T>(s: seq<T>, x: T, p: T -> bool)
    ensures Count(s + [x], p) == Count(s, p) + if p(x) then 1 else 0
  {
    assert (s + [x])[..|s|] == s;
  }

  lemma {:induction false} CountOfMember<T>(s: seq<T>, x: T, p: T -> bool)
    requires x in s && p(x)
    ensures Count(s, p) > 0
  {
    var front, last := s[..|s| - 1], s[|s| - 1];
    if x != last {
      CountOfMember(front, x, p);
    }
  }

  lemma {:induction false} SpreadPush<T, K>(keys: seq<K>, s: seq<T>, x: T, p: T -> bool, key: T -> K)
    requires Distinct(keys)
    ensures Spread(keys, s + [x], p, key) == Spread(keys, s, p, key) + if p(x) && key(x) in keys then 1 else 0
  {
    if keys != [] {
      CountPush(s, x, Both(p, Has(key, keys[0])));
      SpreadPush(keys[1..], s, x, p, key);
      assert keys == [keys[0]] + keys[1..];
    }
  }

  lemma {:induction false} SpreadOfNothing<T, K>(keys: seq<K>, p: T -> bool, key: T -> K)
    ensures Spread(keys, [], p, key) == 0
  {
    if keys != [] {
      SpreadOfNothing(keys[1..], p, key);
    }
  }

  /** Splitting a count by key and adding it up again counts the elements whose key is listed, in any order. */
  lemma {:induction false} SpreadIsCount<T, K>(
      keys: seq<K>, s: seq<T>, p: T -> bool, key: T -> K, listed: T -> bool)
    requires Distinct(keys)
    requires forall x | x in s :: listed(x) <==> p(x) && key(x) in keys
    ensures Spread(keys, s, p, key) == Count(s, listed)
  {
    if s == [] {
      SpreadOfNothing(keys, p, key);
    } else {
      var front, x := s[..|s| - 1], s[|s| - 1];
      assert s == front + [x];
      assert forall y | y in front :: y in s;
      SpreadIsCount(keys, front, p, key, listed);
      SpreadPush(keys, front, x, p, key);
    }
  }
}
