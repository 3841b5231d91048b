/** Stable sorting, and the two orders the compiler sorts by. */
module ContextOrdering {
  import opened Filtering
  import opened Sorting
  import opened Wrappers
  import opened ContextBlocks

  datatype Key = Key(major: int, minor: int)

  predicate KeyAtMost(a: Key, b: Key) {
    a.major < b.major || (a.major == b.major && a.minor <= b.minor)
  }

  type KeyOf = Counted -> Key

  function WithKey(key: KeyOf, k: Key): Counted -> bool {
    b => key(b) == k
  }

  function By(key: KeyOf): (Counted, Counted) -> bool {
    (a: Counted, b: Counted) => KeyAtMost(key(a), key(b))
  }

  /** The stable sort by a key. */
  function StableSort(key: KeyOf, blocks: seq<Counted>): (r: seq<Counted>)
    ensures forall b :: b in r <==> b in blocks
    ensures |r| == |blocks|
  {
    Sort(By(key), blocks)
  }

  ghost predicate SortedBy(key: KeyOf, blocks: seq<Counted>) {
    forall i, j | 0 <= i < j < |blocks| :: KeyAtMost(key(blocks[i]), key(blocks[j]))
  }

  lemma SortSorts(key: KeyOf, blocks: seq<Counted>)
    ensures SortedBy(key, StableSort(key, blocks))
  {
    var r := StableSort(key, blocks);
    SortSorted(By(key), blocks);
    forall i, j | 0 <= i < j < |r| ensures KeyAtMost(key(r[i]), key(r[j])) {
      assert By(key)(r[i], r[j]);
    }
  }

  lemma {:induction false} InsertFilter(key: KeyOf, x: Counted, sorted: seq<Counted>, keep: Counted -> bool)
    requires !keep(x)
    ensures Filter(Insert(By(key), x, sorted), keep) == Filter(sorted, keep)
  {
    if sorted != [] && !KeyAtMost(key(x), key(sorted[0])) {
      InsertFilter(key, x, sorted[1..], keep);
    } else {
      assert ([x] + sorted)[1..] == sorted;
    }
  }

  lemma {:induction false} InsertFilterKey(key: KeyOf, x: Counted, sorted: seq<Counted>, k: Key)
    requires key(x) == k
    ensures var same := WithKey(key, k); Filter(Insert(By(key), x, sorted), same) == [x] + Filter(sorted, same)
  {
    var same := WithKey(key, k);
    if sorted != [] && !KeyAtMost(key(x), key(sorted[0])) {
      InsertFilterKey(key, x, sorted[1..], k);
      FilterPrepend(sorted[0], Insert(By(key), x, sorted[1..]), same);
    } else {
      FilterPrepend(x, sorted, same);
    }
  }

  lemma FilterPrepend(b: Counted, blocks: seq<Counted>, keep: Counted -> bool)
    ensures Filter([b] + blocks, keep) == (if keep(b) then [b] else []) + Filter(blocks, keep)
  {
    assert ([b] + blocks)[1..] == blocks;
  }

  /** Stability: blocks with the same key keep their order. */
  lemma {:induction false} SortStable(key: KeyOf, blocks: seq<Counted>, k: Key)
    ensures var same := WithKey(key, k); Filter(StableSort(key, blocks), same) == Filter(blocks, same)
  {
    var same := WithKey(key, k);
    if blocks != [] {
      SortStable(key, blocks[1..], k);
      if same(blocks[0]) {
        InsertFilterKey(key, blocks[0], StableSort(key, blocks[1..]), k);
      } else {
        InsertFilter(key, blocks[0], StableSort(key, blocks[1..]), same);
      }
    }
  }

  /** A sorted sequence is a fixed point of the sort. */
  lemma {:induction false} SortFixedPoint(key: KeyOf, blocks: seq<Counted>)
    requires SortedBy(key, blocks)
    ensures StableSort(key, blocks) == blocks
  {
    if blocks != [] {
      SortFixedPoint(key, blocks[1..]);
      if |blocks| > 1 {
        assert blocks[1..][0] == blocks[1];
      }
    }
  }

  /** Leaving blocks out of a sorted sequence leaves it sorted. */
  lemma {:induction false} FilterSorted(key: KeyOf, blocks: seq<Counted>, keep: Counted -> bool)
    requires SortedBy(key, blocks)
    ensures SortedBy(key, Filter(blocks, keep))
  {
    if blocks != [] {
      FilterSorted(key, blocks[1..], keep);
      var rest := Filter(blocks[1..], keep);
      forall j | 0 <= j < |rest| ensures KeyAtMost(key(blocks[0]), key(rest[j])) {
        assert rest[j] in blocks[1..];
      }
    }
  }

  lemma {:induction false} InsertTokens(key: KeyOf, x: Counted, sorted: seq<Counted>, keep: Counted -> bool)
    ensures Tokens(Filter(Insert(By(key), x, sorted), keep))
         == (if keep(x) then x.tokens else 0) + Tokens(Filter(sorted, keep))
  {
    if sorted != [] && !KeyAtMost(key(x), key(sorted[0])) {
      InsertTokens(key, x, sorted[1..], keep);
      TokensConcat(if keep(sorted[0]) then [sorted[0]] else [], Filter(Insert(By(key), x, sorted[1..]), keep));
      TokensConcat(if keep(sorted[0]) then [sorted[0]] else [], Filter(sorted[1..], keep));
    } else {
      assert ([x] + sorted)[1..] == sorted;
      TokensConcat(if keep(x) then [x] else [], Filter(sorted, keep));
    }
  }

  /** Sorting moves blocks around; it changes no sum over a selection of them. */
  lemma {:induction false} SortTokens(key: KeyOf, blocks: seq<Counted>, keep: Counted -> bool)
    ensures Tokens(Filter(StableSort(key, blocks), keep)) == Tokens(Filter(blocks, keep))
  {
    if blocks != [] {
      SortTokens(key, blocks[1..], keep);
      InsertTokens(key, blocks[0], StableSort(key, blocks[1..]), keep);
      TokensConcat(if keep(blocks[0]) then [blocks[0]] else [], Filter(blocks[1..], keep));
    }
  }

  lemma SortDistinct(key: KeyOf, blocks: seq<Counted>)
    requires Distinct(blocks)
    ensures Distinct(StableSort(key, blocks))
  {
    SortKeepsDistinct(By(key), blocks);
  }

  // --------------------------------------------------------- prompt order

  function PlacementKey(b: Counted): Key {
    Key(CacheabilityOrdinal(b.block.cacheability), TrustOrdinal(b.block.trust))
  }

  function OrderBlocks(blocks: seq<Counted>): seq<Counted> {
    StableSort(PlacementKey, blocks)
  }

  /** Stable before semi-stable before volatile before never cached. */
  ghost predicate MoreCacheable(a: Cacheability, b: Cacheability) {
    match a
    case Stable => b != Stable
    case SemiStable => b in {Volatile, Never}
    case Volatile => b == Never
    case Never => false
  }

  /** System, developer, tenant, user, tool, retrieved, untrusted. */
  ghost predicate MoreTrusted(a: TrustLevel, b: TrustLevel) {
    match a
    case TrustSystem => b != TrustSystem
    case TrustDeveloper => b !in {TrustSystem, TrustDeveloper}
    case TrustTenant => b in {TrustUser, TrustTool, TrustRetrieved, Untrusted}
    case TrustUser => b in {TrustTool, TrustRetrieved, Untrusted}
    case TrustTool => b in {TrustRetrieved, Untrusted}
    case TrustRetrieved => b == Untrusted
    case Untrusted => false
  }

  /** `x` belongs in front of `y`: more cacheable, or as cacheable and more trusted. */
  ghost predicate BelongsBefore(x: Block, y: Block) {
    || MoreCacheable(x.cacheability, y.cacheability)
    || (x.cacheability == y.cacheability && MoreTrusted(x.trust, y.trust))
  }

  function PlacedLike(b: Block): Counted -> bool {
    (d: Counted) => d.block.cacheability == b.cacheability && d.block.trust == b.trust
  }

  /**
    The order of the prompt, spelled out: nothing stands in front of what belongs before it, and blocks
    of one cacheability and trust keep the order they came in; it is a rearrangement of what came in.
   */
  lemma OrderMeaning(blocks: seq<Counted>, b: Block)
    ensures var ordered := OrderBlocks(blocks);
      && (forall i, j | 0 <= i < j < |ordered| :: !BelongsBefore(ordered[j].block, ordered[i].block))
      && Filter(ordered, PlacedLike(b)) == Filter(blocks, PlacedLike(b))
      && multiset(ordered) == multiset(blocks)
  {
    var ordered := OrderBlocks(blocks);
    SortSorts(PlacementKey, blocks);
    forall i, j | 0 <= i < j < |ordered| ensures !BelongsBefore(ordered[j].block, ordered[i].block) {
      BelongsByKey(ordered[j], ordered[i]);
      assert KeyAtMost(PlacementKey(ordered[i]), PlacementKey(ordered[j]));
    }
    hide StableSort;
    var k := PlacementKey(Counted(b, 0));
    forall d: Counted ensures PlacedLike(b)(d) == WithKey(PlacementKey, k)(d) {
      BelongsByKey(d, Counted(b, 0));
    }
    SortStable(PlacementKey, blocks, k);
    FilterAgree(blocks, PlacedLike(b), WithKey(PlacementKey, k));
    FilterAgree(ordered, PlacedLike(b), WithKey(PlacementKey, k));
    SortedMembers(blocks);
  }

  lemma SortedMembers(blocks: seq<Counted>)
    ensures multiset(OrderBlocks(blocks)) == multiset(blocks)
  {
    SortMembers(By(PlacementKey), blocks);
  }

  lemma BelongsByKey(x: Counted, y: Counted)
    ensures BelongsBefore(x.block, y.block) <==> !KeyAtMost(PlacementKey(y), PlacementKey(x))
    ensures PlacementKey(x) == PlacementKey(y)
       <==> x.block.cacheability == y.block.cacheability && x.block.trust == y.block.trust
  {
  }

  /** The leading run of stable and semi-stable blocks, then the rest. */
  method SplitStablePrefix(blocks: seq<Counted>) returns (stable: seq<Counted>, volatile: seq<Counted>)
    ensures blocks == stable + volatile
    ensures forall b | b in stable :: InPrefix(b)
    ensures volatile != [] ==> !InPrefix(volatile[0])
  {
    var cut := 0;
    while cut < |blocks| && InPrefix(blocks[cut])
      invariant 0 <= cut <= |blocks|
      invariant forall k | 0 <= k < cut :: InPrefix(blocks[k])
    {
      cut := cut + 1;
    }
    return blocks[..cut], blocks[cut..];
  }

  /** Behind the first block that is not in the prefix there is none that is. */
  lemma NothingBehindPrefix(stable: seq<Counted>, volatile: seq<Counted>)
    requires SortedBy(PlacementKey, stable + volatile) && (volatile != [] ==> !InPrefix(volatile[0]))
    ensures forall b | b in volatile :: !InPrefix(b)
  {
    var whole := stable + volatile;
    forall b | b in volatile ensures !InPrefix(b) {
      var j :| 0 <= j < |volatile| && volatile[j] == b;
      assert whole[|stable|] == volatile[0] && whole[|stable| + j] == b;
    }
  }

  /** In an ordered sequence the split is exact: every prefix block is in front of it. */
  lemma {:induction false} SplitExact(stable: seq<Counted>, volatile: seq<Counted>)
    requires SortedBy(PlacementKey, stable + volatile)
    requires (forall b | b in stable :: InPrefix(b)) && (volatile != [] ==> !InPrefix(volatile[0]))
    ensures stable == Filter(stable + volatile, InPrefix)
    ensures volatile == Filter(stable + volatile, Not(InPrefix))
  {
    NothingBehindPrefix(stable, volatile);
    hide InPrefix, PlacementKey, Filter, SortedBy;
    FilterConcat(stable, volatile, InPrefix);
    FilterConcat(stable, volatile, Not(InPrefix));
    FilterAllOrNone(stable, InPrefix);
    FilterAllOrNone(volatile, InPrefix);
    FilterAllOrNone(stable, Not(InPrefix));
    FilterAllOrNone(volatile, Not(InPrefix));
  }

  /** Ordering again after leaving blocks out changes nothing. */
  lemma ReorderIsIdentity(blocks: seq<Counted>, keep: Counted -> bool)
    ensures var kept := Filter(OrderBlocks(blocks), keep); OrderBlocks(kept) == kept
  {
    SortSorts(PlacementKey, blocks);
    FilterSorted(PlacementKey, OrderBlocks(blocks), keep);
    SortFixedPoint(PlacementKey, Filter(OrderBlocks(blocks), keep));
  }
}
