/** The semantic intent cache: a bounded index per tenant and discriminators, searched by similarity. */
module SemanticCache {
  import opened Filtering
  import opened Wrappers
  import opened IntentSchema

  type Vector = seq<real>

  /** Everything besides the prompt that changes what the answer should be. */
  datatype Discriminators = Discriminators(
    taxonomyVersion: string, classifierVersion: string, policyVersion: string, language: string, conversation: string)

  datatype Entry = Entry(prompt: string, vector: Vector, classification: IntentClassification, expiresAt: real)

  datatype Match = Match(entry: Entry, similarity: real)

  datatype RawPolicy = Policy(similarity: Unit, confidence: Unit, ttl: real, capacity: nat)

  type CachePolicy = p: RawPolicy | p.capacity > 0 witness Policy(0.92, 0.75, 120.0, 2000)

  /** Entries by prompt key, and the keys in order of first insertion. */
  datatype Index = Index(entries: map<string, Entry>, order: seq<string>)

  const EMPTY := Index(map[], [])

  ghost predicate WellFormed(index: Index) {
    Distinct(index.order) && forall k :: k in index.entries <==> k in index.order
  }

  function IsExpired(e: Entry, now: real): bool {
    now >= e.expiresAt
  }

  // ------------------------------------------------------------------ expiry

  function Live(index: Index, now: real): map<string, Entry> {
    map k | k in index.entries && !IsExpired(index.entries[k], now) :: index.entries[k]
  }

  /** The index without its expired entries. */
  function Purged(index: Index, now: real): Index {
    var live := Live(index, now);
    Index(live, Filter(index.order, In(live.Keys)))
  }

  /** An entry can be served until the instant at which it expires, and not from that instant on. */
  lemma LiveMeaning(index: Index, now: real)
    ensures forall k :: k in Live(index, now) <==> k in index.entries && now < index.entries[k].expiresAt
    ensures forall k | k in Live(index, now) :: Live(index, now)[k] == index.entries[k]
  {
  }

  lemma PurgedWellFormed(index: Index, now: real)
    requires WellFormed(index)
    ensures WellFormed(Purged(index, now)) && |Purged(index, now).order| <= |index.order|
    ensures Purged(index, now).entries == Live(index, now)
  {
    var live := Live(index, now);
    FilterDistinct(index.order, In(live.Keys));
  }

  // --------------------------------------------------------------- insertion

  function WithoutFirst(index: Index): Index
    requires index.order != []
  {
    Index(index.entries - {index.order[0]}, index.order[1..])
  }

  function Trimmed(index: Index, capacity: nat): Index
    decreases |index.order|
  {
    if |index.order| <= capacity then index
    else Trimmed(WithoutFirst(index), capacity)
  }

  function Inserted(index: Index, key: string, entry: Entry, capacity: nat): Index {
    Trimmed(Grown(index, key, entry), capacity)
  }

  lemma WithoutFirstWellFormed(index: Index)
    requires WellFormed(index) && index.order != []
    ensures WellFormed(WithoutFirst(index))
    ensures forall k | k in WithoutFirst(index).entries ::
      k in index.entries && WithoutFirst(index).entries[k] == index.entries[k]
  {
    assert forall k | k in index.order[1..] :: k != index.order[0];
    assert forall k | k in index.order :: k == index.order[0] || k in index.order[1..];
  }

  lemma {:induction false} TrimmedWellFormed(index: Index, capacity: nat)
    requires WellFormed(index)
    ensures WellFormed(Trimmed(index, capacity))
    ensures forall k | k in Trimmed(index, capacity).entries ::
      k in index.entries && Trimmed(index, capacity).entries[k] == index.entries[k]
    decreases |index.order|
  {
    if |index.order| > capacity {
      WithoutFirstWellFormed(index);
      hide WellFormed;
      TrimmedWellFormed(WithoutFirst(index), capacity);
    }
  }

  lemma {:induction false} TrimmedOrder(index: Index, capacity: nat)
    ensures Trimmed(index, capacity).order
         == if |index.order| <= capacity then index.order else index.order[|index.order| - capacity..]
    decreases |index.order|
  {
    if |index.order| > capacity {
      TrimmedOrder(WithoutFirst(index), capacity);
      assert index.order[1..][|index.order| - 1 - capacity..] == index.order[|index.order| - capacity..];
    }
  }

  /** Trimming drops the entries that were inserted first, and only as many as it must. */
  lemma TrimmedMeaning(index: Index, capacity: nat)
    requires WellFormed(index)
    ensures var t := Trimmed(index, capacity);
      && WellFormed(t) && |t.order| <= capacity
      && (|index.order| <= capacity ==> t == index)
      && (|index.order| > capacity ==> t.order == index.order[|index.order| - capacity..])
      && forall k | k in t.order :: t.entries[k] == index.entries[k]
  {
    TrimmedWellFormed(index, capacity);
    TrimmedOrder(index, capacity);
  }

  /** The index with one more entry, before trimming. */
  function Grown(index: Index, key: string, entry: Entry): Index {
    Index(index.entries[key := entry], if key in index.entries then index.order else index.order + [key])
  }

  lemma GrownMeaning(index: Index, key: string, entry: Entry)
    requires WellFormed(index)
    ensures var g := Grown(index, key, entry);
      && WellFormed(g) && key in g.order && g.entries[key] == entry
      && forall k | k in g.order && k != key :: k in index.entries && g.entries[k] == index.entries[k]
  {
    if key !in index.entries {
      assert Grown(index, key, entry).order[|index.order|] == key;
    }
  }

  /** One entry more: an old key is overwritten in place, a new one goes last, and the first inserted goes. */
  lemma InsertedMeaning(index: Index, key: string, entry: Entry, capacity: nat)
    requires WellFormed(index) && capacity > 0 && |index.order| <= capacity
    ensures var r := Inserted(index, key, entry, capacity);
      && WellFormed(r) && |r.order| <= capacity
      && key in r.order && r.entries[key] == entry
      && r.order == (if key in index.entries then index.order
                     else if |index.order| < capacity then index.order + [key]
                     else index.order[1..] + [key])
      && forall k | k in r.order && k != key :: k in index.entries && r.entries[k] == index.entries[k]
  {
    hide WellFormed, Trimmed;
    GrownMeaning(index, key, entry);
    TrimmedMeaning(Grown(index, key, entry), capacity);
    InsertedOrder(index, key, entry, capacity);
    var order := Inserted(index, key, entry, capacity).order;
    assert key !in index.entries ==> order[|order| - 1] == key;
    assert forall k | k in order :: k in Grown(index, key, entry).order;
  }

  lemma InsertedOrder(index: Index, key: string, entry: Entry, capacity: nat)
    requires WellFormed(index) && capacity > 0 && |index.order| <= capacity
    ensures Inserted(index, key, entry, capacity).order
         == if key in index.entries then index.order
            else if |index.order| < capacity then index.order + [key]
            else index.order[1..] + [key]
  {
    hide WellFormed, Trimmed;
    var grown := Grown(index, key, entry);
    GrownMeaning(index, key, entry);
    TrimmedMeaning(grown, capacity);
    if |grown.order| > capacity {
      assert grown.order[1..] == index.order[1..] + [key];
    }
  }

  // ------------------------------------------------------------------- cache

  datatype Partition = Partition(tenant: string, discriminators: Discriminators)

  type Similarity = (Vector, Vector) -> real

  /** Similar enough and confident enough; either alone is refused. */
  predicate Qualifies(policy: CachePolicy, similarity: Similarity, vector: Vector, e: Entry) {
    e.classification.confidence >= policy.confidence && similarity(vector, e.vector) >= policy.similarity
  }

  /** What a lookup among these live entries must answer. */
  ghost predicate Answers(
      policy: CachePolicy, similarity: Similarity, vector: Vector, live: map<string, Entry>, r: Option<Match>)
  {
    match r
    case None => forall k | k in live :: !Qualifies(policy, similarity, vector, live[k])
    case Some(m) =>
      && (exists k | k in live :: live[k] == m.entry)
      && Qualifies(policy, similarity, vector, m.entry)
      && m.similarity == similarity(vector, m.entry.vector)
      && forall k | k in live && Qualifies(policy, similarity, vector, live[k]) ::
           similarity(vector, live[k].vector) <= m.similarity
  }

  /** An entry that may be served at `now`: still to expire, confident enough and similar enough. */
  predicate Servable(policy: CachePolicy, similarity: Similarity, vector: Vector, now: real, e: Entry) {
    && now < e.expiresAt
    && e.classification.confidence >= policy.confidence
    && similarity(vector, e.vector) >= policy.similarity
  }

  /** The entry of key number `j` was found, and every usable one inserted before it is less similar. */
  ghost predicate FirstAt(
      index: Index, usable: Entry -> bool, similarity: Similarity, vector: Vector, found: Match, j: nat)
  {
    && j < |index.order| && index.order[j] in index.entries && index.entries[index.order[j]] == found.entry
    && forall i | 0 <= i < j && index.order[i] in index.entries && usable(index.entries[index.order[i]]) ::
         similarity(vector, index.entries[index.order[i]].vector) < found.similarity
  }

  function Usable(policy: CachePolicy, similarity: Similarity, vector: Vector): Entry -> bool {
    (e: Entry) => Qualifies(policy, similarity, vector, e)
  }

  function UsableAt(policy: CachePolicy, similarity: Similarity, vector: Vector, now: real): Entry -> bool {
    (e: Entry) => Servable(policy, similarity, vector, now, e)
  }

  /** The first among the unexpired entries is the first among all, the expired ones not being usable. */
  lemma FirstOfAll(
      policy: CachePolicy, similarity: Similarity, index: Index, vector: Vector, now: real, found: Match, j: nat)
    requires WellFormed(index)
    requires FirstAt(Purged(index, now), Usable(policy, similarity, vector), similarity, vector, found, j)
    ensures exists m :: FirstAt(index, UsableAt(policy, similarity, vector, now), similarity, vector, found, m)
  {
    LiveMeaning(index, now);
    var live := Live(index, now);
    var alive := In(live.Keys);
    var purged := Filter(index.order, alive);
    var m :| 0 <= m < |index.order| && index.order[m] == purged[j];
    PurgedPlace(index.order, alive, m, j);
    hide Live, Filter, WellFormed;
    forall i | 0 <= i < m && index.order[i] in index.entries
      && UsableAt(policy, similarity, vector, now)(index.entries[index.order[i]])
      ensures similarity(vector, index.entries[index.order[i]].vector) < found.similarity
    {
      var k := PlaceBefore(index.order, alive, i, m);
    }
    assert FirstAt(index, UsableAt(policy, similarity, vector, now), similarity, vector, found, m);
  }

  /** What stands at place `m` and passes the filter stands behind what passed it before. */
  lemma PlaceInFilter(order: seq<string>, alive: string -> bool, m: nat)
    requires m < |order| && alive(order[m])
    ensures var k := |Filter(order[..m], alive)|;
      && k < |Filter(order, alive)| && Filter(order, alive)[k] == order[m]
      && Filter(order, alive)[..k] == Filter(order[..m], alive)
  {
    assert order == order[..m] + order[m..];
    FilterConcat(order[..m], order[m..], alive);
    assert order[m..][0] == order[m];
  }

  lemma PurgedPlace(order: seq<string>, alive: string -> bool, m: nat, j: nat)
    requires Distinct(order) && m < |order| && j < |Filter(order, alive)| && order[m] == Filter(order, alive)[j]
    ensures j == |Filter(order[..m], alive)|
  {
    PlaceInFilter(order, alive, m);
    FilterDistinct(order, alive);
  }

  lemma PlaceBefore(order: seq<string>, alive: string -> bool, i: nat, m: nat) returns (k: nat)
    requires i < m < |order| && alive(order[i]) && alive(order[m])
    ensures k < |Filter(order[..m], alive)| <= |Filter(order, alive)| && Filter(order, alive)[k] == order[i]
  {
    PlaceInFilter(order, alive, m);
    assert order[..m][i] == order[i];
    var front := Filter(order[..m], alive);
    assert order[i] in front;
    k :| 0 <= k < |front| && front[k] == order[i];
  }

  /**
    What a lookup at `now` owes its caller, in terms of the stored entries and their instants: it finds
    something exactly when some entry may be served, and then one that no other such entry exceeds in
    similarity, the first inserted of these; and exactly the entries still to expire remain, in their order.
   */
  ghost predicate ServesUnexpired(
      policy: CachePolicy, similarity: Similarity, before: Index, after: Index, vector: Vector, now: real,
      best: Option<Match>)
  {
    && (best.None? <==> forall k | k in before.entries :: !Servable(policy, similarity, vector, now, before.entries[k]))
    && (best.Some? ==>
          && (exists j :: FirstAt(before, UsableAt(policy, similarity, vector, now), similarity, vector, best.value, j))
          && Servable(policy, similarity, vector, now, best.value.entry)
          && best.value.similarity == similarity(vector, best.value.entry.vector)
          && forall k | k in before.entries && Servable(policy, similarity, vector, now, before.entries[k]) ::
               similarity(vector, before.entries[k].vector) <= best.value.similarity)
    && (forall k :: k in after.entries <==> k in before.entries && now < before.entries[k].expiresAt)
    && (forall k | k in after.entries :: after.entries[k] == before.entries[k])
    && after.order == Filter(before.order, In(after.entries.Keys))
  }

  lemma AnswersServe(
      policy: CachePolicy, similarity: Similarity, index: Index, vector: Vector, now: real, best: Option<Match>)
    requires WellFormed(index) && Answers(policy, similarity, vector, Live(index, now), best)
    requires best.Some? ==>
      exists j :: FirstAt(Purged(index, now), Usable(policy, similarity, vector), similarity, vector, best.value, j)
    ensures ServesUnexpired(policy, similarity, index, Purged(index, now), vector, now, best)
  {
    LiveMeaning(index, now);
    var live := Live(index, now);
    if best.Some? {
      var k :| k in live && live[k] == best.value.entry;
      var j :| FirstAt(Purged(index, now), Usable(policy, similarity, vector), similarity, vector, best.value, j);
      FirstOfAll(policy, similarity, index, vector, now, best.value, j);
    }
    hide FirstAt;
    forall k | k in index.entries && Servable(policy, similarity, vector, now, index.entries[k])
      ensures k in live && Qualifies(policy, similarity, vector, live[k])
    {
    }
    hide Live;
  }

  class SemanticIntentCache {
    const policy: CachePolicy
    const similarity: Similarity
    var store: map<Partition, Index>
    var hits: nat
    var misses: nat
    var writes: nat
    var expired: nat

    constructor (policy: CachePolicy, similarity: Similarity)
      ensures this.policy == policy && this.similarity == similarity && store == map[] && Valid()
    {
      this.policy, this.similarity := policy, similarity;
      store := map[];
      hits, misses, writes, expired := 0, 0, 0, 0;
    }

    ghost predicate Valid()
      reads this
    {
      forall p | p in store :: WellFormed(store[p]) && |store[p].order| <= policy.capacity
    }

    /** The nearest usable neighbour, the first inserted among equals. Expired entries are purged. */
    method Lookup(partition: Partition, vector: Vector, now: real) returns (best: Option<Match>)
      requires Valid()
      modifies this
      ensures Valid()
      ensures partition !in old(store) ==> best.None? && store == old(store)
      ensures partition in old(store) ==>
        && store == old(store)[partition := Purged(old(store)[partition], now)]
        && Answers(policy, similarity, vector, Live(old(store)[partition], now), best)
        && ServesUnexpired(policy, similarity, old(store)[partition], store[partition], vector, now, best)
      ensures hits + misses == old(hits + misses) + 1 && (best.Some? <==> hits == old(hits) + 1)
      ensures writes == old(writes)
      ensures expired == old(expired) +
        if partition in old(store) then |old(store)[partition].order| - |store[partition].order| else 0
    {
      if partition !in store {
        misses := misses + 1;
        return None;
      }
      hide ServesUnexpired, Answers, Live, Purged, WellFormed;
      var index := store[partition];
      var purged, found := Search(index, vector, now);
      best := found;
      expired := expired + (|index.order| - |purged.order|);
      store := store[partition := purged];
      if best.None? {
        misses := misses + 1;
      } else {
        hits := hits + 1;
      }
    }

    method Search(index: Index, vector: Vector, now: real) returns (purged: Index, best: Option<Match>)
      requires WellFormed(index)
      ensures purged == Purged(index, now) && WellFormed(purged) && |purged.order| <= |index.order|
      ensures Answers(policy, similarity, vector, Live(index, now), best)
      ensures ServesUnexpired(policy, similarity, index, purged, vector, now, best)
    {
      hide ServesUnexpired, Answers, Live, Purged, WellFormed;
      purged := Purged(index, now);
      PurgedWellFormed(index, now);
      best := Nearest(purged, vector);
      AnswersServe(policy, similarity, index, vector, now, best);
    }

    method Nearest(index: Index, vector: Vector) returns (best: Option<Match>)
      requires WellFormed(index)
      ensures Answers(policy, similarity, vector, index.entries, best)
      ensures best.Some? ==>
        exists j :: FirstAt(index, Usable(policy, similarity, vector), similarity, vector, best.value, j)
    {
      best := None;
      for i := 0 to |index.order|
        invariant AnswersUpTo(index, vector, i, best)
      {
        var key := index.order[i];
        var entry := index.entries[key];
        if Qualifies(policy, similarity, vector, entry) {
          var s := similarity(vector, entry.vector);
          if best.None? || s > best.value.similarity {
            best := Some(Match(entry, s));
            assert FirstAt(index, Usable(policy, similarity, vector), similarity, vector, best.value, i);
          }
        }
      }
      forall k | k in index.entries ensures exists j :: 0 <= j < |index.order| && index.order[j] == k {
        assert k in index.order;
      }
    }

    /** `Answers` for the first `n` keys in order. */
    ghost predicate AnswersUpTo(index: Index, vector: Vector, n: nat, best: Option<Match>)
      requires WellFormed(index) && n <= |index.order|
    {
      match best
      case None =>
        forall j | 0 <= j < n :: !Qualifies(policy, similarity, vector, index.entries[index.order[j]])
      case Some(m) =>
        && (exists j | 0 <= j < n :: FirstAt(index, Usable(policy, similarity, vector), similarity, vector, m, j))
        && Qualifies(policy, similarity, vector, m.entry)
        && m.similarity == similarity(vector, m.entry.vector)
        && forall j | 0 <= j < n && Qualifies(policy, similarity, vector, index.entries[index.order[j]]) ::
             similarity(vector, index.entries[index.order[j]].vector) <= m.similarity
    }

    /** Admit a fresh known answer that is confident enough to serve to somebody else. */
    method Admit(partition: Partition, key: string, prompt: string, vector: Vector,
                 classification: IntentClassification, now: real) returns (admitted: bool)
      requires Valid()
      modifies this
      ensures Valid()
      ensures admitted <==>
        !classification.abstain && classification.state.Known? && classification.confidence >= policy.confidence
      ensures !admitted ==> store == old(store) && writes == old(writes)
      ensures admitted ==>
        && writes == old(writes) + 1
        && store == old(store)[partition := Inserted(
             if partition in old(store) then old(store)[partition] else EMPTY,
             key, Entry(prompt, vector, classification, now + policy.ttl), policy.capacity)]
      ensures hits == old(hits) && misses == old(misses) && expired == old(expired)
    {
      if classification.abstain || !classification.state.Known? || classification.confidence < policy.confidence {
        return false;
      }
      var index := if partition in store then store[partition] else EMPTY;
      var entry := Entry(prompt, vector, classification, now + policy.ttl);
      InsertedMeaning(index, key, entry, policy.capacity);
      store := store[partition := Inserted(index, key, entry, policy.capacity)];
      writes := writes + 1;
      return true;
    }

    /** The backing store may lose whole partitions. */
    method Lose(lost: set<Partition>)
      requires Valid()
      modifies this
      ensures Valid() && store == old(store) - lost
      ensures hits == old(hits) && misses == old(misses) && writes == old(writes) && expired == old(expired)
    {
      store := store - lost;
    }
  }
}
