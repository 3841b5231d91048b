/**
  The bounded counters of the intent subsystem: histograms, per-layer, per-intent and per-state counts,
  each compared with the history of what was recorded.
 */
module Metrics {
  import opened Counting
  import opened Filtering
  import opened IntentSchema
  import opened Sorting
  import opened Wrappers

  // --------------------------------------------------------------- histograms

  /** The first bucket whose bound is not exceeded, or the overflow bucket after them all. */
  function BucketOf(bounds: seq<real>, value: real): (i: nat)
    ensures i <= |bounds|
  {
    if bounds == [] || value <= bounds[0] then 0 else 1 + BucketOf(bounds[1..], value)
  }

  function Bucket(bounds: seq<real>): real -> nat {
    (value: real) => BucketOf(bounds, value)
  }

  ghost predicate NonDecreasing(s: seq<real>) {
    forall i, j | 0 <= i < j < |s| :: s[i] <= s[j]
  }

  lemma {:induction false} BucketIsFirst(bounds: seq<real>, value: real, i: nat)
    requires i <= |bounds|
    ensures BucketOf(bounds, value) == i <==>
      (&& (forall j | 0 <= j < i :: value > bounds[j])
       && (i < |bounds| ==> value <= bounds[i]))
  {
    if bounds == [] || value <= bounds[0] {
    } else if i > 0 {
      BucketIsFirst(bounds[1..], value, i - 1);
      assert forall j | 0 < j < i :: bounds[j] == bounds[1..][j - 1];
      assert (forall j | 0 <= j < i :: value > bounds[j]) <==> (forall j | 0 <= j < i - 1 :: value > bounds[1..][j]);
    }
  }

  /** With sorted bounds a bucket counts the values above the bound before it, up to and including its own. */
  lemma BucketIsInterval(bounds: seq<real>, value: real, i: nat)
    requires NonDecreasing(bounds) && i <= |bounds|
    ensures BucketOf(bounds, value) == i <==>
      (&& (i > 0 ==> value > bounds[i - 1])
       && (i < |bounds| ==> value <= bounds[i]))
  {
    BucketIsFirst(bounds, value, i);
  }

  function Sum(s: seq<real>): real {
    if s == [] then 0.0 else Sum(s[..|s| - 1]) + s[|s| - 1]
  }

  function Total(counts: seq<nat>): nat {
    if counts == [] then 0 else Total(counts[..|counts| - 1]) + counts[|counts| - 1]
  }

  function Below(bounds: seq<real>, n: nat): real -> bool {
    (value: real) => BucketOf(bounds, value) < n
  }

  /** Each bucket holds the number of values that fall in it. */
  ghost predicate CountsOf(counts: seq<nat>, bounds: seq<real>, seen: seq<real>) {
    |counts| == |bounds| + 1 && forall i | 0 <= i < |counts| :: counts[i] == Count(seen, Has(Bucket(bounds), i))
  }

  lemma {:induction false} CountBelow(bounds: seq<real>, seen: seq<real>, n: nat)
    requires n > 0
    ensures Count(seen, Below(bounds, n))
         == Count(seen, Below(bounds, n - 1)) + Count(seen, Has(Bucket(bounds), n - 1))
  {
    if seen != [] {
      CountBelow(bounds, seen[..|seen| - 1], n);
    }
  }

  lemma {:induction false} TotalBelow(counts: seq<nat>, bounds: seq<real>, seen: seq<real>, n: nat)
    requires CountsOf(counts, bounds, seen) && n <= |counts|
    ensures Total(counts[..n]) == Count(seen, Below(bounds, n))
  {
    if n == 0 {
      CountNone(seen, Below(bounds, 0));
    } else {
      TotalBelow(counts, bounds, seen, n - 1);
      CountBelow(bounds, seen, n);
      assert counts[..n][..n - 1] == counts[..n - 1];
      assert Total(counts[..n]) == Total(counts[..n - 1]) + counts[n - 1];
      assert counts[n - 1] == Count(seen, Has(Bucket(bounds), n - 1));
    }
  }

  /** No observation is lost or counted twice. */
  lemma BucketsAddUp(counts: seq<nat>, bounds: seq<real>, seen: seq<real>)
    requires CountsOf(counts, bounds, seen)
    ensures Total(counts) == |seen|
  {
    TotalBelow(counts, bounds, seen, |counts|);
    assert counts[..|counts|] == counts;
    CountAgree(seen, Below(bounds, |counts|), Any());
    CountAny(seen);
  }

  class Histogram {
    const bounds: seq<real>
    const counts: array<nat>
    var total: real
    var observations: nat
    ghost var seen: seq<real>

    ghost predicate Valid()
      reads this, counts
    {
      && CountsOf(counts[..], bounds, seen)
      && observations == |seen|
      && total == Sum(seen)
    }

    constructor (bounds: seq<real>)
      ensures Valid() && fresh(counts) && this.bounds == bounds && seen == []
    {
      this.bounds := bounds;
      counts := new nat[|bounds| + 1](i => 0);
      total, observations := 0.0, 0;
      seen := [];
    }

    method Observe(value: real)
      requires Valid()
      modifies this, counts
      ensures Valid() && seen == old(seen) + [value]
    {
      total := total + value;
      observations := observations + 1;
      var bucket := |bounds|;
      for index := 0 to |bounds|
        invariant forall j | 0 <= j < index :: value > bounds[j]
      {
        if value <= bounds[index] {
          bucket := index;
          break;
        }
      }
      BucketIsFirst(bounds, value, bucket);
      counts[bucket] := counts[bucket] + 1;
      seen := seen + [value];
      assert seen[..|seen| - 1] == old(seen);
      forall i | 0 <= i < counts.Length ensures counts[i] == Count(seen, Has(Bucket(bounds), i)) {
        CountPush(old(seen), value, Has(Bucket(bounds), i));
        assert old(counts[..])[i] == Count(old(seen), Has(Bucket(bounds), i));
      }
    }
  }

  // ------------------------------------------------------------------ records

  const MAX_TRACKED_INTENTS: nat := 512

  /** The arguments of one recorded classification. */
  datatype Record = Record(
    layer: Layer, intent: string, confidence: real, abstained: bool, ambiguous: bool,
    latency: real, cost: real, cacheHit: bool, servingState: Option<ServingState>)

  /** The serving state a record counts under: its own, or one inferred from the label. */
  function StateOf(r: Record): ServingState {
    match r.servingState
    case Some(state) => state
    case None => if r.abstained then Abstain else if r.intent == UNKNOWN_INTENT_ID then Unknown else Known
  }

  /** Without a state of its own a record is an abstention if flagged so, else unknown exactly by its label. */
  lemma StateMeaning(r: Record)
    ensures r.servingState.Some? ==> StateOf(r) == r.servingState.value
    ensures r.servingState.None? ==>
      && (StateOf(r).Abstain? <==> r.abstained)
      && (StateOf(r).Unknown? <==> !r.abstained && r.intent == "unknown")
      && (StateOf(r).Known? <==> !r.abstained && r.intent != "unknown")
  {
  }

  function LayerKey(): Record -> Layer {
    (r: Record) => r.layer
  }

  function IntentKey(): Record -> string {
    (r: Record) => r.intent
  }

  function InState(state: ServingState): Record -> bool {
    (r: Record) => StateOf(r) == state
  }

  function Is(state: ServingState): ServingState -> bool {
    (s: ServingState) => s == state
  }

  function CountedAbstained(): Record -> bool {
    (r: Record) => StateOf(r).Abstain? || r.abstained
  }

  /** Flagged as abstained under another state, and so counted under both. */
  function CountedTwice(): Record -> bool {
    (r: Record) => r.abstained && !StateOf(r).Abstain?
  }

  function Untracked(tracked: set<string>): Record -> bool {
    (r: Record) => r.intent !in tracked
  }

  function HitIn(layer: Layer): Record -> bool {
    (r: Record) => r.cacheHit && r.layer == layer
  }

  function Ambiguous(): Record -> bool {
    (r: Record) => r.ambiguous
  }

  function TotalCost(records: seq<Record>): real {
    if records == [] then 0.0 else TotalCost(records[..|records| - 1]) + records[|records| - 1].cost
  }

  function Confidences(records: seq<Record>): seq<real> {
    seq(|records|, i requires 0 <= i < |records| => records[i].confidence)
  }

  function Latencies(records: seq<Record>): seq<real> {
    seq(|records|, i requires 0 <= i < |records| => records[i].latency)
  }

  // ------------------------------------------------------------------ tallies

  ghost predicate LayerTally(byLayer: map<Layer, nat>, records: seq<Record>) {
    forall l: Layer :: l in byLayer && byLayer[l] == Count(records, Has(LayerKey(), l))
  }

  /** Every tracked intent has its full count; what is not tracked was dropped, and only because the map is full. */
  ghost predicate IntentTally(byIntent: map<string, nat>, dropped: nat, records: seq<Record>) {
    && (forall i | i in byIntent :: byIntent[i] == Count(records, Has(IntentKey(), i)) > 0)
    && dropped == Count(records, Untracked(byIntent.Keys))
    && |byIntent.Keys| <= 512
    && (dropped > 0 ==> |byIntent.Keys| == 512)
  }

  datatype States = States(known: nat, unknown: nat, abstained: nat, fallback: nat)

  function StateTally(records: seq<Record>, served: seq<ServingState>): States {
    States(
      Count(records, InState(Known)) + Count(served, Is(Known)),
      Count(records, InState(Unknown)) + Count(served, Is(Unknown)),
      Count(records, CountedAbstained()) + Count(served, Is(Abstain)),
      Count(records, InState(SafeFallback)) + Count(served, Is(SafeFallback)))
  }

  datatype Hits = Hits(exact: nat, semantic: nat, ambiguous: nat)

  function HitTally(records: seq<Record>): Hits {
    Hits(Count(records, HitIn(ExactCacheLayer)), Count(records, HitIn(SemanticCacheLayer)), Count(records, Ambiguous()))
  }

  const NONE_BY_LAYER: map<Layer, nat> :=
    map[ExactCacheLayer := 0, SemanticCacheLayer := 0, RulesLayer := 0, EmbeddingLayer := 0,
        StructuredLayer := 0, EscalationLayer := 0, AbstainLayer := 0, SafeFallbackLayer := 0]

  lemma NoneTallied()
    ensures LayerTally(NONE_BY_LAYER, [])
  {
    forall l: Layer ensures l in NONE_BY_LAYER && NONE_BY_LAYER[l] == 0 {
      match l
      case ExactCacheLayer =>
      case SemanticCacheLayer =>
      case RulesLayer =>
      case EmbeddingLayer =>
      case StructuredLayer =>
      case EscalationLayer =>
      case AbstainLayer =>
      case SafeFallbackLayer =>
    }
  }

  lemma LayerPush(byLayer: map<Layer, nat>, records: seq<Record>, r: Record)
    requires LayerTally(byLayer, records)
    ensures LayerTally(byLayer[r.layer := byLayer[r.layer] + 1], records + [r])
  {
    forall l: Layer ensures Count(records + [r], Has(LayerKey(), l))
                         == Count(records, Has(LayerKey(), l)) + if r.layer == l then 1 else 0
    {
      CountPush(records, r, Has(LayerKey(), l));
    }
  }

  function Track(byIntent: map<string, nat>, intent: string): map<string, nat> {
    if intent in byIntent then byIntent[intent := byIntent[intent] + 1]
    else if |byIntent| < MAX_TRACKED_INTENTS then byIntent[intent := 1]
    else byIntent
  }

  lemma IntentCountsPush(before: map<string, nat>, records: seq<Record>, r: Record, after: map<string, nat>)
    requires forall i | i in before :: before[i] == Count(records, Has(IntentKey(), i)) > 0
    requires r.intent !in before && r.intent in after ==> Count(records, Has(IntentKey(), r.intent)) == 0
    requires after == Track(before, r.intent)
    ensures forall i | i in after :: after[i] == Count(records + [r], Has(IntentKey(), i)) > 0
  {
    forall i | i in after ensures after[i] == Count(records + [r], Has(IntentKey(), i)) > 0 {
      CountPush(records, r, Has(IntentKey(), i));
    }
  }

  lemma IntentPush(byIntent: map<string, nat>, dropped: nat, records: seq<Record>, r: Record)
    requires IntentTally(byIntent, dropped, records)
    ensures var after := Track(byIntent, r.intent);
      IntentTally(after, if r.intent in after then dropped else dropped + 1, records + [r])
  {
    assert |byIntent| == |byIntent.Keys|;
    if r.intent !in byIntent && |byIntent| < MAX_TRACKED_INTENTS {
      NewIntent(byIntent, dropped, records, r);
    } else {
      assert Track(byIntent, r.intent).Keys == byIntent.Keys;
      IntentCountsPush(byIntent, records, r, Track(byIntent, r.intent));
      CountPush(records, r, Untracked(byIntent.Keys));
    }
  }

  lemma NewIntent(byIntent: map<string, nat>, dropped: nat, records: seq<Record>, r: Record)
    requires IntentTally(byIntent, dropped, records)
    requires r.intent !in byIntent && |byIntent.Keys| < MAX_TRACKED_INTENTS
    ensures IntentTally(byIntent[r.intent := 1], dropped, records + [r])
  {
    hide Count;
    var after := byIntent[r.intent := 1];
    assert after.Keys == byIntent.Keys + {r.intent};
    NoneDropped(byIntent, dropped, records);
    CountNone(records, Has(IntentKey(), r.intent));
    CountNone(records, Untracked(byIntent.Keys));
    forall x | x in records + [r] ensures !Untracked(after.Keys)(x) {
    }
    CountNone(records + [r], Untracked(after.Keys));
    assert |byIntent| == |byIntent.Keys|;
    IntentCountsPush(byIntent, records, r, after);
  }

  /** While there is room, every intent ever recorded is tracked. */
  lemma NoneDropped(byIntent: map<string, nat>, dropped: nat, records: seq<Record>)
    requires IntentTally(byIntent, dropped, records) && |byIntent.Keys| < MAX_TRACKED_INTENTS
    ensures forall r | r in records :: r.intent in byIntent
  {
    forall r | r in records ensures r.intent in byIntent {
      if r.intent !in byIntent {
        CountOfMember(records, r, Untracked(byIntent.Keys));
      }
    }
  }

  lemma StatePush(records: seq<Record>, served: seq<ServingState>, r: Record)
    ensures var before, after := StateTally(records, served), StateTally(records + [r], served);
      && after.known == before.known + (if StateOf(r).Known? then 1 else 0)
      && after.unknown == before.unknown + (if StateOf(r).Unknown? then 1 else 0)
      && after.abstained == before.abstained + (if StateOf(r).Abstain? || r.abstained then 1 else 0)
      && after.fallback == before.fallback + (if StateOf(r).SafeFallback? then 1 else 0)
  {
    CountPush(records, r, InState(Known));
    CountPush(records, r, InState(Unknown));
    CountPush(records, r, CountedAbstained());
    CountPush(records, r, InState(SafeFallback));
  }

  lemma ServedPush(records: seq<Record>, served: seq<ServingState>, s: ServingState)
    ensures var before, after := StateTally(records, served), StateTally(records, served + [s]);
      && after.known == before.known + (if s.Known? then 1 else 0)
      && after.unknown == before.unknown + (if s.Unknown? then 1 else 0)
      && after.abstained == before.abstained + (if s.Abstain? then 1 else 0)
      && after.fallback == before.fallback + (if s.SafeFallback? then 1 else 0)
  {
    CountPush(served, s, Is(Known));
    CountPush(served, s, Is(Unknown));
    CountPush(served, s, Is(Abstain));
    CountPush(served, s, Is(SafeFallback));
  }

  lemma HitPush(records: seq<Record>, r: Record)
    ensures var before, after := HitTally(records), HitTally(records + [r]);
      && after.exact == before.exact + (if r.cacheHit && r.layer.ExactCacheLayer? then 1 else 0)
      && after.semantic == before.semantic + (if r.cacheHit && r.layer.SemanticCacheLayer? then 1 else 0)
      && after.ambiguous == before.ambiguous + (if r.ambiguous then 1 else 0)
  {
    CountPush(records, r, HitIn(ExactCacheLayer));
    CountPush(records, r, HitIn(SemanticCacheLayer));
    CountPush(records, r, Ambiguous());
  }

  const CONFIDENCE_BUCKETS := [0.1, 0.2, 0.3, 0.4, 0.5, 0.6, 0.7, 0.8, 0.9, 1.0]
  const LATENCY_BUCKETS_MS := [0.5, 1.0, 5.0, 10.0, 25.0, 50.0, 100.0, 250.0, 500.0, 1000.0, 5000.0]

  lemma BucketAtMost(bounds: seq<real>, value: real, i: nat)
    requires NonDecreasing(bounds) && i < |bounds|
    ensures BucketOf(bounds, value) <= i <==> value <= bounds[i]
  {
    BucketIsInterval(bounds, value, BucketOf(bounds, value));
  }

  /** The confidence histogram has tenths, each with its upper edge; nothing lies beyond full confidence. */
  lemma ConfidenceTenths(value: real, i: nat)
    requires i < 10
    ensures BucketOf(CONFIDENCE_BUCKETS, value) <= i <==> value * 10.0 <= (i + 1) as real
    ensures |CONFIDENCE_BUCKETS| == 10
  {
    assert forall j | 0 <= j < 10 :: CONFIDENCE_BUCKETS[j] * 10.0 == (j + 1) as real;
    BucketAtMost(CONFIDENCE_BUCKETS, value, i);
  }

  /** The latency histogram, in milliseconds: half, one, five, ten, and so on up to five seconds. */
  lemma LatencyEdges(value: real, i: nat)
    requires i < 11
    ensures |LATENCY_BUCKETS_MS| == 11
    ensures BucketOf(LATENCY_BUCKETS_MS, value) <= i <==>
      value <= match i case 0 => 0.5 case 1 => 1.0 case 2 => 5.0 case 3 => 10.0 case 4 => 25.0 case 5 => 50.0
                       case 6 => 100.0 case 7 => 250.0 case 8 => 500.0 case 9 => 1000.0 case _ => 5000.0
  {
    BucketAtMost(LATENCY_BUCKETS_MS, value, i);
  }

  class IntentMetrics {
    var byLayer: map<Layer, nat>
    var byIntent: map<string, nat>
    var intentsDropped: nat
    var classifications: nat
    var servingRequests: nat
    var states: States
    var hits: Hits
    var cost: real
    const confidence: Histogram
    const latency: Histogram
    /** Every classification recorded, and every state counted without one. */
    ghost var records: seq<Record>
    ghost var served: seq<ServingState>

    ghost predicate Tallied()
      reads this
    {
      && classifications == |records|
      && servingRequests == |records| + |served|
      && LayerTally(byLayer, records)
      && IntentTally(byIntent, intentsDropped, records)
      && states == StateTally(records, served)
      && hits == HitTally(records)
      && cost == TotalCost(records)
    }

    ghost predicate Distributed(rs: seq<Record>)
      reads confidence, confidence.counts, latency, latency.counts
    {
      && confidence != latency && confidence.counts != latency.counts
      && confidence.Valid() && confidence.bounds == CONFIDENCE_BUCKETS && confidence.seen == Confidences(rs)
      && latency.Valid() && latency.bounds == LATENCY_BUCKETS_MS && latency.seen == Latencies(rs)
    }

    ghost predicate Valid()
      reads this, confidence, confidence.counts, latency, latency.counts
    {
      Tallied() && Distributed(records)
    }

    constructor ()
      ensures Valid() && records == [] && served == []
      ensures fresh(confidence) && fresh(confidence.counts) && fresh(latency) && fresh(latency.counts)
    {
      byLayer := NONE_BY_LAYER;
      byIntent := map[];
      intentsDropped, classifications, servingRequests := 0, 0, 0;
      states, hits, cost := States(0, 0, 0, 0), Hits(0, 0, 0), 0.0;
      confidence := new Histogram(CONFIDENCE_BUCKETS);
      latency := new Histogram(LATENCY_BUCKETS_MS);
      records, served := [], [];
      new;
      hide Count, NONE_BY_LAYER, CONFIDENCE_BUCKETS, LATENCY_BUCKETS_MS;
      NothingRecorded();
      hide Tallied;
    }

    lemma NothingRecorded()
      requires byLayer == NONE_BY_LAYER && byIntent == map[] && records == [] && served == []
      requires intentsDropped == classifications == servingRequests == 0 && cost == 0.0
      requires states == States(0, 0, 0, 0) && hits == Hits(0, 0, 0)
      ensures Tallied()
    {
      NoneTallied();
    }

    method RecordOne(r: Record)
      requires Valid()
      modifies this, confidence, confidence.counts, latency, latency.counts
      ensures Valid() && records == old(records) + [r] && served == old(served)
    {
      hide Tallied, Distributed;
      ObserveBoth(r);
      CountOne(r);
    }

    method CountOne(r: Record)
      requires Tallied()
      modifies this
      ensures Tallied() && records == old(records) + [r] && served == old(served)
    {
      hide LayerTally, IntentTally, StateTally, HitTally, TotalCost;
      classifications, servingRequests := classifications + 1, servingRequests + 1;
      CountLayer(r);
      AddCost(r);
      CountState(r);
      CountFlags(r);
      TrackIntent(r);
      records := records + [r];
    }

    method CountLayer(r: Record)
      requires LayerTally(byLayer, records)
      modifies `byLayer
      ensures LayerTally(byLayer, records + [r])
    {
      LayerPush(byLayer, records, r);
      byLayer := byLayer[r.layer := (if r.layer in byLayer then byLayer[r.layer] else 0) + 1];
    }

    method AddCost(r: Record)
      requires cost == TotalCost(records)
      modifies `cost
      ensures cost == TotalCost(records + [r])
    {
      assert (records + [r])[..|records|] == records;
      cost := cost + r.cost;
    }

    method ObserveBoth(r: Record)
      requires Distributed(records)
      modifies confidence, confidence.counts, latency, latency.counts
      ensures Distributed(records + [r])
    {
      assert Confidences(records + [r]) == Confidences(records) + [r.confidence];
      assert Latencies(records + [r]) == Latencies(records) + [r.latency];
      hide CountsOf;
      confidence.Observe(r.confidence);
      latency.Observe(r.latency);
    }

    method CountState(r: Record)
      requires states == StateTally(records, served)
      modifies `states
      ensures states == StateTally(records + [r], served)
    {
      StatePush(records, served, r);
      hide StateTally;
      match StateOf(r) {
        case Abstain => states := states.(abstained := states.abstained + 1);
        case Unknown => states := states.(unknown := states.unknown + 1);
        case SafeFallback => states := states.(fallback := states.fallback + 1);
        case Known => states := states.(known := states.known + 1);
      }
      if r.abstained && !StateOf(r).Abstain? {
        states := states.(abstained := states.abstained + 1);
      }
    }

    method CountFlags(r: Record)
      requires hits == HitTally(records)
      modifies `hits
      ensures hits == HitTally(records + [r])
    {
      HitPush(records, r);
      hide HitTally;
      if r.ambiguous {
        hits := hits.(ambiguous := hits.ambiguous + 1);
      }
      if r.cacheHit {
        if r.layer.ExactCacheLayer? {
          hits := hits.(exact := hits.exact + 1);
        } else if r.layer.SemanticCacheLayer? {
          hits := hits.(semantic := hits.semantic + 1);
        }
      }
    }

    method TrackIntent(r: Record)
      requires IntentTally(byIntent, intentsDropped, records)
      modifies `byIntent, `intentsDropped
      ensures IntentTally(byIntent, intentsDropped, records + [r])
    {
      IntentPush(byIntent, intentsDropped, records, r);
      hide IntentTally;
      if r.intent in byIntent {
        byIntent := byIntent[r.intent := byIntent[r.intent] + 1];
      } else if |byIntent| < MAX_TRACKED_INTENTS {
        byIntent := byIntent[r.intent := 1];
      } else {
        intentsDropped := intentsDropped + 1;
      }
    }

    /** Count a serving-path result that no classification was recorded for. */
    method RecordServing(state: ServingState)
      requires Valid()
      modifies this
      ensures Valid() && records == old(records) && served == old(served) + [state]
    {
      ServedPush(records, served, state);
      servingRequests := servingRequests + 1;
      match state {
        case Known => states := states.(known := states.known + 1);
        case Unknown => states := states.(unknown := states.unknown + 1);
        case Abstain => states := states.(abstained := states.abstained + 1);
        case SafeFallback => states := states.(fallback := states.fallback + 1);
      }
      served := served + [state];
    }
  }

  // ------------------------------------------------------------------- totals

  function SumOver<K>(m: map<K, nat>, keys: seq<K>): nat
    requires forall k | k in keys :: k in m
  {
    if keys == [] then 0 else m[keys[0]] + SumOver(m, keys[1..])
  }

  lemma {:induction false} SumIsSpread<K>(m: map<K, nat>, keys: seq<K>, records: seq<Record>, key: Record -> K)
    requires forall k | k in keys :: k in m && m[k] == Count(records, Has(key, k))
    ensures SumOver(m, keys) == Spread(keys, records, Any(), key)
  {
    if keys != [] {
      CountAgree(records, Has(key, keys[0]), Both(Any(), Has(key, keys[0])));
      SumIsSpread(m, keys[1..], records, key);
    }
  }

  /** Every classification came from one layer. */
  lemma LayersAddUp(byLayer: map<Layer, nat>, layers: seq<Layer>, records: seq<Record>)
    requires LayerTally(byLayer, records)
    requires Distinct(layers) && forall l: Layer :: l in layers
    ensures SumOver(byLayer, layers) == |records|
  {
    SumIsSpread(byLayer, layers, records, LayerKey());
    SpreadIsCount(layers, records, Any(), LayerKey(), Any());
    CountAny(records);
  }

  lemma {:induction false} CountSplits(records: seq<Record>, tracked: set<string>)
    ensures Count(records, Tracked(tracked)) + Count(records, Untracked(tracked)) == |records|
  {
    if records != [] {
      CountSplits(records[..|records| - 1], tracked);
    }
  }

  function Tracked(tracked: set<string>): Record -> bool {
    (r: Record) => r.intent in tracked
  }

  /** Every classification is either in its intent's count or among the dropped. */
  lemma IntentsAddUp(byIntent: map<string, nat>, dropped: nat, intents: seq<string>, records: seq<Record>)
    requires IntentTally(byIntent, dropped, records)
    requires Distinct(intents) && forall i :: i in intents <==> i in byIntent
    ensures SumOver(byIntent, intents) + dropped == |records|
  {
    SumIsSpread(byIntent, intents, records, IntentKey());
    SpreadIsCount(intents, records, Any(), IntentKey(), Tracked(byIntent.Keys));
    CountSplits(records, byIntent.Keys);
  }

  lemma {:induction false} RecordedStates(records: seq<Record>)
    ensures Count(records, InState(Known)) + Count(records, InState(Unknown))
          + Count(records, CountedAbstained()) + Count(records, InState(SafeFallback))
         == |records| + Count(records, CountedTwice())
  {
    if records != [] {
      RecordedStates(records[..|records| - 1]);
    }
  }

  lemma {:induction false} ServedStates(served: seq<ServingState>)
    ensures Count(served, Is(Known)) + Count(served, Is(Unknown))
          + Count(served, Is(Abstain)) + Count(served, Is(SafeFallback)) == |served|
  {
    if served != [] {
      ServedStates(served[..|served| - 1]);
    }
  }

  /** The four states add up to the serving requests exactly when no record was abstained under another state. */
  lemma StatesAddUp(records: seq<Record>, served: seq<ServingState>)
    ensures var t := StateTally(records, served);
      t.known + t.unknown + t.abstained + t.fallback == |records| + |served| <==>
      (forall r | r in records :: r.abstained ==> StateOf(r).Abstain?)
  {
    RecordedStates(records);
    ServedStates(served);
    if forall r | r in records :: r.abstained ==> StateOf(r).Abstain? {
      CountNone(records, CountedTwice());
    } else {
      var r :| r in records && r.abstained && !StateOf(r).Abstain?;
      CountOfMember(records, r, CountedTwice());
    }
  }

  /** What the cascade records for a classification. */
  function RecordOf(c: IntentClassification, ambiguous: bool, latency: real, cost: real): Record {
    Record(c.layer, c.intent, c.confidence, c.abstain, ambiguous, latency, cost, c.cacheHit, Some(c.state))
  }

  ghost predicate FromClassification(r: Record) {
    exists c: IntentClassification :: r == RecordOf(c, r.ambiguous, r.latency, r.cost)
  }

  /** A valid classification is never flagged as abstained under another state, so the cascade's counters add up. */
  lemma ClassificationsAddUp(records: seq<Record>, served: seq<ServingState>)
    requires forall r | r in records :: FromClassification(r)
    ensures var t := StateTally(records, served);
      t.known + t.unknown + t.abstained + t.fallback == |records| + |served|
  {
    hide StateTally;
    StatesAddUp(records, served);
    forall r | r in records ensures r.abstained ==> StateOf(r).Abstain? {
      assert FromClassification(r);
    }
  }

  /** What a snapshot of the counters may be relied on for. */
  lemma SnapshotAddsUp(m: IntentMetrics, layers: seq<Layer>, intents: seq<string>)
    requires m.Valid()
    requires Distinct(layers) && forall l: Layer :: l in layers
    requires Distinct(intents) && forall i :: i in intents <==> i in m.byIntent
    ensures (forall l | l in layers :: l in m.byLayer) && SumOver(m.byLayer, layers) == m.classifications
    ensures SumOver(m.byIntent, intents) + m.intentsDropped == m.classifications
    ensures Total(m.confidence.counts[..]) == Total(m.latency.counts[..]) == m.classifications
    ensures (forall r | r in m.records :: FromClassification(r)) ==>
      m.states.known + m.states.unknown + m.states.abstained + m.states.fallback == m.servingRequests
  {
    LayersAddUp(m.byLayer, layers, m.records);
    IntentsAddUp(m.byIntent, m.intentsDropped, intents, m.records);
    BucketsAddUp(m.confidence.counts[..], m.confidence.bounds, m.confidence.seen);
    BucketsAddUp(m.latency.counts[..], m.latency.bounds, m.latency.seen);
    hide CountsOf, IntentTally, HitTally, SumOver, Total, FromClassification, StateTally;
    if forall r | r in m.records :: FromClassification(r) {
      ClassificationsAddUp(m.records, m.served);
    }
  }

  // --------------------------------------------------------------- percentile

  datatype ValueError = ValueError

  function AtMost(v: real): real -> bool {
    (x: real) => x <= v
  }

  function LessThan(v: real): real -> bool {
    (x: real) => x < v
  }

  function Ascending(): (real, real) -> bool {
    (x: real, y: real) => x <= y
  }

  lemma SortedValues(values: seq<real>)
    ensures var ordered := Sort(Ascending(), values);
      NonDecreasing(ordered) && multiset(ordered) == multiset(values) && |ordered| == |values|
  {
    var ordered := Sort(Ascending(), values);
    SortSorted(Ascending(), values);
    SortMembers(Ascending(), values);
    forall i, j | 0 <= i < j < |ordered| ensures ordered[i] <= ordered[j] {
      assert Ascending()(ordered[i], ordered[j]);
    }
  }

  lemma CountBetween(before: seq<real>, x: real, after: seq<real>, p: real -> bool)
    ensures Count(before + [x] + after, p) == Count(before + after, p) + if p(x) then 1 else 0
  {
    hide Count;
    CountConcat(before + [x], after, p);
    CountPush(before, x, p);
    CountConcat(before, after, p);
  }

  lemma Splice(t: seq<real>, i: nat)
    requires i < |t|
    ensures t == t[..i] + [t[i]] + t[i + 1..]
  {
  }

  lemma CountWithout(t: seq<real>, i: nat, p: real -> bool)
    requires i < |t|
    ensures Count(t, p) == Count(t[..i] + t[i + 1..], p) + if p(t[i]) then 1 else 0
  {
    hide Count;
    Splice(t, i);
    CountBetween(t[..i], t[i], t[i + 1..], p);
  }

  lemma MultisetWithout(t: seq<real>, i: nat)
    requires i < |t|
    ensures multiset(t) == multiset(t[..i] + t[i + 1..]) + multiset{t[i]}
  {
    Splice(t, i);
  }

  lemma {:induction false} CountPermuted(s: seq<real>, t: seq<real>, p: real -> bool)
    requires multiset(s) == multiset(t)
    ensures Count(s, p) == Count(t, p)
  {
    if s == [] {
      assert |multiset(t)| == 0;
    } else {
      var front, x := s[..|s| - 1], s[|s| - 1];
      assert s == front + [x];
      assert x in multiset(t);
      var i :| 0 <= i < |t| && t[i] == x;
      CountWithout(t, i, p);
      MultisetWithout(t, i);
      var rest := multiset(t[..i] + t[i + 1..]);
      assert multiset(front) == multiset(front) + multiset{x} - multiset{x} == rest + multiset{x} - multiset{x} == rest;
      CountPermuted(front, t[..i] + t[i + 1..], p);
    }
  }

  lemma {:induction false} CountConcat(s: seq<real>, t: seq<real>, p: real -> bool)
    ensures Count(s + t, p) == Count(s, p) + Count(t, p)
  {
    if t == [] {
      assert s + t == s;
    } else {
      CountConcat(s, t[..|t| - 1], p);
      assert (s + t)[..|s + t| - 1] == s + t[..|t| - 1];
    }
  }

  /** A predicate that only holds before position `k`, and one that holds at all of those. */
  lemma {:induction false} CountAround(s: seq<real>, k: nat, p: real -> bool)
    requires k <= |s|
    ensures (forall i | k <= i < |s| :: !p(s[i])) ==> Count(s, p) <= k
    ensures (forall i | 0 <= i < k :: p(s[i])) ==> Count(s, p) >= k
  {
    CountConcat(s[..k], s[k..], p);
    assert s == s[..k] + s[k..];
    if forall i | k <= i < |s| :: !p(s[i]) {
      CountNone(s[k..], p);
    }
    if forall i | 0 <= i < k :: p(s[i]) {
      CountAgree(s[..k], p, Any());
      CountAny(s[..k]);
    }
  }

  function Ceil(x: real): int {
    -(-x).Floor
  }

  /** The rank of a fraction of `n` values, counted from one. */
  function Rank(fraction: real, n: nat): (k: nat)
    requires 0.0 < fraction <= 1.0 && n > 0
    ensures 1 <= k <= n
    ensures (k - 1) as real < fraction * n as real <= k as real
  {
    var product := fraction * n as real;
    assert 0.0 < product <= n as real;
    var ceiling := Ceil(product);
    assert (ceiling - 1) as real < product <= ceiling as real;
    var rank := if ceiling < 1 then 1 else ceiling;
    if rank < n then rank else n
  }

  /** A recorded value that at least the fraction of the values do not exceed, while fewer stay below it. */
  predicate NearestRank(values: seq<real>, fraction: real, v: real) {
    && v in values
    && Count(values, AtMost(v)) as real >= fraction * |values| as real > Count(values, LessThan(v)) as real
  }

  lemma RankCounts(values: seq<real>, ordered: seq<real>, rank: nat)
    requires NonDecreasing(ordered) && multiset(ordered) == multiset(values) && 1 <= rank <= |ordered|
    ensures var v := ordered[rank - 1];
      v in values && Count(values, AtMost(v)) >= rank && Count(values, LessThan(v)) <= rank - 1
  {
    var v := ordered[rank - 1];
    assert v in multiset(ordered);
    CountAround(ordered, rank, AtMost(v));
    CountAround(ordered, rank - 1, LessThan(v));
    CountPermuted(ordered, values, AtMost(v));
    CountPermuted(ordered, values, LessThan(v));
  }

  lemma RankIsNearest(values: seq<real>, ordered: seq<real>, fraction: real)
    requires NonDecreasing(ordered) && multiset(ordered) == multiset(values) && |ordered| == |values| > 0
    requires 0.0 < fraction <= 1.0
    ensures NearestRank(values, fraction, ordered[Rank(fraction, |ordered|) - 1])
  {
    hide NonDecreasing, Count;
    RankCounts(values, ordered, Rank(fraction, |ordered|));
  }

  /** The nearest-rank percentile, if there is anything to rank. */
  method Percentile(values: seq<real>, fraction: real) returns (r: Result<Option<real>, ValueError>)
    ensures values == [] ==> r == Success(None)
    ensures values != [] ==> (r.Failure? <==> !(0.0 < fraction <= 1.0))
    ensures values != [] && r.Success? ==> r.value.Some? && NearestRank(values, fraction, r.value.value)
  {
    if values == [] {
      return Success(None);
    }
    if !(0.0 < fraction <= 1.0) {
      return Failure(ValueError);
    }
    hide NearestRank, NonDecreasing, Sort;
    var ordered := Sort(Ascending(), values);
    SortedValues(values);
    RankIsNearest(values, ordered, fraction);
    return Success(Some(ordered[Rank(fraction, |ordered|) - 1]));
  }
}
