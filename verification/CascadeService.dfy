/**
  The cascade with its two caches. Whatever requests are classified in whatever order, and whatever
  the caches lose in between, every cached answer is the layers' own answer to an earlier request.
 */
module CascadeService {
  import opened Wrappers
  import opened IntentSchema
  import opened SemanticCache
  import opened Cascade
  import opened CascadeLayers

  datatype ValueError = ValueError

  /** The exact cache's key: tenant, normalised prompt and discriminators. */
  datatype ExactKey = ExactKey(tenant: string, prompt: string, discriminators: Discriminators)

  function PromptKey(p: Pipeline, r: Request): string {
    p.normalise(r.prompt.text)
  }

  function ExactKeyOf(p: Pipeline, tenant: string, r: Request): ExactKey {
    ExactKey(tenant, PromptKey(p, r), DiscriminatorsOf(p, r))
  }

  function PartitionOf(p: Pipeline, tenant: string, r: Request): Partition {
    Partition(tenant, DiscriminatorsOf(p, r))
  }

  /**
    The keys tell apart whatever they should: two requests share an exact entry only within one tenant, for
    one normalised prompt, in one language, policy version and conversation, and under one version of
    taxonomy and classifier; and they share a partition of the semantic cache for all of these but the prompt.
   */
  lemma KeysExact(p: Pipeline, tenant: string, r: Request, q: Pipeline, other: string, s: Request)
    ensures PartitionOf(p, tenant, r) == PartitionOf(q, other, s) <==>
      && tenant == other
      && p.taxonomyVersion == q.taxonomyVersion && p.classifierVersion == q.classifierVersion
      && r.prompt.language == s.prompt.language && r.prompt.policyVersion == s.prompt.policyVersion
      && r.prompt.conversation == s.prompt.conversation
    ensures ExactKeyOf(p, tenant, r) == ExactKeyOf(q, other, s) <==>
      PartitionOf(p, tenant, r) == PartitionOf(q, other, s) && p.normalise(r.prompt.text) == q.normalise(s.prompt.text)
    ensures PartitionOf(p, tenant, r).discriminators == ExactKeyOf(p, tenant, r).discriminators
         == Discriminators(p.taxonomyVersion, p.classifierVersion, r.prompt.policyVersion, r.prompt.language,
                           r.prompt.conversation)
  {
  }

  /** Which cache operations fail during one call; a failed read is a miss, a failed write is dropped. */
  datatype Faults = Faults(exactRead: bool, exactWrite: bool, semanticRead: bool, semanticWrite: bool)

  /** A cached answer as served: intent and confidence are kept, provenance is this request's. */
  function Served(c: IntentClassification, layer: Layer): IntentClassification {
    c.(layer := layer, cacheHit := true, cost := 0.0)
  }

  predicate SameAnswer(a: IntentClassification, b: IntentClassification) {
    a.intent == b.intent && a.confidence == b.confidence && a.alternatives == b.alternatives
    && a.state == b.state && a.abstain == b.abstain
  }

  /** Who asked what, and when. */
  type Asked = set<(string, Request, real)>

  /** `c` is what the layers answer to `r`, which this tenant asked at that time, and it is worth caching. */
  ghost predicate AnswerTo(p: Pipeline, asked: Asked, tenant: string, r: Request, at: real, c: IntentClassification) {
    (tenant, r, at) in asked && c == Cold(p, r).classification && c.state.Known?
  }

  ghost predicate ExactEntryBacked(p: Pipeline, asked: Asked, key: ExactKey, c: IntentClassification) {
    exists r, at :: AnswerTo(p, asked, key.tenant, r, at, c) && ExactKeyOf(p, key.tenant, r) == key
  }

  /** A semantic entry expires so long after its request was asked. */
  ghost predicate SemanticEntryBacked(p: Pipeline, ttl: real, asked: Asked, partition: Partition, e: Entry) {
    exists r, at :: AnswerTo(p, asked, partition.tenant, r, at, e.classification)
      && PartitionOf(p, partition.tenant, r) == partition && VectorOf(p, r) == Some(e.vector)
      && e.expiresAt == at + ttl
  }

  /** An answer may stand in either cache under its own request's keys. */
  lemma AnswerBacksExact(p: Pipeline, asked: Asked, tenant: string, r: Request, at: real, c: IntentClassification)
    requires AnswerTo(p, asked, tenant, r, at, c)
    ensures ExactEntryBacked(p, asked, ExactKeyOf(p, tenant, r), c)
  {
  }

  lemma AnswerBacksSemantic(
      p: Pipeline, ttl: real, asked: Asked, tenant: string, r: Request, at: real, e: Entry)
    requires AnswerTo(p, asked, tenant, r, at, e.classification) && VectorOf(p, r) == Some(e.vector)
    requires e.expiresAt == at + ttl
    ensures SemanticEntryBacked(p, ttl, asked, PartitionOf(p, tenant, r), e)
  {
  }

  ghost predicate ExactBacked(p: Pipeline, asked: Asked, exact: map<ExactKey, IntentClassification>) {
    forall k | k in exact :: ExactEntryBacked(p, asked, k, exact[k])
  }

  ghost predicate SemanticBacked(p: Pipeline, ttl: real, asked: Asked, store: map<Partition, Index>) {
    forall q, k | q in store && k in store[q].entries :: SemanticEntryBacked(p, ttl, asked, q, store[q].entries[k])
  }

  // ---------------------------------------------------- the invariant's steps

  lemma ExactBackedMore(p: Pipeline, asked: Asked, more: Asked, exact: map<ExactKey, IntentClassification>)
    requires ExactBacked(p, asked, exact) && asked <= more
    ensures ExactBacked(p, more, exact)
  {
    hide Cold, ExactKeyOf;
    forall k | k in exact ensures ExactEntryBacked(p, more, k, exact[k]) {
      var r, at :| AnswerTo(p, asked, k.tenant, r, at, exact[k]) && ExactKeyOf(p, k.tenant, r) == k;
      assert AnswerTo(p, more, k.tenant, r, at, exact[k]);
    }
  }

  lemma SemanticBackedMore(p: Pipeline, ttl: real, asked: Asked, more: Asked, store: map<Partition, Index>)
    requires SemanticBacked(p, ttl, asked, store) && asked <= more
    ensures SemanticBacked(p, ttl, more, store)
  {
    hide Cold, PartitionOf, VectorOf;
    forall q, k | q in store && k in store[q].entries
      ensures SemanticEntryBacked(p, ttl, more, q, store[q].entries[k])
    {
      var e := store[q].entries[k];
      var r, at :| AnswerTo(p, asked, q.tenant, r, at, e.classification)
        && PartitionOf(p, q.tenant, r) == q && VectorOf(p, r) == Some(e.vector) && e.expiresAt == at + ttl;
      assert AnswerTo(p, more, q.tenant, r, at, e.classification);
    }
  }

  lemma SemanticBackedPurge(
      p: Pipeline, ttl: real, asked: Asked, store: map<Partition, Index>, q: Partition, now: real)
    requires SemanticBacked(p, ttl, asked, store) && q in store
    ensures SemanticBacked(p, ttl, asked, store[q := Purged(store[q], now)])
  {
    hide SemanticEntryBacked;
    assert forall k | k in Purged(store[q], now).entries ::
      k in store[q].entries && Purged(store[q], now).entries[k] == store[q].entries[k];
  }

  lemma SemanticBackedAdmit(
      p: Pipeline, ttl: real, asked: Asked, store: map<Partition, Index>, q: Partition, key: string, e: Entry,
      capacity: nat)
    requires SemanticBacked(p, ttl, asked, store) && SemanticEntryBacked(p, ttl, asked, q, e)
    requires capacity > 0 && (q in store ==> WellFormed(store[q]) && |store[q].order| <= capacity)
    ensures SemanticBacked(
      p, ttl, asked, store[q := Inserted(if q in store then store[q] else EMPTY, key, e, capacity)])
  {
    hide SemanticEntryBacked, Inserted;
    var index := if q in store then store[q] else EMPTY;
    InsertedMeaning(index, key, e, capacity);
    var grown := Inserted(index, key, e, capacity);
    forall k | k in grown.entries ensures SemanticEntryBacked(p, ttl, asked, q, grown.entries[k]) {
      assert k in grown.order;
    }
  }

  // ------------------------------------------------------------------ service

  class IntentCascade {
    const pipeline: Pipeline
    const semantic: SemanticIntentCache?
    var exact: map<ExactKey, IntentClassification>
    /** Every request classified so far, by tenant and time. */
    ghost var asked: Asked

    constructor (pipeline: Pipeline, semantic: SemanticIntentCache?)
      requires semantic != null ==> pipeline.embedding.Some? && semantic.Valid() && semantic.store == map[]
      ensures Valid() && this.pipeline == pipeline && this.semantic == semantic && exact == map[] && asked == {}
    {
      this.pipeline, this.semantic := pipeline, semantic;
      exact, asked := map[], {};
    }

    /** The semantic cache needs an embedding layer to vectorise prompts. */
    static method Create(pipeline: Pipeline, policy: Option<CachePolicy>, similarity: Similarity)
      returns (r: Result<IntentCascade, ValueError>)
      ensures r.Failure? <==> policy.Some? && pipeline.embedding.None?
      ensures r.Success? ==>
        && fresh(r.value) && r.value.Valid() && r.value.pipeline == pipeline && r.value.exact == map[]
        && (r.value.semantic != null <==> policy.Some?)
    {
      if policy.None? {
        var cascade := new IntentCascade(pipeline, null);
        return Success(cascade);
      }
      if pipeline.embedding.None? {
        return Failure(ValueError);
      }
      var cache := new SemanticIntentCache(policy.value, similarity);
      var cascade := new IntentCascade(pipeline, cache);
      return Success(cascade);
    }

    ghost predicate Valid()
      reads this, semantic
    {
      && ExactBacked(pipeline, asked, exact)
      && (semantic != null ==>
            pipeline.embedding.Some? && semantic.Valid()
            && SemanticBacked(pipeline, semantic.policy.ttl, asked, semantic.store))
    }

    /** An exact hit: the layers' answer to an earlier request of this tenant with the same key. */
    ghost predicate ExactHit(before: Asked, tenant: string, r: Request, c: IntentClassification)
    {
      exists r0, at :: (tenant, r0, at) in before
        && ExactKeyOf(pipeline, tenant, r0) == ExactKeyOf(pipeline, tenant, r)
        && SameAnswer(c, Cold(pipeline, r0).classification)
    }

    /**
      A semantic hit: the same for an earlier request that is similar and confident enough, and was asked
      less than the time to live ago.
     */
    ghost predicate SemanticHit(before: Asked, tenant: string, r: Request, now: real, c: IntentClassification)
    {
      semantic != null && VectorOf(pipeline, r).Some? &&
      exists r0, at :: (tenant, r0, at) in before && now < at + semantic.policy.ttl
        && DiscriminatorsOf(pipeline, r0) == DiscriminatorsOf(pipeline, r)
        && VectorOf(pipeline, r0).Some?
        && semantic.similarity(VectorOf(pipeline, r).value, VectorOf(pipeline, r0).value) >= semantic.policy.similarity
        && c.confidence >= semantic.policy.confidence
        && c.confidence >= pipeline.thresholds.semanticCache
        && SameAnswer(c, Cold(pipeline, r0).classification)
    }

    function SemanticStore(): map<Partition, Index>
      reads semantic
    {
      if semantic == null then map[] else semantic.store
    }

    /** The semantic layer runs only with a semantic cache and a vector for the prompt. */
    predicate Searchable(r: Request) {
      semantic != null && VectorOf(pipeline, r).Some?
    }

    /** The recorded attempt of the semantic layer, given what the cache found. */
    function SemanticAttempt(best: Option<Match>): Attempt {
      var threshold := pipeline.thresholds.semanticCache;
      match best
      case None => Attempt(SemanticCacheLayer, None, 0.0, threshold, false, 0.0)
      case Some(m) =>
        Attempt(SemanticCacheLayer, Some(m.entry.classification.intent), m.entry.classification.confidence,
                threshold, m.entry.classification.confidence >= threshold, 0.0)
    }

    /** What the cache may find in this store: a nearest usable live neighbour, if there is one. */
    ghost predicate Finds(
        store: map<Partition, Index>, tenant: string, r: Request, now: real, readable: bool, best: Option<Match>)
      requires Searchable(r)
    {
      var q := PartitionOf(pipeline, tenant, r);
      if readable && q in store
      then Answers(semantic.policy, semantic.similarity, VectorOf(pipeline, r).value, Live(store[q], now), best)
      else best.None?
    }

    /** The semantic layer serves what was found if it meets the layer's own threshold. */
    ghost predicate Searched(
        store: map<Partition, Index>, tenant: string, r: Request, now: real, readable: bool,
        found: Option<IntentClassification>, searched: Option<Attempt>)
    {
      if !Searchable(r) then found.None? && searched.None?
      else
        exists best :: Finds(store, tenant, r, now, readable, best)
          && searched == Some(SemanticAttempt(best))
          && found == if best.Some? && best.value.entry.classification.confidence >= pipeline.thresholds.semanticCache
                      then Some(best.value.entry.classification) else None
    }

    /** A search leaves the expired entries of its partition behind. */
    function StoreSearched(
        store: map<Partition, Index>, tenant: string, r: Request, now: real, readable: bool): map<Partition, Index>
    {
      var q := PartitionOf(pipeline, tenant, r);
      if Searchable(r) && readable && q in store then store[q := Purged(store[q], now)] else store
    }

    /** A known answer that is confident enough to serve to others is inserted into its partition. */
    function StoreAdmitted(
        store: map<Partition, Index>, tenant: string, r: Request, c: IntentClassification, now: real, writable: bool)
      : map<Partition, Index>
    {
      var q := PartitionOf(pipeline, tenant, r);
      if Searchable(r) && writable && c.state.Known? && c.confidence >= semantic.policy.confidence
      then store[q := Inserted(
                   if q in store then store[q] else EMPTY, PromptKey(pipeline, r),
                   Entry(r.prompt.text, VectorOf(pipeline, r).value, c, now + semantic.policy.ttl),
                   semantic.policy.capacity)]
      else store
    }

    /** The miss of the exact cache, followed by the attempt of the semantic layer. */
    function Misses(searched: Option<Attempt>): seq<Attempt> {
      [Attempt(ExactCacheLayer, None, 0.0, 0.0, false, 0.0)] + if searched.Some? then [searched.value] else []
    }

    /** A decision that some cache, or else the layers, may give in this state; nothing else is possible. */
    ghost predicate Decides(
        exact0: map<ExactKey, IntentClassification>, store: map<Partition, Index>,
        tenant: string, r: Request, now: real, faults: Faults, d: Decision)
    {
      var key := ExactKeyOf(pipeline, tenant, r);
      if !faults.exactRead && key in exact0 then
        d == Decision(Served(exact0[key], ExactCacheLayer),
                      [Attempt(ExactCacheLayer, Some(exact0[key].intent), exact0[key].confidence, 0.0, true, 0.0)])
      else
        exists found, searched :: Searched(store, tenant, r, now, !faults.semanticRead, found, searched)
          && d == if found.Some? then Decision(Served(found.value, SemanticCacheLayer), Misses(searched))
                  else Decision(Cold(pipeline, r).classification, Misses(searched) + Cold(pipeline, r).attempts)
    }

    /** The embedder gives no vector for the text the layers would see. */
    ghost predicate Unsearchable(r: Request) {
      semantic == null || pipeline.embedding.None?
      || pipeline.embedding.value.embed(pipeline.bound(r.prompt.text)) in {None, Some([])}
    }

    /**
      What the attempts and the cost of a decision record: first the exact cache, accepted on its hit;
      then the semantic cache, if it could be searched, accepted on its hit; then the layers, if neither
      hit. A hit costs nothing, and without a vector the semantic cache takes no part at all.
     */
    lemma DecisionRecorded(
        exact0: map<ExactKey, IntentClassification>, store: map<Partition, Index>,
        tenant: string, r: Request, now: real, faults: Faults, d: Decision)
      requires semantic != null ==> pipeline.embedding.Some?
      requires Decides(exact0, store, tenant, r, now, faults, d)
      ensures d.attempts != [] && d.attempts[0].layer == ExactCacheLayer && d.attempts[0].cost == 0.0
      ensures d.attempts[0].accepted <==> !faults.exactRead && ExactKeyOf(pipeline, tenant, r) in exact0
      ensures d.attempts[0].accepted ==>
        |d.attempts| == 1 && d.classification.layer == ExactCacheLayer && d.classification.cost == 0.0
      ensures !d.attempts[0].accepted ==> d.attempts[0] == Attempt(ExactCacheLayer, None, 0.0, 0.0, false, 0.0)
      ensures !d.attempts[0].accepted && !Unsearchable(r) ==>
        && |d.attempts| > 1 && d.attempts[1].layer == SemanticCacheLayer && d.attempts[1].cost == 0.0
        && d.attempts[1].threshold == pipeline.thresholds.semanticCache
        && (d.attempts[1].intent.None? ==> d.attempts[1].confidence == 0.0)
        && (if d.attempts[1].accepted
            then |d.attempts| == 2 && d.classification.layer == SemanticCacheLayer && d.classification.cost == 0.0
                 && d.classification.confidence == d.attempts[1].confidence >= d.attempts[1].threshold
                 && d.attempts[1].intent == Some(d.classification.intent)
            else d.classification == Cold(pipeline, r).classification
                 && d.attempts[2..] == Cold(pipeline, r).attempts)
      ensures !d.attempts[0].accepted && Unsearchable(r) ==>
        d.classification == Cold(pipeline, r).classification && d.attempts[1..] == Cold(pipeline, r).attempts
    {
      hide Cold, Finds, SemanticAttempt;
      if faults.exactRead || ExactKeyOf(pipeline, tenant, r) !in exact0 {
        var found, searched :| Searched(store, tenant, r, now, !faults.semanticRead, found, searched)
          && d == if found.Some? then Decision(Served(found.value, SemanticCacheLayer), Misses(searched))
                  else Decision(Cold(pipeline, r).classification, Misses(searched) + Cold(pipeline, r).attempts);
        SearchRecorded(store, tenant, r, now, !faults.semanticRead, found, searched);
        hide Searched, Unsearchable;
      }
    }

    lemma SearchRecorded(
        store: map<Partition, Index>, tenant: string, r: Request, now: real, readable: bool,
        found: Option<IntentClassification>, searched: Option<Attempt>)
      requires (semantic != null ==> pipeline.embedding.Some?)
      requires Searched(store, tenant, r, now, readable, found, searched)
      ensures searched.None? <==> Unsearchable(r)
      ensures searched.None? ==> found.None?
      ensures searched.Some? ==>
        var a := searched.value;
        && a.layer == SemanticCacheLayer && a.cost == 0.0 && a.threshold == pipeline.thresholds.semanticCache
        && (a.accepted <==> found.Some?) && (a.intent.None? ==> a.confidence == 0.0)
        && (found.Some? ==>
              a.confidence == found.value.confidence >= a.threshold && a.intent == Some(found.value.intent))
    {
      hide Finds;
      assert Searchable(r) <==> !Unsearchable(r);
      if Searchable(r) {
        var best :| Finds(store, tenant, r, now, readable, best)
          && searched == Some(SemanticAttempt(best))
          && found == if best.Some? && best.value.entry.classification.confidence >= pipeline.thresholds.semanticCache
                      then Some(best.value.entry.classification) else None;
      }
    }

    /** Such a request neither searches nor fills the semantic cache. */
    lemma UnsearchableLeavesStore(
        store: map<Partition, Index>, tenant: string, r: Request, c: IntentClassification, now: real, up: bool)
      requires (semantic != null ==> pipeline.embedding.Some?) && Unsearchable(r)
      ensures StoreSearched(store, tenant, r, now, up) == store && StoreAdmitted(store, tenant, r, c, now, up) == store
    {
    }

    method Classify(tenant: string, r: Request, now: real, faults: Faults) returns (d: Decision)
      requires Valid()
      modifies this, semantic
      ensures Valid()
      ensures asked == old(asked) + {(tenant, r, now)}
      ensures Decides(old(exact), old(SemanticStore()), tenant, r, now, faults, d)
      ensures d.classification.layer == ExactCacheLayer <==>
        ExactKeyOf(pipeline, tenant, r) in old(exact) && !faults.exactRead
      ensures d.classification.layer == ExactCacheLayer ==> ExactHit(old(asked), tenant, r, d.classification)
      ensures d.classification.layer == SemanticCacheLayer ==> SemanticHit(old(asked), tenant, r, now, d.classification)
      ensures d.classification.cacheHit <==> d.classification.layer in {ExactCacheLayer, SemanticCacheLayer}
      ensures d.classification.cacheHit ==> d.classification.state.Known? && !d.classification.abstain
      ensures exact == if !d.classification.cacheHit && d.classification.state.Known? && !faults.exactWrite
                       then old(exact)[ExactKeyOf(pipeline, tenant, r) := d.classification] else old(exact)
      ensures var searched := if d.classification.layer == ExactCacheLayer then old(SemanticStore())
                              else StoreSearched(old(SemanticStore()), tenant, r, now, !faults.semanticRead);
        SemanticStore() == if d.classification.cacheHit then searched
                           else StoreAdmitted(searched, tenant, r, d.classification, now, !faults.semanticWrite)
    {
      hide Cold, ExactBacked, SemanticBacked, Searched, StoreSearched;
      ghost var before := asked;
      asked := asked + {(tenant, r, now)};
      AskOneMore(before);
      var key := ExactKeyOf(pipeline, tenant, r);
      if !faults.exactRead && key in exact {
        ExactFound(before, tenant, r);
        var cached := exact[key];
        return Decision(Served(cached, ExactCacheLayer),
                        [Attempt(ExactCacheLayer, Some(cached.intent), cached.confidence, 0.0, true, 0.0)]);
      }
      var found, searched := SearchSemantic(before, tenant, r, now, faults);
      if found.Some? {
        return Decision(Served(found.value, SemanticCacheLayer), Misses(searched));
      }
      d := RunLayers(pipeline, r);
      ColdIsUncached(pipeline, r);
      if d.classification.state.Known? {
        Remember(tenant, r, d.classification, now, faults);
      }
      d := d.(attempts := Misses(searched) + d.attempts);
    }

    /** What was asked only grows, so the cached answers stay backed. */
    ghost method AskOneMore(before: Asked)
      requires ExactBacked(pipeline, before, exact) && before <= asked
      requires semantic != null ==>
        pipeline.embedding.Some? && semantic.Valid()
        && SemanticBacked(pipeline, semantic.policy.ttl, before, semantic.store)
      ensures Valid()
    {
      ExactBackedMore(pipeline, before, asked, exact);
      if semantic != null {
        SemanticBackedMore(pipeline, semantic.policy.ttl, before, asked, semantic.store);
      }
    }

    lemma ExactFound(before: Asked, tenant: string, r: Request)
      requires ExactBacked(pipeline, before, exact) && ExactKeyOf(pipeline, tenant, r) in exact
      ensures var c := exact[ExactKeyOf(pipeline, tenant, r)];
        c.state.Known? && !c.abstain && ExactHit(before, tenant, r, Served(c, ExactCacheLayer))
    {
      hide Cold;
      var key := ExactKeyOf(pipeline, tenant, r);
      assert ExactEntryBacked(pipeline, before, key, exact[key]);
      var r0, at :| AnswerTo(pipeline, before, tenant, r0, at, exact[key]) && ExactKeyOf(pipeline, tenant, r0) == key;
      assert SameAnswer(Served(exact[key], ExactCacheLayer), Cold(pipeline, r0).classification);
    }

    /** The semantic layer: a neighbour that also meets the layer's own threshold is served. */
    method SearchSemantic(ghost before: Asked, tenant: string, r: Request, now: real, faults: Faults)
      returns (found: Option<IntentClassification>, searched: Option<Attempt>)
      requires Valid() && (semantic != null ==> SemanticBacked(pipeline, semantic.policy.ttl, before, semantic.store))
      modifies semantic
      ensures Valid()
      ensures Searched(old(SemanticStore()), tenant, r, now, !faults.semanticRead, found, searched)
      ensures SemanticStore() == StoreSearched(old(SemanticStore()), tenant, r, now, !faults.semanticRead)
      ensures found.Some? ==>
        && found.value.state.Known? && !found.value.abstain
        && SemanticHit(before, tenant, r, now, Served(found.value, SemanticCacheLayer))
    {
      hide Cold, Answers, Live, Purged, ExactBacked, SemanticHit, SemanticBacked;
      found, searched := None, None;
      var vector := VectorOf(pipeline, r);
      if semantic == null || vector.None? {
        return;
      }
      var best: Option<Match> := None;
      if !faults.semanticRead {
        ghost var store := semantic.store;
        var q := PartitionOf(pipeline, tenant, r);
        best := semantic.Lookup(q, vector.value, now);
        if q in store {
          SemanticBackedPurge(pipeline, semantic.policy.ttl, asked, store, q, now);
          if best.Some? {
            SemanticFound(before, tenant, r, store, best.value, now);
          }
        }
      }
      assert Finds(old(SemanticStore()), tenant, r, now, !faults.semanticRead, best);
      searched := Some(SemanticAttempt(best));
      if searched.value.accepted {
        found := Some(best.value.entry.classification);
      }
    }

    lemma SemanticFound(before: Asked, tenant: string, r: Request, store: map<Partition, Index>, m: Match, now: real)
      requires semantic != null && VectorOf(pipeline, r).Some?
      requires SemanticBacked(pipeline, semantic.policy.ttl, before, store) && PartitionOf(pipeline, tenant, r) in store
      requires Finds(store, tenant, r, now, true, Some(m))
      ensures var c := m.entry.classification;
        && c.state.Known? && !c.abstain
        && (c.confidence >= pipeline.thresholds.semanticCache ==>
              SemanticHit(before, tenant, r, now, Served(c, SemanticCacheLayer)))
    {
      hide Cold, VectorOf;
      var q := PartitionOf(pipeline, tenant, r);
      var k :| k in Live(store[q], now) && Live(store[q], now)[k] == m.entry;
      LiveMeaning(store[q], now);
      assert SemanticEntryBacked(pipeline, semantic.policy.ttl, before, q, store[q].entries[k]);
      var r0, at :| AnswerTo(pipeline, before, tenant, r0, at, m.entry.classification)
        && PartitionOf(pipeline, tenant, r0) == q && VectorOf(pipeline, r0) == Some(m.entry.vector)
        && m.entry.expiresAt == at + semantic.policy.ttl;
      assert SameAnswer(Served(m.entry.classification, SemanticCacheLayer), Cold(pipeline, r0).classification);
    }

    /** Only a freshly computed known answer is cached; an abstention never is. */
    method Remember(tenant: string, r: Request, c: IntentClassification, now: real, faults: Faults)
      requires Valid() && AnswerTo(pipeline, asked, tenant, r, now, c)
      modifies `exact, semantic
      ensures Valid()
      ensures exact == if faults.exactWrite then old(exact) else old(exact)[ExactKeyOf(pipeline, tenant, r) := c]
      ensures SemanticStore() == StoreAdmitted(old(SemanticStore()), tenant, r, c, now, !faults.semanticWrite)
    {
      hide Cold, ExactKeyOf, PartitionOf, PromptKey, VectorOf, AnswerTo, SemanticBacked, StoreAdmitted;
      if !faults.exactWrite {
        AnswerBacksExact(pipeline, asked, tenant, r, now, c);
        exact := exact[ExactKeyOf(pipeline, tenant, r) := c];
      }
      RememberSemantic(tenant, r, c, now, faults);
    }

    method RememberSemantic(tenant: string, r: Request, c: IntentClassification, now: real, faults: Faults)
      requires Valid() && AnswerTo(pipeline, asked, tenant, r, now, c)
      modifies semantic
      ensures Valid()
      ensures SemanticStore() == StoreAdmitted(old(SemanticStore()), tenant, r, c, now, !faults.semanticWrite)
    {
      hide Cold, ExactBacked, PartitionOf, PromptKey, VectorOf, AnswerTo;
      var vector := VectorOf(pipeline, r);
      if semantic != null && vector.Some? && !faults.semanticWrite {
        ghost var store := semantic.store;
        var q := PartitionOf(pipeline, tenant, r);
        var e := Entry(r.prompt.text, vector.value, c, now + semantic.policy.ttl);
        AnswerBacksSemantic(pipeline, semantic.policy.ttl, asked, tenant, r, now, e);
        SemanticBackedAdmit(pipeline, semantic.policy.ttl, asked, store, q, PromptKey(pipeline, r), e,
                            semantic.policy.capacity);
        var admitted := semantic.Admit(q, PromptKey(pipeline, r), r.prompt.text, vector.value, c, now);
      }
    }

    /** The semantic cache may lose whole partitions at any time. */
    method ForgetPartitions(lost: set<Partition>)
      requires Valid()
      modifies semantic
      ensures Valid() && SemanticStore() == old(SemanticStore()) - lost
    {
      hide ExactBacked;
      if semantic != null {
        semantic.Lose(lost);
      }
    }

    /** Expiry, eviction and invalidation: the exact cache may lose anything at any time. */
    method Forget(lost: set<ExactKey>)
      requires Valid()
      modifies `exact
      ensures Valid() && exact == old(exact) - lost
    {
      exact := exact - lost;
    }
  }

  lemma ColdIsUncached(p: Pipeline, r: Request)
    ensures var c := Cold(p, r).classification;
      !c.cacheHit && c.layer !in {ExactCacheLayer, SemanticCacheLayer}
  {
    var k := FirstAccept(p, r, 0);
    if k < LAYERS {
      assert LayerOf(k) in [RulesLayer, EmbeddingLayer, StructuredLayer, EscalationLayer];
    }
  }

  // ------------------------------------------------- exact hits and cold answers

  ghost predicate SameKey(p: Pipeline, r1: Request, r2: Request) {
    PromptKey(p, r1) == PromptKey(p, r2) && DiscriminatorsOf(p, r1) == DiscriminatorsOf(p, r2)
  }

  /** Each layer's answer depends on the normalised prompt, the discriminators and the shortlist it is shown. */
  ghost predicate LayersReadKey(p: Pipeline) {
    forall r1: Request, r2: Request, i: nat, shortlist ::
      i < LAYERS && Configured(p, i) && SameKey(p, r1, r2) ==> Ask(p, r1, i, shortlist) == Ask(p, r2, i, shortlist)
  }

  /** Two requests the layers cannot tell apart. */
  ghost predicate Alike(p: Pipeline, r1: Request, r2: Request) {
    LayersReadKey(p) && SameKey(p, r1, r2) && r1.shortlist == r2.shortlist
  }

  /** Such requests get the same cold decision, attempts and all. */
  lemma ColdReadsKey(p: Pipeline, r1: Request, r2: Request)
    requires Alike(p, r1, r2)
    ensures Cold(p, r1) == Cold(p, r2)
  {
    hide Cold, Ask, SameKey;
    SameCold(p, r1, r2);
  }

  /**
    An exact hit is the answer the uncached cascade would give to this very request, if the layers
    read no more than the key says and this tenant's earlier requests with that key came with the
    same shortlist.
   */
  lemma ExactHitIsCold(s: IntentCascade, before: Asked, tenant: string, r: Request, c: IntentClassification)
    requires LayersReadKey(s.pipeline) && s.ExactHit(before, tenant, r, c)
    requires forall r0: Request, at: real | (tenant, r0, at) in before && SameKey(s.pipeline, r0, r) ::
      r0.shortlist == r.shortlist
    ensures SameAnswer(c, Cold(s.pipeline, r).classification)
  {
    hide Cold, LayersReadKey;
    var r0, at :| (tenant, r0, at) in before
      && ExactKeyOf(s.pipeline, tenant, r0) == ExactKeyOf(s.pipeline, tenant, r)
      && SameAnswer(c, Cold(s.pipeline, r0).classification);
    assert SameKey(s.pipeline, r0, r);
    ColdReadsKey(s.pipeline, r0, r);
  }

  /** A structured classifier that tells one shortlist from all others. */
  function Recognise(known: Option<seq<string>>): Classifier {
    (prompt: Prompt, shortlist: Option<seq<string>>) =>
      Verdict(Some(if shortlist == known then "a" else "b"), 1.0, [], 0.0)
  }

  function Recogniser(known: Option<seq<string>>): Pipeline {
    Pipeline({"a", "b"}, "v1", "c1", (s: string) => s, (s: string) => s, None, None,
             Some(Recognise(known)), None, None, DEFAULT_THRESHOLDS)
  }

  lemma Recognises(known: Option<seq<string>>, r: Request)
    ensures Cold(Recogniser(known), r).classification.intent == if r.shortlist == known then "a" else "b"
  {
    var p := Recogniser(known);
    assert Opinion(p, r, 0).None? && Opinion(p, r, 1).None?;
    assert Metadata(p, r, 0) == r.shortlist && Metadata(p, r, 1) == r.shortlist && Metadata(p, r, 2) == r.shortlist;
    assert Opinion(p, r, 2) == Some(Recognise(known)(Bounded(p, r), r.shortlist));
    assert Accepts(p, r, 2) && !Accepts(p, r, 0) && !Accepts(p, r, 1);
    FirstAcceptUnique(p, r, 2);
  }

  /**
    The exact key leaves out the shortlist a caller may send along. Two requests with one prompt get
    the same answer from every pipeline whose layers read no more than the key and the shortlist, and
    so may share an entry, if and only if they come with the same shortlist.
   */
  lemma SharedEntryExact(r1: Request, r2: Request)
    requires r1.prompt == r2.prompt
    ensures (forall p: Pipeline | LayersReadKey(p) ::
               SameAnswer(Cold(p, r1).classification, Cold(p, r2).classification))
       <==> r1.shortlist == r2.shortlist
  {
    hide Cold, LayersReadKey;
    if r1.shortlist == r2.shortlist {
      forall p: Pipeline | LayersReadKey(p)
        ensures SameAnswer(Cold(p, r1).classification, Cold(p, r2).classification)
      {
        ColdReadsKey(p, r1, r2);
      }
    } else {
      RecogniserReadsKey(r1.shortlist);
      Recognises(r1.shortlist, r1);
      Recognises(r1.shortlist, r2);
    }
  }

  lemma RecogniserReadsKey(known: Option<seq<string>>)
    ensures LayersReadKey(Recogniser(known))
  {
  }
}
