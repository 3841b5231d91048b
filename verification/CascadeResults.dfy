/** What the layered answer guarantees, whatever the classifiers say. */
module CascadeResults {
  import opened Wrappers
  import opened IntentSchema
  import opened Cascade

  function LayerRank(l: Layer): nat {
    match l
    case ExactCacheLayer => 0 case SemanticCacheLayer => 1 case RulesLayer => 2 case EmbeddingLayer => 3
    case StructuredLayer => 4 case EscalationLayer => 5 case AbstainLayer => 6 case SafeFallbackLayer => 7
  }

  /** `a` is what asking layer `j` was recorded as. */
  ghost predicate AttemptAt(p: Pipeline, r: Request, j: nat, a: Attempt)
    requires j < LAYERS
  {
    Opinion(p, r, j).Some? && a == AttemptOf(p, r, j, Opinion(p, r, j).value)
  }

  ghost predicate CheapestFirst(attempts: seq<Attempt>) {
    forall m, n | 0 <= m < n < |attempts| :: LayerRank(attempts[m].layer) < LayerRank(attempts[n].layer)
  }

  lemma {:induction false} AttemptsListed(p: Pipeline, r: Request, i: nat)
    requires i <= LAYERS
    ensures forall a | a in Attempts(p, r, i) :: exists j: nat | j < i :: AttemptAt(p, r, j, a)
    ensures forall j: nat | j < i && Configured(p, j) ::
      AttemptOf(p, r, j, Opinion(p, r, j).value) in Attempts(p, r, i)
  {
    if i > 0 {
      assert Configured(p, i - 1) <==> Opinion(p, r, i - 1).Some?;
    }
    hide AttemptOf, Opinion, Configured;
    if i > 0 {
      AttemptsListed(p, r, i - 1);
      match Opinion(p, r, i - 1) {
        case Some(v) =>
          var a := AttemptOf(p, r, i - 1, v);
          assert Attempts(p, r, i) == Attempts(p, r, i - 1) + [a];
          assert AttemptAt(p, r, i - 1, a);
        case None =>
          assert Attempts(p, r, i) == Attempts(p, r, i - 1);
      }
    }
  }

  lemma {:induction false} AttemptsOrdered(p: Pipeline, r: Request, i: nat)
    requires i <= LAYERS
    ensures CheapestFirst(Attempts(p, r, i))
    ensures forall a | a in Attempts(p, r, i) :: LayerRank(a.layer) < i + 2
  {
    hide AttemptOf, Opinion;
    if i > 0 {
      var before := Attempts(p, r, i - 1);
      AttemptsOrdered(p, r, i - 1);
      match Opinion(p, r, i - 1) {
        case Some(v) =>
          LastLayer(p, r, i - 1, v);
          assert Attempts(p, r, i) == before + [AttemptOf(p, r, i - 1, v)];
        case None =>
          assert Attempts(p, r, i) == before;
      }
    }
  }

  /** The attempts are those of the configured layers before `i`, one each, cheapest first. */
  lemma AttemptsMeaning(p: Pipeline, r: Request, i: nat)
    requires i <= LAYERS
    ensures forall a | a in Attempts(p, r, i) :: exists j: nat | j < i :: AttemptAt(p, r, j, a)
    ensures forall j: nat | j < i && Configured(p, j) ::
      AttemptOf(p, r, j, Opinion(p, r, j).value) in Attempts(p, r, i)
    ensures CheapestFirst(Attempts(p, r, i))
    ensures forall a | a in Attempts(p, r, i) :: LayerRank(a.layer) < i + 2
  {
    hide Attempts, AttemptOf, Opinion, Configured, CheapestFirst;
    AttemptsListed(p, r, i);
    AttemptsOrdered(p, r, i);
  }

  lemma LastLayer(p: Pipeline, r: Request, i: nat, v: ClassifierVerdict)
    requires i < LAYERS
    ensures LayerRank(AttemptOf(p, r, i, v).layer) == i + 2
  {
  }

  function SpentBefore(p: Pipeline, r: Request, i: nat): real
    requires i <= LAYERS
  {
    if i == 0 then 0.0
    else SpentBefore(p, r, i - 1) + match Opinion(p, r, i - 1) case Some(v) => v.cost case None => 0.0
  }

  lemma {:induction false} AttemptsCost(p: Pipeline, r: Request, i: nat)
    requires i <= LAYERS
    ensures TotalCost(Attempts(p, r, i)) == SpentBefore(p, r, i)
  {
    hide Opinion;
    if i > 0 {
      AttemptsCost(p, r, i - 1);
      var before := Attempts(p, r, i - 1);
      match Opinion(p, r, i - 1) {
        case Some(v) =>
          var a := AttemptOf(p, r, i - 1, v);
          assert (before + [a])[..|before|] == before;
        case None =>
          assert before + [] == before;
      }
    }
  }

  lemma CostOfOneMore(attempts: seq<Attempt>, a: Attempt)
    ensures TotalCost(attempts + [a]) == TotalCost(attempts) + a.cost
  {
    assert (attempts + [a])[..|attempts|] == attempts;
  }

  // ------------------------------------------------------- who answers at all

  /** What each layer must reach to end the cascade. */
  ghost function Bar(p: Pipeline, l: Layer): Unit {
    match l
    case RulesLayer => p.thresholds.rules
    case EmbeddingLayer => p.thresholds.embedding
    case StructuredLayer => p.thresholds.structured
    case EscalationLayer => p.thresholds.escalation
    case _ => 0.0
  }

  /** The layer has an opinion, and it names an intent of the taxonomy. */
  ghost predicate Names(p: Pipeline, o: Option<ClassifierVerdict>, intent: string) {
    o.Some? && o.value.intent == Some(intent) && intent in p.taxonomy
  }

  /** Layer `i` names an intent of the taxonomy with the confidence its bar asks for. */
  ghost predicate Clears(p: Pipeline, r: Request, i: nat, intent: string)
    requires i < LAYERS
  {
    Names(p, Opinion(p, r, i), intent) && Opinion(p, r, i).value.confidence >= Bar(p, LayerOf(i))
  }

  ghost predicate NobodyAccepts(p: Pipeline, r: Request) {
    forall i: nat, intent | i < LAYERS :: !Clears(p, r, i, intent)
  }

  /** No alternative stands close behind the intent. */
  ghost predicate Undivided(v: ClassifierVerdict) {
    v.alternatives == [] || v.alternatives[0].confidence < 0.18
  }

  /** Rules and embedding name the same intent, one of them at least at the agreement floor, neither divided. */
  ghost predicate CheapLayersAgree(p: Pipeline, r: Request) {
    var rules, embedding := Opinion(p, r, 0), Opinion(p, r, 1);
    && (exists intent :: Names(p, rules, intent) && Names(p, embedding, intent))
    && (rules.value.confidence >= p.thresholds.agreementFloor
        || embedding.value.confidence >= p.thresholds.agreementFloor)
    && Undivided(rules.value) && Undivided(embedding.value)
  }

  lemma LayersInOrder()
    ensures LayerOf(0) == RulesLayer && LayerOf(1) == EmbeddingLayer
    ensures LayerOf(2) == StructuredLayer && LayerOf(3) == EscalationLayer
  {
  }

  lemma AcceptsMeaning(p: Pipeline, r: Request, i: nat)
    requires i < LAYERS
    ensures Accepts(p, r, i) <==> exists intent :: Clears(p, r, i, intent)
  {
    LayersInOrder();
    hide Opinion, LayerOf;
    if Accepts(p, r, i) {
      assert Clears(p, r, i, Opinion(p, r, i).value.intent.value);
    }
  }

  lemma NobodyAcceptsMeaning(p: Pipeline, r: Request)
    ensures NobodyAccepts(p, r) <==> forall j | 0 <= j < LAYERS :: !Accepts(p, r, j)
  {
    hide Clears, Accepts;
    forall j: nat | j < LAYERS ensures Accepts(p, r, j) <==> exists intent :: Clears(p, r, j, intent) {
      AcceptsMeaning(p, r, j);
    }
    if !NobodyAccepts(p, r) {
      var i: nat, intent :| i < LAYERS && Clears(p, r, i, intent);
      assert Accepts(p, r, i);
    }
  }

  /**
    First accept: the answer is that of the first layer that names an intent of the taxonomy with the
    confidence its bar asks for; no later layer is asked, every earlier configured one was and fell short,
    and the cost is what the layers that were asked cost.
   */
  lemma FirstAcceptWins(p: Pipeline, r: Request, k: nat, intent: string)
    requires k < LAYERS && Clears(p, r, k, intent) && forall j: nat, other | j < k :: !Clears(p, r, j, other)
    ensures var d, verdict := Cold(p, r), Opinion(p, r, k).value;
      && d.classification.intent == intent && d.classification.confidence == verdict.confidence
      && d.classification.layer == LayerOf(k) && d.classification.state.Known? && !d.classification.cacheHit
      && d.classification.cost == verdict.cost
      && d.classification.alternatives == FirstThree(verdict.alternatives)
      && (forall a | a in d.attempts :: LayerRank(a.layer) <= LayerRank(LayerOf(k)) && a.threshold == Bar(p, a.layer))
      && (forall a | a in d.attempts :: a.accepted <==> a.layer == LayerOf(k))
      && (forall j: nat | j <= k && Configured(p, j) :: exists a | a in d.attempts :: a.layer == LayerOf(j))
      && TotalCost(d.attempts) == SpentBefore(p, r, k + 1)
  {
    FirstClears(p, r, k, intent);
    hide Attempts, TotalCost, SpentBefore, FirstAccept, LayerOf, Clears, Bar;
    FirstAcceptUnique(p, r, k);
    AttemptsCost(p, r, k + 1);
    AttemptsUpTo(p, r, k);
  }

  ghost function FirstThree(alternatives: seq<Alternative>): (first: seq<Alternative>)
    ensures first <= alternatives && (|first| == 3 || (|first| < 3 && first == alternatives))
  {
    if |alternatives| <= 3 then alternatives else alternatives[..3]
  }

  lemma FirstClears(p: Pipeline, r: Request, k: nat, intent: string)
    requires k < LAYERS && Clears(p, r, k, intent) && forall j: nat, other | j < k :: !Clears(p, r, j, other)
    ensures Accepts(p, r, k) && Opinion(p, r, k).value.intent == Some(intent)
    ensures forall j | 0 <= j < k :: !Accepts(p, r, j)
  {
    AcceptsMeaning(p, r, k);
    hide Accepts, Opinion;
    forall j: nat | j < k ensures !Accepts(p, r, j) {
      AcceptsMeaning(p, r, j);
    }
  }

  lemma AttemptsUpTo(p: Pipeline, r: Request, k: nat)
    requires k < LAYERS && Accepts(p, r, k) && forall j | 0 <= j < k :: !Accepts(p, r, j)
    ensures var all := Attempts(p, r, k + 1);
      && (forall a | a in all :: LayerRank(a.layer) <= LayerRank(LayerOf(k)) && a.threshold == Bar(p, a.layer))
      && (forall a | a in all :: a.accepted <==> a.layer == LayerOf(k))
      && (forall j: nat | j <= k && Configured(p, j) :: exists a | a in all :: a.layer == LayerOf(j))
  {
    hide Attempts, Opinion;
    AttemptsMeaning(p, r, k + 1);
    LastLayer(p, r, k, Opinion(p, r, k).value);
    forall a | a in Attempts(p, r, k + 1)
      ensures (a.accepted <==> a.layer == LayerOf(k)) && a.threshold == Bar(p, a.layer)
    {
      var j: nat :| j < k + 1 && AttemptAt(p, r, j, a);
      LastLayer(p, r, j, Opinion(p, r, j).value);
      assert a.accepted <==> Accepts(p, r, j);
      LayersInOrder();
    }
  }

  lemma {:induction false} BestIsMaximum(p: Pipeline, r: Request, i: nat)
    requires i <= LAYERS
    ensures var best := Best(p, r, i);
      && (forall j: nat | j < i && UsableOpinion(p, r, j).Some? ::
            best.Some? && UsableOpinion(p, r, j).value.confidence <= best.value.0.confidence)
      && (best.Some? ==> UsableOpinion(p, r, best.value.1) == Some(best.value.0))
  {
    if i > 0 {
      BestIsMaximum(p, r, i - 1);
    }
  }

  lemma AgreedMeaning(p: Pipeline, r: Request)
    ensures Agreed(UsableOpinion(p, r, 0), UsableOpinion(p, r, 1), p.thresholds.agreementFloor).Some?
       <==> CheapLayersAgree(p, r)
  {
    hide Opinion;
    if CheapLayersAgree(p, r) {
      var intent :| Names(p, Opinion(p, r, 0), intent) && Names(p, Opinion(p, r, 1), intent);
    }
    var rules := UsableOpinion(p, r, 0);
    assert rules.Some? ==> Names(p, Opinion(p, r, 0), rules.value.intent.value);
  }

  /**
    When no layer accepts, the answer is known if and only if the two cheap layers agree: both name one
    intent of the taxonomy, at least one of them at the agreement floor, and neither with a close
    runner-up. Otherwise the cascade abstains.
   */
  lemma AgreementExact(p: Pipeline, r: Request)
    requires NobodyAccepts(p, r)
    ensures var c := Cold(p, r).classification;
      && (c.state.Known? <==> CheapLayersAgree(p, r))
      && (!c.state.Known? ==> c.state.Abstain? && c.abstain && c.intent == UNKNOWN_INTENT_ID)
  {
    NobodyAcceptsMeaning(p, r);
    AgreedMeaning(p, r);
    hide Opinion, UsableOpinion, Agreed, CheapLayersAgree, Attempts, Best, TotalCost, Accepts, NobodyAccepts;
    FirstAcceptUnique(p, r, LAYERS);
  }

  /** No layer accepts and the two cheap ones do not agree. */
  ghost predicate NobodyAnswers(p: Pipeline, r: Request) {
    && (forall j | 0 <= j < LAYERS :: !Accepts(p, r, j))
    && Agreed(UsableOpinion(p, r, 0), UsableOpinion(p, r, 1), p.thresholds.agreementFloor).None?
  }

  lemma ColdAbstains(p: Pipeline, r: Request) returns (last: Attempt)
    requires NobodyAnswers(p, r)
    ensures var d := Cold(p, r);
      && d.classification == Abstention(Best(p, r, LAYERS), TotalCost(Attempts(p, r, LAYERS)))
      && last.cost == 0.0 && d.attempts == Attempts(p, r, LAYERS) + [last]
  {
    hide Opinion, UsableOpinion, Agreed, Attempts, Best, TotalCost, Accepts, FirstAccept, Abstention;
    FirstAcceptUnique(p, r, LAYERS);
    var best := Best(p, r, LAYERS);
    last := Attempt(AbstainLayer, None, if best.Some? then best.value.0.confidence else 0.0,
                    if best.Some? then ThresholdOf(p.thresholds, best.value.1) else 0.0, true, 0.0);
  }

  lemma NamedIsUsable(p: Pipeline, r: Request, j: nat, intent: string)
    requires j < LAYERS
    ensures Names(p, Opinion(p, r, j), intent)
       <==> UsableOpinion(p, r, j).Some? && UsableOpinion(p, r, j).value.intent == Some(intent)
    ensures UsableOpinion(p, r, j).Some? ==>
      UsableOpinion(p, r, j) == Opinion(p, r, j) && UsableOpinion(p, r, j).value.intent.Some?
  {
    hide Opinion;
  }

  lemma AbstentionConfidence(p: Pipeline, r: Request)
    requires NobodyAnswers(p, r)
    ensures var c := Cold(p, r).classification;
      && c.abstain && c.state.Abstain? && c.intent == UNKNOWN_INTENT_ID && c.layer == AbstainLayer && !c.cacheHit
      && (forall j: nat, intent | j < LAYERS && Names(p, Opinion(p, r, j), intent) ::
            Opinion(p, r, j).value.confidence <= c.confidence)
      && (if forall j: nat, intent | j < LAYERS :: !Names(p, Opinion(p, r, j), intent)
          then c.confidence == 0.0 && c.alternatives == []
          else exists j: nat, intent | j < LAYERS ::
            Names(p, Opinion(p, r, j), intent) && Opinion(p, r, j).value.confidence == c.confidence
            && c.alternatives == [Alternative(intent, c.confidence)])
  {
    hide Cold, NobodyAnswers, Opinion, UsableOpinion, Attempts, Best, TotalCost, Names;
    var _ := ColdAbstains(p, r);
    BestIsMaximum(p, r, LAYERS);
    forall j: nat, intent | j < LAYERS && Names(p, Opinion(p, r, j), intent)
      ensures Opinion(p, r, j).Some? && Best(p, r, LAYERS).Some?
      ensures Opinion(p, r, j).value.confidence <= Best(p, r, LAYERS).value.0.confidence
    {
      NamedIsUsable(p, r, j, intent);
    }
    var best := Best(p, r, LAYERS);
    if best.Some? {
      NamedIsUsable(p, r, best.value.1, best.value.0.intent.value);
      assert Names(p, Opinion(p, r, best.value.1), best.value.0.intent.value);
    }
  }

  lemma AbstentionCost(p: Pipeline, r: Request)
    requires NobodyAnswers(p, r)
    ensures Cold(p, r).classification.cost == TotalCost(Cold(p, r).attempts) == SpentBefore(p, r, LAYERS)
  {
    hide Cold, NobodyAnswers, Attempts, Best, TotalCost, SpentBefore;
    var last := ColdAbstains(p, r);
    AttemptsCost(p, r, LAYERS);
    CostOfOneMore(Attempts(p, r, LAYERS), last);
  }

  /**
    Abstention: when no layer accepts and the cheap layers do not agree, every configured layer was
    asked and the abstention carries the greatest confidence with which an intent of the taxonomy was
    named, and that intent, or zero and nothing if none was.
   */
  lemma AbstentionCarriesMaximum(p: Pipeline, r: Request)
    requires NobodyAccepts(p, r) && !CheapLayersAgree(p, r)
    ensures var c := Cold(p, r).classification;
      && c.abstain && c.state.Abstain? && c.intent == UNKNOWN_INTENT_ID && c.layer == AbstainLayer && !c.cacheHit
      && (forall j: nat, intent | j < LAYERS && Names(p, Opinion(p, r, j), intent) ::
            Opinion(p, r, j).value.confidence <= c.confidence)
      && (if forall j: nat, intent | j < LAYERS :: !Names(p, Opinion(p, r, j), intent)
          then c.confidence == 0.0 && c.alternatives == []
          else exists j: nat, intent | j < LAYERS ::
            Names(p, Opinion(p, r, j), intent) && Opinion(p, r, j).value.confidence == c.confidence
            && c.alternatives == [Alternative(intent, c.confidence)])
      && c.cost == TotalCost(Cold(p, r).attempts) == SpentBefore(p, r, LAYERS)
  {
    NobodyAcceptsMeaning(p, r);
    AgreedMeaning(p, r);
    hide NobodyAccepts, CheapLayersAgree, UsableOpinion, Accepts, Agreed, Opinion, Cold, TotalCost, SpentBefore;
    AbstentionConfidence(p, r);
    AbstentionCost(p, r);
  }

  lemma CombinedBelow(a: Unit, b: Unit, x: Unit, y: Unit)
    requires a < x && b < y
    ensures 1.0 - (1.0 - a) * (1.0 - b) < 1.0 - (1.0 - x) * (1.0 - y) || (x == 1.0 && y == 1.0)
    ensures 1.0 - (1.0 - a) * (1.0 - b) <= 1.0 - (1.0 - x) * (1.0 - y)
  {
    var a', b', x', y' := 1.0 - a, 1.0 - b, 1.0 - x, 1.0 - y;
    assert a' * b' >= x' * b' by { assert (a' - x') * b' >= 0.0; }
    assert x' * b' >= x' * y' by { assert x' * (b' - y') >= 0.0; }
    assert b' > 0.0 ==> (a' - x') * b' > 0.0;
  }

  lemma AgreementAnswer(p: Pipeline, r: Request)
    requires NobodyAccepts(p, r) && CheapLayersAgree(p, r)
    ensures var c := Cold(p, r).classification;
      var rules, embedding := Opinion(p, r, 0).value, Opinion(p, r, 1).value;
      var combined := 1.0 - (1.0 - rules.confidence) * (1.0 - embedding.confidence);
      && c.state.Known? && c.layer == EmbeddingLayer && c.cost == 0.0 && !c.cacheHit
      && Some(c.intent) == rules.intent == embedding.intent
      && c.confidence == (if combined <= 0.99 then combined else 0.99)
      && c.alternatives <= (if embedding.alternatives != [] then embedding.alternatives else rules.alternatives)
  {
    NobodyAcceptsMeaning(p, r);
    AgreedMeaning(p, r);
    hide Opinion, Attempts, Best, TotalCost;
    FirstAcceptUnique(p, r, LAYERS);
  }

  lemma CheapBarsMissed(p: Pipeline, r: Request)
    requires NobodyAccepts(p, r) && CheapLayersAgree(p, r)
    ensures Opinion(p, r, 0).value.confidence < p.thresholds.rules
    ensures Opinion(p, r, 1).value.confidence < p.thresholds.embedding
  {
    LayersInOrder();
    hide Opinion, LayerOf;
    var intent :| Names(p, Opinion(p, r, 0), intent) && Names(p, Opinion(p, r, 1), intent);
    assert !Clears(p, r, 0, intent) && !Clears(p, r, 1, intent);
  }

  /**
    Agreement: the answer is the intent both cheap layers named, with their combined confidence capped
    at 0.99. It stays below what the two bars they missed would combine to, so it allows no optimised
    route while that is at most the high-confidence mark.
   */
  lemma AgreementBounded(p: Pipeline, r: Request)
    requires NobodyAccepts(p, r) && CheapLayersAgree(p, r)
    ensures var c := Cold(p, r).classification;
      var t, rules, embedding := p.thresholds, Opinion(p, r, 0).value, Opinion(p, r, 1).value;
      var combined := 1.0 - (1.0 - rules.confidence) * (1.0 - embedding.confidence);
      && c.state.Known? && c.layer == EmbeddingLayer && c.cost == 0.0 && !c.cacheHit
      && Some(c.intent) == rules.intent == embedding.intent
      && c.confidence == (if combined <= 0.99 then combined else 0.99)
      && c.alternatives <= (if embedding.alternatives != [] then embedding.alternatives else rules.alternatives)
      && c.confidence <= 1.0 - (1.0 - t.rules) * (1.0 - t.embedding)
      && (1.0 - (1.0 - t.rules) * (1.0 - t.embedding) < HIGH_CONFIDENCE ==> !AllowsOptimizedRoute(c))
  {
    hide Cold, Opinion, NobodyAccepts;
    AgreementAnswer(p, r);
    CheapBarsMissed(p, r);
    CombinedBelow(Opinion(p, r, 0).value.confidence, Opinion(p, r, 1).value.confidence,
                  p.thresholds.rules, p.thresholds.embedding);
  }

  /**
    Under the default thresholds agreement is worth at least each of the two opinions, and never
    enough for an optimised route.
   */
  lemma DefaultAgreement(p: Pipeline, r: Request)
    requires p.thresholds == DEFAULT_THRESHOLDS
    requires NobodyAccepts(p, r) && CheapLayersAgree(p, r)
    ensures var c := Cold(p, r).classification;
      && c.confidence >= Opinion(p, r, 0).value.confidence
      && c.confidence >= Opinion(p, r, 1).value.confidence
      && c.confidence < HIGH_CONFIDENCE && !AllowsOptimizedRoute(c)
  {
    hide Cold, NobodyAccepts, Opinion;
    AgreementBounded(p, r);
    var c := Cold(p, r).classification;
    CappedAgreement(Opinion(p, r, 0).value.confidence, Opinion(p, r, 1).value.confidence, c.confidence);
  }

  /** What the default thresholds ask of each layer, of agreement and of a cached answer. */
  lemma DefaultBars(p: Pipeline)
    requires p.thresholds == DEFAULT_THRESHOLDS
    ensures Bar(p, RulesLayer) == 0.70 && Bar(p, EmbeddingLayer) == 0.62
    ensures Bar(p, StructuredLayer) == 0.55 && Bar(p, EscalationLayer) == 0.40
    ensures p.thresholds.agreementFloor == 0.48 && p.thresholds.semanticCache == 0.80
  {
  }

  lemma CappedAgreement(a: Unit, b: Unit, c: Unit)
    requires var combined := 1.0 - (1.0 - a) * (1.0 - b); c == if combined <= 0.99 then combined else 0.99
    requires c <= 1.0 - (1.0 - 0.70) * (1.0 - 0.62)
    ensures a <= c && b <= c && c < HIGH_CONFIDENCE
  {
    CombinedInUnit(a, b);
  }
}
