/** The vocabulary of the intent subsystem: layers, verdicts, classifications and when they are valid. */
module IntentSchema {
  import opened Wrappers

  const UNKNOWN_INTENT_ID := "unknown"
  const HIGH_CONFIDENCE := 0.9

  type Unit = r: real | 0.0 <= r <= 1.0 witness 0.0

  datatype ServingState = Known | Unknown | Abstain | SafeFallback

  datatype Layer =
    | ExactCacheLayer | SemanticCacheLayer | RulesLayer | EmbeddingLayer
    | StructuredLayer | EscalationLayer | AbstainLayer | SafeFallbackLayer

  datatype Alternative = Alternative(intent: string, confidence: Unit)

  /** A classifier's opinion; without an intent it carries zero confidence. */
  datatype RawVerdict = Verdict(intent: Option<string>, confidence: Unit, alternatives: seq<Alternative>, cost: real)

  type ClassifierVerdict = v: RawVerdict | v.intent.None? ==> v.confidence == 0.0
    witness Verdict(None, 0.0, [], 0.0)

  datatype RawClassification = Classification(
    intent: string, confidence: Unit, alternatives: seq<Alternative>,
    state: ServingState, abstain: bool, layer: Layer, cost: real, cacheHit: bool)

  /** A known label, an abstention, or one of the other two states: never a mixture. */
  predicate Consistent(c: RawClassification) {
    match c.state
    case Known => c.intent != UNKNOWN_INTENT_ID && !c.abstain
    case Abstain => c.intent == UNKNOWN_INTENT_ID && c.abstain
    case _ => c.intent == UNKNOWN_INTENT_ID && !c.abstain
  }

  /** A label is known exactly in the known state, and the abstention flag is up exactly in that state. */
  lemma ConsistentMeaning(c: RawClassification)
    ensures Consistent(c) <==>
      (c.state.Known? <==> c.intent != "unknown") && (c.abstain <==> c.state.Abstain?)
  {
  }

  type IntentClassification = c: RawClassification | Consistent(c)
    witness Classification(UNKNOWN_INTENT_ID, 0.0, [], Unknown, false, AbstainLayer, 0.0, false)

  predicate AllowsOptimizedRoute(c: IntentClassification) {
    c.state.Known? && !c.abstain && c.confidence >= HIGH_CONFIDENCE
  }

  /** An optimised route is for known labels of high confidence, and for nothing else. */
  lemma OptimizedRouteMeaning(c: IntentClassification)
    ensures AllowsOptimizedRoute(c) <==> c.intent != "unknown" && c.confidence >= 0.9
  {
  }
}
