/**
  The classifier layers without the caches. `Opinion` and what follows say declaratively what each
  layer would answer and who answers first; `RunLayers` is the engine's loop, proved to agree.
 */
module Cascade {
  import opened Wrappers
  import opened IntentSchema
  import opened SemanticCache

  type Taxonomy = s: set<string> | UNKNOWN_INTENT_ID !in s

  datatype Prompt = Prompt(text: string, language: string, policyVersion: string, conversation: string)

  /** A prompt, and the shortlist its metadata may already carry. */
  datatype Request = Request(prompt: Prompt, shortlist: Option<seq<string>>)

  /** A deterministic classifier sees the bounded prompt and the shortlist in the metadata. */
  type Classifier = (Prompt, Option<seq<string>>) -> ClassifierVerdict

  datatype Embedding = Embedding(
    embed: string -> Option<Vector>, score: Vector -> ClassifierVerdict, classify: Classifier)

  datatype Thresholds = Thresholds(
    semanticCache: Unit, rules: Unit, embedding: Unit, structured: Unit, escalation: Unit, agreementFloor: Unit)

  const DEFAULT_THRESHOLDS := Thresholds(0.80, 0.70, 0.62, 0.55, 0.40, 0.48)

  datatype Pipeline = Pipeline(
    taxonomy: Taxonomy, taxonomyVersion: string, classifierVersion: string,
    normalise: string -> string, bound: string -> string,
    rules: Option<Classifier>, embedding: Option<Embedding>,
    structured: Option<Classifier>, escalation: Option<Classifier>,
    calibrate: Option<Unit -> Unit>, thresholds: Thresholds)

  function DiscriminatorsOf(p: Pipeline, r: Request): Discriminators {
    Discriminators(p.taxonomyVersion, p.classifierVersion, r.prompt.policyVersion, r.prompt.language,
                   r.prompt.conversation)
  }

  function Bounded(p: Pipeline, r: Request): Prompt {
    r.prompt.(text := p.bound(r.prompt.text))
  }

  /** The prompt embedded once; an embedder failure and an empty vector both count as none. */
  function VectorOf(p: Pipeline, r: Request): Option<Vector> {
    match p.embedding
    case None => None
    case Some(e) =>
      match e.embed(Bounded(p, r).text)
      case Some(v) => if v == [] then None else Some(v)
      case None => None
  }

  // ------------------------------------------------------------------- layers

  const LAYERS: nat := 4

  function LayerOf(i: nat): Layer
    requires i < LAYERS
  {
    [RulesLayer, EmbeddingLayer, StructuredLayer, EscalationLayer][i]
  }

  function ThresholdOf(t: Thresholds, i: nat): Unit
    requires i < LAYERS
  {
    if i == 0 then t.rules else if i == 1 then t.embedding else if i == 2 then t.structured else t.escalation
  }

  predicate Configured(p: Pipeline, i: nat)
    requires i < LAYERS
  {
    if i == 0 then p.rules.Some? else if i == 1 then p.embedding.Some?
    else if i == 2 then p.structured.Some? else p.escalation.Some?
  }

  /** The raw answer of a configured layer for a given shortlist. */
  function Ask(p: Pipeline, r: Request, i: nat, shortlist: Option<seq<string>>): ClassifierVerdict
    requires i < LAYERS && Configured(p, i)
  {
    var prompt := Bounded(p, r);
    if i == 0 then p.rules.value(prompt, shortlist)
    else if i == 1 then
      match VectorOf(p, r)
      case Some(v) => p.embedding.value.score(v)
      case None => p.embedding.value.classify(prompt, shortlist)
    else if i == 2 then p.structured.value(prompt, shortlist)
    else p.escalation.value(prompt, shortlist)
  }

  function Calibrated(p: Pipeline, v: ClassifierVerdict): ClassifierVerdict {
    if p.calibrate.Some? && v.intent.Some? then v.(confidence := p.calibrate.value(v.confidence)) else v
  }

  predicate Usable(p: Pipeline, v: ClassifierVerdict) {
    v.intent.Some? && v.intent.value in p.taxonomy
  }

  function AddCandidate(candidates: seq<string>, intent: string): seq<string> {
    if intent == "" || intent in candidates then candidates else candidates + [intent]
  }

  function AddAlternatives(candidates: seq<string>, alternatives: seq<Alternative>): seq<string>
    decreases |alternatives|
  {
    if alternatives == [] then candidates
    else AddAlternatives(AddCandidate(candidates, alternatives[0].intent), alternatives[1..])
  }

  /** The verdict's intent and alternatives after the candidates so far, at most eight. */
  function Shortlisted(v: ClassifierVerdict, existing: seq<string>): seq<string> {
    var first := if v.intent.Some? then AddCandidate(existing, v.intent.value) else existing;
    var all := AddAlternatives(first, v.alternatives);
    if |all| <= 8 then all else all[..8]
  }

  // ------------------------------------------------- the layers, declaratively

  /** What layer `i` answers when every earlier configured layer was asked. */
  function Opinion(p: Pipeline, r: Request, i: nat): Option<ClassifierVerdict>
    requires i < LAYERS
    decreases i, 2
  {
    if Configured(p, i) then Some(Calibrated(p, Ask(p, r, i, Metadata(p, r, i)))) else None
  }

  /** The candidates the layers before `i` leave behind. */
  function Shortlist(p: Pipeline, r: Request, i: nat): seq<string>
    requires i <= LAYERS
    decreases i, 0
  {
    if i == 0 then []
    else
      var before := Shortlist(p, r, i - 1);
      match Opinion(p, r, i - 1)
      case Some(v) => if Usable(p, v) then Shortlisted(v, before) else before
      case None => before
  }

  /** The shortlist in the metadata when layer `i` is asked: set once, by the first model layer that has one. */
  function Metadata(p: Pipeline, r: Request, i: nat): Option<seq<string>>
    requires i < LAYERS
    decreases i, 1
  {
    var before := if i == 0 then r.shortlist else Metadata(p, r, i - 1);
    if i >= 2 && Configured(p, i) && before.None? && Shortlist(p, r, i) != [] then Some(Shortlist(p, r, i))
    else before
  }

  predicate Accepts(p: Pipeline, r: Request, i: nat)
    requires i < LAYERS
  {
    var v := Opinion(p, r, i);
    v.Some? && Usable(p, v.value) && v.value.confidence >= ThresholdOf(p.thresholds, i)
  }

  /** The first accepting layer from `i` on, or the number of layers. */
  function FirstAccept(p: Pipeline, r: Request, i: nat): (k: nat)
    requires i <= LAYERS
    ensures i <= k <= LAYERS
    ensures k < LAYERS ==> Accepts(p, r, k)
    ensures forall j | i <= j < k :: !Accepts(p, r, j)
    decreases LAYERS - i
  {
    if i == LAYERS || Accepts(p, r, i) then i else FirstAccept(p, r, i + 1)
  }

  datatype Attempt = Attempt(
    layer: Layer, intent: Option<string>, confidence: Unit, threshold: Unit, accepted: bool, cost: real)

  function AttemptOf(p: Pipeline, r: Request, i: nat, v: ClassifierVerdict): Attempt
    requires i < LAYERS
  {
    var threshold := ThresholdOf(p.thresholds, i);
    Attempt(LayerOf(i), v.intent, v.confidence, threshold, Usable(p, v) && v.confidence >= threshold, v.cost)
  }

  /** One attempt for every configured layer before `i`, in order. */
  function Attempts(p: Pipeline, r: Request, i: nat): seq<Attempt>
    requires i <= LAYERS
  {
    if i == 0 then []
    else
      Attempts(p, r, i - 1)
      + match Opinion(p, r, i - 1)
        case Some(v) => [AttemptOf(p, r, i - 1, v)]
        case None => []
  }

  function TotalCost(attempts: seq<Attempt>): real {
    if attempts == [] then 0.0 else TotalCost(attempts[..|attempts| - 1]) + attempts[|attempts| - 1].cost
  }

  /** The most confident usable opinion of the layers before `i`, the earliest among equals, and its layer. */
  function Best(p: Pipeline, r: Request, i: nat): (best: Option<(ClassifierVerdict, nat)>)
    requires i <= LAYERS
    ensures best.Some? ==> best.value.1 < i && Usable(p, best.value.0)
  {
    if i == 0 then None
    else
      var before := Best(p, r, i - 1);
      match Opinion(p, r, i - 1)
      case Some(v) =>
        if Usable(p, v) && (before.None? || v.confidence > before.value.0.confidence) then Some((v, i - 1)) else before
      case None => before
  }

  function UsableOpinion(p: Pipeline, r: Request, i: nat): Option<ClassifierVerdict>
    requires i < LAYERS
  {
    match Opinion(p, r, i)
    case Some(v) => if Usable(p, v) then Some(v) else None
    case None => None
  }

  predicate CloseRunnerUp(v: ClassifierVerdict) {
    v.alternatives != [] && v.alternatives[0].confidence >= 0.18
  }

  function Max(a: real, b: real): real {
    if a >= b then a else b
  }

  function Combined(a: Unit, b: Unit): Unit {
    var c := 1.0 - (1.0 - a) * (1.0 - b);
    CombinedInUnit(a, b);
    if c < 0.99 then c else 0.99
  }

  lemma CombinedInUnit(a: Unit, b: Unit)
    ensures 0.0 <= 1.0 - (1.0 - a) * (1.0 - b) <= 1.0
    ensures 1.0 - (1.0 - a) * (1.0 - b) >= a && 1.0 - (1.0 - a) * (1.0 - b) >= b
  {
    var x, y := 1.0 - a, 1.0 - b;
    assert 0.0 <= x * y;
    assert x * y <= x * 1.0 && x * y <= 1.0 * y;
  }

  /** Two cheap layers that both fell short but name the same intent, without close runners-up. */
  function Agreed(rules: Option<ClassifierVerdict>, embedding: Option<ClassifierVerdict>, floor: Unit)
    : Option<ClassifierVerdict>
  {
    if rules.None? || embedding.None? || rules.value.intent.None? || embedding.value.intent.None?
       || rules.value.intent != embedding.value.intent then None
    else if Max(rules.value.confidence, embedding.value.confidence) < floor then None
    else if CloseRunnerUp(rules.value) || CloseRunnerUp(embedding.value) then None
    else
      Some(Verdict(
        rules.value.intent, Combined(rules.value.confidence, embedding.value.confidence),
        if embedding.value.alternatives != [] then embedding.value.alternatives else rules.value.alternatives, 0.0))
  }

  lemma AgreedUsable(p: Pipeline, r: Request)
    ensures var a := Agreed(UsableOpinion(p, r, 0), UsableOpinion(p, r, 1), p.thresholds.agreementFloor);
      a.Some? ==> Usable(p, a.value)
  {
  }

  /** A usable verdict as a full classification. */
  function Materialised(p: Pipeline, v: ClassifierVerdict, layer: Layer): IntentClassification
    requires Usable(p, v)
  {
    Classification(
      v.intent.value, v.confidence, if |v.alternatives| <= 3 then v.alternatives else v.alternatives[..3],
      Known, false, layer, v.cost, false)
  }

  function Abstention(best: Option<(ClassifierVerdict, nat)>, cost: real): IntentClassification {
    Classification(
      UNKNOWN_INTENT_ID, if best.Some? then best.value.0.confidence else 0.0,
      if best.Some? && best.value.0.intent.Some?
      then [Alternative(best.value.0.intent.value, best.value.0.confidence)] else [],
      Abstain, true, AbstainLayer, cost, false)
  }

  /** An answer and the attempts that led to it. */
  datatype Decision = Decision(classification: IntentClassification, attempts: seq<Attempt>)

  /** The answer of the layers when no cache has one. */
  function Cold(p: Pipeline, r: Request): Decision {
    var k := FirstAccept(p, r, 0);
    if k < LAYERS then
      Decision(Materialised(p, Opinion(p, r, k).value, LayerOf(k)), Attempts(p, r, k + 1))
    else
      var attempts := Attempts(p, r, LAYERS);
      var agreed := Agreed(UsableOpinion(p, r, 0), UsableOpinion(p, r, 1), p.thresholds.agreementFloor);
      if agreed.Some? then
        Decision(Materialised(p, agreed.value, EmbeddingLayer),
                 attempts + [Attempt(EmbeddingLayer, agreed.value.intent, agreed.value.confidence,
                                     p.thresholds.agreementFloor, true, 0.0)])
      else
        var best := Best(p, r, LAYERS);
        Decision(Abstention(best, TotalCost(attempts)),
                 attempts + [Attempt(AbstainLayer, None, if best.Some? then best.value.0.confidence else 0.0,
                                     if best.Some? then ThresholdOf(p.thresholds, best.value.1) else 0.0, true, 0.0)])
  }

  // ----------------------------------------------------------------- the loop

  /** The usable opinions of the layers before `i`, by layer. */
  ghost predicate Heard(p: Pipeline, r: Request, i: nat, opinions: map<nat, ClassifierVerdict>) {
    forall j: nat | j < LAYERS ::
      if j < i && UsableOpinion(p, r, j).Some?
      then j in opinions && opinions[j] == UsableOpinion(p, r, j).value
      else j !in opinions
  }

  lemma HeardStep(p: Pipeline, r: Request, i: nat, opinions: map<nat, ClassifierVerdict>)
    requires i < LAYERS && Heard(p, r, i, opinions)
    ensures Heard(p, r, i + 1,
      match UsableOpinion(p, r, i) case Some(v) => opinions[i := v] case None => opinions)
  {
  }

  lemma FirstAcceptUnique(p: Pipeline, r: Request, k: nat)
    requires k <= LAYERS && (k < LAYERS ==> Accepts(p, r, k)) && forall j | 0 <= j < k :: !Accepts(p, r, j)
    ensures FirstAccept(p, r, 0) == k
  {
  }

  /** The engine's loop over the layers, up to the first that is accepted. */
  method AskLayers(p: Pipeline, r: Request)
    returns (accepted: Option<(ClassifierVerdict, nat)>, attempts: seq<Attempt>,
             best: Option<(ClassifierVerdict, nat)>, opinions: map<nat, ClassifierVerdict>)
    ensures match accepted
      case Some(answer) =>
        answer.1 < LAYERS && answer.1 == FirstAccept(p, r, 0) && Opinion(p, r, answer.1) == Some(answer.0)
        && attempts == Attempts(p, r, answer.1 + 1)
      case None =>
        FirstAccept(p, r, 0) == LAYERS && attempts == Attempts(p, r, LAYERS)
        && best == Best(p, r, LAYERS) && Heard(p, r, LAYERS, opinions)
  {
    hide Ask, Calibrated, Usable, Configured, Shortlisted, ThresholdOf, LayerOf, Heard, FirstAccept;
    attempts, best, opinions := [], None, map[];
    var shortlist: seq<string> := [];
    var metadata := r.shortlist;
    HeardNothing(p, r);
    for i := 0 to LAYERS
      invariant attempts == Attempts(p, r, i)
      invariant best == Best(p, r, i)
      invariant shortlist == Shortlist(p, r, i)
      invariant metadata == if i == 0 then r.shortlist else Metadata(p, r, i - 1)
      invariant forall j | 0 <= j < i :: !Accepts(p, r, j)
      invariant Heard(p, r, i, opinions)
    {
      HeardStep(p, r, i, opinions);
      if !Configured(p, i) {
        continue;
      }
      if i >= 2 && shortlist != [] && metadata.None? {
        metadata := Some(shortlist);
      }
      var verdict := Calibrated(p, Ask(p, r, i, metadata));
      assert Opinion(p, r, i) == Some(verdict);
      var threshold := ThresholdOf(p.thresholds, i);
      var usable := Usable(p, verdict);
      var isAccepted := usable && verdict.confidence >= threshold;
      attempts := attempts
        + [Attempt(LayerOf(i), verdict.intent, verdict.confidence, threshold, isAccepted, verdict.cost)];
      if isAccepted {
        FirstAcceptUnique(p, r, i);
        return Some((verdict, i)), attempts, best, opinions;
      }
      if usable {
        shortlist := Shortlisted(verdict, shortlist);
        opinions := opinions[i := verdict];
        if best.None? || verdict.confidence > best.value.0.confidence {
          best := Some((verdict, i));
        }
      }
    }
    FirstAcceptUnique(p, r, LAYERS);
    accepted := None;
  }

  lemma HeardNothing(p: Pipeline, r: Request)
    ensures Heard(p, r, 0, map[])
  {
  }

  /** The engine behind the caches: the layers, then agreement, then abstention. */
  method RunLayers(p: Pipeline, r: Request) returns (d: Decision)
    ensures d == Cold(p, r)
  {
    hide Usable, ThresholdOf, LayerOf, Agreed, Abstention, Attempts, Best, TotalCost, FirstAccept, Opinion;
    var accepted, attempts, best, opinions := AskLayers(p, r);
    if accepted.Some? {
      var verdict, i := accepted.value.0, accepted.value.1;
      assert Accepts(p, r, i);
      return Decision(Materialised(p, verdict, LayerOf(i)), attempts);
    }
    var agreed := Agreed(
      if 0 in opinions then Some(opinions[0]) else None, if 1 in opinions then Some(opinions[1]) else None,
      p.thresholds.agreementFloor);
    if agreed.Some? {
      AgreedUsable(p, r);
      return Decision(Materialised(p, agreed.value, EmbeddingLayer),
                      attempts + [Attempt(EmbeddingLayer, agreed.value.intent, agreed.value.confidence,
                                          p.thresholds.agreementFloor, true, 0.0)]);
    }
    return Decision(Abstention(best, TotalCost(attempts)),
                    attempts + [Attempt(AbstainLayer, None, if best.Some? then best.value.0.confidence else 0.0,
                                     if best.Some? then ThresholdOf(p.thresholds, best.value.1) else 0.0, true, 0.0)]);
  }
}
