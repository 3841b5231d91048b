/** What the layers are asked, what they are shown, and on which parts of a request their answer can depend. */
module CascadeLayers {
  import opened Wrappers
  import opened IntentSchema
  import opened SemanticCache
  import opened Cascade

  // ------------------------------------------------------------- the shortlist

  function IntentsOf(alternatives: seq<Alternative>): seq<string> {
    seq(|alternatives|, k requires 0 <= k < |alternatives| => alternatives[k].intent)
  }

  /** Every intent a verdict mentions: its own first, then the alternatives. */
  function Mentioned(v: ClassifierVerdict): seq<string> {
    (if v.intent.Some? then [v.intent.value] else []) + IntentsOf(v.alternatives)
  }

  /** The names without empty ones and repetitions. */
  function Firsts(names: seq<string>): seq<string> {
    if names == [] then []
    else
      var before, last := names[..|names| - 1], names[|names| - 1];
      Firsts(before) + if last == "" || last in before then [] else [last]
  }

  function FirstEight(names: seq<string>): seq<string> {
    if |names| <= 8 then names else names[..8]
  }

  lemma {:induction false} FirstsMembers(names: seq<string>, x: string)
    ensures x in Firsts(names) <==> x in names && x != ""
  {
    if names != [] {
      var before, last := names[..|names| - 1], names[|names| - 1];
      assert names == before + [last];
      FirstsMembers(before, x);
    }
  }

  lemma CandidateIsFirst(names: seq<string>, x: string)
    ensures AddCandidate(Firsts(names), x) == Firsts(names + [x])
  {
    FirstsMembers(names, x);
    assert (names + [x])[..|names|] == names;
    assert Firsts(names) + [] == Firsts(names);
  }

  lemma {:induction false} AlternativesAreFirsts(names: seq<string>, alternatives: seq<Alternative>)
    ensures AddAlternatives(Firsts(names), alternatives) == Firsts(names + IntentsOf(alternatives))
    decreases |alternatives|
  {
    IntentsStep(alternatives, names);
    hide Firsts, AddCandidate, IntentsOf;
    if alternatives != [] {
      CandidateIsFirst(names, alternatives[0].intent);
      AlternativesAreFirsts(names + [alternatives[0].intent], alternatives[1..]);
    }
  }

  lemma IntentsStep(alternatives: seq<Alternative>, names: seq<string>)
    ensures names + IntentsOf(alternatives)
         == if alternatives == [] then names
            else (names + [alternatives[0].intent]) + IntentsOf(alternatives[1..])
  {
  }

  lemma {:induction false} AlternativesExtend(candidates: seq<string>, alternatives: seq<Alternative>)
    ensures candidates <= AddAlternatives(candidates, alternatives)
    decreases |alternatives|
  {
    if alternatives != [] {
      AlternativesExtend(AddCandidate(candidates, alternatives[0].intent), alternatives[1..]);
    }
  }

  /** The shortlist without its bound. */
  function Extended(v: ClassifierVerdict, candidates: seq<string>): seq<string> {
    AddAlternatives(if v.intent.Some? then AddCandidate(candidates, v.intent.value) else candidates, v.alternatives)
  }

  lemma ExtendedIsFirsts(v: ClassifierVerdict, names: seq<string>)
    ensures Extended(v, Firsts(names)) == Firsts(names + Mentioned(v))
  {
    var own := if v.intent.Some? then [v.intent.value] else [];
    if v.intent.Some? {
      CandidateIsFirst(names, v.intent.value);
    } else {
      assert names + own == names;
    }
    AlternativesAreFirsts(names + own, v.alternatives);
    assert (names + own) + IntentsOf(v.alternatives) == names + Mentioned(v);
  }

  /** Cutting to eight before extending changes nothing of the first eight. */
  lemma CutBefore(v: ClassifierVerdict, candidates: seq<string>)
    ensures FirstEight(Extended(v, FirstEight(candidates))) == FirstEight(Extended(v, candidates))
  {
    if |candidates| > 8 {
      ExtendedExtends(v, candidates);
      ExtendedExtends(v, FirstEight(candidates));
      assert candidates[..8] <= Extended(v, candidates);
    }
  }

  lemma ExtendedExtends(v: ClassifierVerdict, candidates: seq<string>)
    ensures candidates <= Extended(v, candidates)
  {
    AlternativesExtend(if v.intent.Some? then AddCandidate(candidates, v.intent.value) else candidates, v.alternatives);
  }

  lemma ShortlistedFirsts(v: ClassifierVerdict, names: seq<string>)
    ensures Shortlisted(v, FirstEight(Firsts(names))) == FirstEight(Firsts(names + Mentioned(v)))
  {
    CutBefore(v, Firsts(names));
    ExtendedIsFirsts(v, names);
    hide Firsts, Mentioned, AddCandidate, AddAlternatives;
  }

  /** The names one more layer mentions. */
  function MentionedBy(p: Pipeline, o: Option<ClassifierVerdict>): seq<string> {
    match o
    case Some(v) => if v.intent.Some? && v.intent.value in p.taxonomy then Mentioned(v) else []
    case None => []
  }

  /** All that the layers before `i` mentioned, in order; a verdict outside the taxonomy does not count. */
  function Mentions(p: Pipeline, r: Request, i: nat): seq<string>
    requires i <= LAYERS
  {
    if i == 0 then [] else Mentions(p, r, i - 1) + MentionedBy(p, Opinion(p, r, i - 1))
  }

  lemma ShortlistStep(p: Pipeline, r: Request, i: nat, names: seq<string>)
    requires i < LAYERS && Shortlist(p, r, i) == FirstEight(Firsts(names))
    ensures Shortlist(p, r, i + 1) == FirstEight(Firsts(names + MentionedBy(p, Opinion(p, r, i))))
  {
    hide Opinion, Shortlisted, Firsts, FirstEight, Mentioned;
    assert names + [] == names;
    if Opinion(p, r, i).Some? {
      ShortlistedFirsts(Opinion(p, r, i).value, names);
    }
  }

  /** The shortlist is the first eight different names that usable verdicts of earlier layers mentioned. */
  lemma {:induction false} ShortlistExact(p: Pipeline, r: Request, i: nat)
    requires i <= LAYERS
    ensures Shortlist(p, r, i) == FirstEight(Firsts(Mentions(p, r, i)))
  {
    NothingShortlisted(p, r);
    hide Opinion, Shortlist, Firsts, FirstEight, MentionedBy;
    if i > 0 {
      ShortlistExact(p, r, i - 1);
      ShortlistStep(p, r, i - 1, Mentions(p, r, i - 1));
    }
  }

  lemma NothingShortlisted(p: Pipeline, r: Request)
    ensures Shortlist(p, r, 0) == FirstEight(Firsts([]))
  {
  }

  // ------------------------------------------------- what each layer is asked

  /** The verdict as recorded: with an intent its confidence is calibrated, if there is a calibrator. */
  ghost predicate Calibrates(p: Pipeline, raw: ClassifierVerdict, v: ClassifierVerdict) {
    && v.intent == raw.intent && v.alternatives == raw.alternatives && v.cost == raw.cost
    && v.confidence == if raw.intent.Some? && p.calibrate.Some? then p.calibrate.value(raw.confidence)
                       else raw.confidence
  }

  /** The opinion is the classifier's answer to this prompt and shortlist, and there is none without a classifier. */
  ghost predicate Answered(
      p: Pipeline, c: Option<Classifier>, prompt: Prompt, shown: Option<seq<string>>, o: Option<ClassifierVerdict>)
  {
    match c
    case None => o.None?
    case Some(classifier) => o.Some? && Calibrates(p, classifier(prompt, shown), o.value)
  }

  /** A shortlist of the caller's is left alone; otherwise a layer is shown one only if it has entries. */
  function ShownOr(given: Option<seq<string>>, names: seq<string>): Option<seq<string>> {
    if given.Some? then given else if names == [] then None else Some(names)
  }

  /** The prompt as the layers see it: the text is cut to its bound, nothing else is changed. */
  function Seen(p: Pipeline, r: Request): Prompt {
    Prompt(p.bound(r.prompt.text), r.prompt.language, r.prompt.policyVersion, r.prompt.conversation)
  }

  /** The vector the embedder gives for that text, unless it fails or is empty. */
  ghost predicate Embeds(e: Embedding, text: string, v: Option<Vector>) {
    match v
    case Some(x) => x != [] && e.embed(text) == Some(x)
    case None => e.embed(text).None? || e.embed(text).value == []
  }

  /** The shortlist the structured layer is shown, and the one the escalation layer is shown. */
  function ShownThird(p: Pipeline, r: Request): Option<seq<string>> {
    ShownOr(r.shortlist, FirstEight(Firsts(Mentions(p, r, 2))))
  }

  function ShownFourth(p: Pipeline, r: Request): Option<seq<string>> {
    ShownOr(if p.structured.Some? then ShownThird(p, r) else r.shortlist, FirstEight(Firsts(Mentions(p, r, 3))))
  }

  lemma MetadataShown(p: Pipeline, r: Request)
    ensures Metadata(p, r, 0) == r.shortlist && Metadata(p, r, 1) == r.shortlist
    ensures Metadata(p, r, 2) == if p.structured.Some? then ShownThird(p, r) else r.shortlist
    ensures p.escalation.Some? ==> Metadata(p, r, 3) == ShownFourth(p, r)
  {
    ShortlistExact(p, r, 2);
    ShortlistExact(p, r, 3);
    hide Shortlist, Mentions, Firsts, FirstEight;
    assert Metadata(p, r, 1) == Metadata(p, r, 0);
  }

  lemma CalibratedMeaning(p: Pipeline, raw: ClassifierVerdict)
    ensures Calibrates(p, raw, Calibrated(p, raw))
  {
  }

  lemma VectorMeaning(p: Pipeline, r: Request)
    ensures match p.embedding
      case None => VectorOf(p, r).None?
      case Some(e) => Embeds(e, Seen(p, r).text, VectorOf(p, r))
  {
  }

  /**
    Who is asked what. All layers see the bounded prompt. Rules, and embedding when there is no vector,
    are shown the caller's shortlist; with a vector the embedding layer scores that and nothing else. The
    structured layer is shown the caller's shortlist or else the names mentioned so far, and the escalation
    layer what the structured one was shown, or else the names mentioned by then.
   */
  lemma LayersAsked(p: Pipeline, r: Request)
    ensures Answered(p, p.rules, Seen(p, r), r.shortlist, Opinion(p, r, 0))
    ensures match p.embedding
      case None => Opinion(p, r, 1).None?
      case Some(e) =>
        Embeds(e, Seen(p, r).text, VectorOf(p, r)) && Opinion(p, r, 1).Some?
        && Calibrates(
             p, if VectorOf(p, r).Some? then e.score(VectorOf(p, r).value) else e.classify(Seen(p, r), r.shortlist),
             Opinion(p, r, 1).value)
    ensures Answered(p, p.structured, Seen(p, r), ShownThird(p, r), Opinion(p, r, 2))
    ensures Answered(p, p.escalation, Seen(p, r), ShownFourth(p, r), Opinion(p, r, 3))
  {
    MetadataShown(p, r);
    VectorMeaning(p, r);
    assert Bounded(p, r) == Seen(p, r);
    hide Metadata, ShownThird, ShownFourth, Calibrates, Embeds, Calibrated, VectorOf, Seen, Bounded;
    forall i: nat | i < LAYERS && Configured(p, i)
      ensures Calibrates(p, Ask(p, r, i, Metadata(p, r, i)), Opinion(p, r, i).value)
    {
      CalibratedMeaning(p, Ask(p, r, i, Metadata(p, r, i)));
    }
  }

  // --------------------------------------- what an answer can depend on

  /** Two requests with one shortlist to which every configured layer would answer alike. */
  ghost predicate AnsweredAlike(p: Pipeline, r1: Request, r2: Request) {
    && r1.shortlist == r2.shortlist
    && forall i: nat, shortlist | i < LAYERS && Configured(p, i) :: Ask(p, r1, i, shortlist) == Ask(p, r2, i, shortlist)
  }

  lemma {:induction false} SameBefore(p: Pipeline, r1: Request, r2: Request, i: nat)
    requires AnsweredAlike(p, r1, r2) && i <= LAYERS
    ensures Shortlist(p, r1, i) == Shortlist(p, r2, i)
    ensures i > 0 ==> Metadata(p, r1, i - 1) == Metadata(p, r2, i - 1) && Opinion(p, r1, i - 1) == Opinion(p, r2, i - 1)
  {
    hide Ask, Calibrated, Shortlisted;
    if i > 0 {
      SameBefore(p, r1, r2, i - 1);
      assert Metadata(p, r1, i - 1) == Metadata(p, r2, i - 1);
      assert Configured(p, i - 1) ==>
        Ask(p, r1, i - 1, Metadata(p, r1, i - 1)) == Ask(p, r2, i - 1, Metadata(p, r1, i - 1));
    }
  }

  lemma {:induction false} SameFirst(p: Pipeline, r1: Request, r2: Request, i: nat)
    requires AnsweredAlike(p, r1, r2) && i <= LAYERS
    ensures FirstAccept(p, r1, i) == FirstAccept(p, r2, i)
    decreases LAYERS - i
  {
    hide Opinion, AnsweredAlike;
    if i < LAYERS {
      SameBefore(p, r1, r2, i + 1);
      SameFirst(p, r1, r2, i + 1);
    }
  }

  lemma {:induction false} SameRecord(p: Pipeline, r1: Request, r2: Request, i: nat)
    requires AnsweredAlike(p, r1, r2) && i <= LAYERS
    ensures Attempts(p, r1, i) == Attempts(p, r2, i) && Best(p, r1, i) == Best(p, r2, i)
  {
    hide Opinion, AnsweredAlike;
    if i > 0 {
      SameBefore(p, r1, r2, i);
      SameRecord(p, r1, r2, i - 1);
    }
  }

  /** Such requests get the same cold decision, attempts and all. */
  lemma SameCold(p: Pipeline, r1: Request, r2: Request)
    requires AnsweredAlike(p, r1, r2)
    ensures Cold(p, r1) == Cold(p, r2)
  {
    var k := FirstAccept(p, r1, 0);
    SameFirst(p, r1, r2, 0);
    SameBefore(p, r1, r2, 1);
    SameBefore(p, r1, r2, 2);
    SameRecord(p, r1, r2, LAYERS);
    if k < LAYERS {
      SameBefore(p, r1, r2, k + 1);
      SameRecord(p, r1, r2, k + 1);
    }
    hide Opinion, AnsweredAlike, Attempts, Best, FirstAccept, Agreed, Abstention, TotalCost;
  }

  /** Nothing beyond the bound of the text has any influence on the layers. */
  lemma BoundDecides(p: Pipeline, r1: Request, r2: Request)
    requires p.bound(r1.prompt.text) == p.bound(r2.prompt.text)
    requires r1.prompt == r2.prompt.(text := r1.prompt.text) && r1.shortlist == r2.shortlist
    ensures Cold(p, r1) == Cold(p, r2)
  {
    assert Bounded(p, r1) == Bounded(p, r2);
    hide Cold;
    SameCold(p, r1, r2);
  }
}
