/**
  Patterns that must stand between two word boundaries, as the shapes of personal data do. Replacing one
  of them leaves no match of it, and makes no match of another, although the replacement changes what
  stands next to the rest of the text.
 */
module PiiRedaction {
  import opened Wrappers
  import opened Redaction
  import opened Streaming

  /** Fixed-width alternatives that begin and end in a word character, and brackets are none. */
  ghost predicate Bounded(p: Regex, word: CharClass) {
    && Inert(p) && p.tail == {} && p.edge == WordBoundary(word) && '[' !in word && ']' !in word
    && forall k | 0 <= k < |p.alternatives| ::
         var alt := p.alternatives[k]; alt[0] <= word && alt[|alt| - 1] <= word
  }

  /** The character is missing or no word character. */
  predicate Gap(word: CharClass, c: Option<char>) {
    c.None? || c.value !in word
  }

  function CharAt(text: string, i: int): Option<char> {
    if 0 <= i < |text| then Some(text[i]) else None
  }

  /** An alternative fits at `at`, with a gap before it and behind it; `prev` stands in front of the text. */
  predicate FoundAt(p: Regex, word: CharClass, prev: Option<char>, text: string, at: nat, k: nat)
    requires k < |p.alternatives|
  {
    && Fits(p.alternatives[k], text, at)
    && Gap(word, if at == 0 then prev else CharAt(text, at - 1))
    && Gap(word, CharAt(text, at + |p.alternatives[k]|))
  }

  predicate Found(p: Regex, word: CharClass, prev: Option<char>, text: string, at: nat) {
    exists k | 0 <= k < |p.alternatives| :: FoundAt(p, word, prev, text, at, k)
  }

  lemma FitsEnds(p: Regex, word: CharClass, text: string, at: nat, k: nat)
    requires Bounded(p, word) && k < |p.alternatives| && Fits(p.alternatives[k], text, at)
    ensures at < |text| && text[at] in word && text[at + |p.alternatives[k]| - 1] in word
  {
    var alt := p.alternatives[k];
    assert text[at + 0] in alt[0] && text[at + (|alt| - 1)] in alt[|alt| - 1];
  }

  /** What a search finds is exactly an alternative with gaps on both sides. */
  lemma {:induction false} MatchIsFound(p: Regex, word: CharClass, text: string, at: nat, k: nat)
    requires Bounded(p, word) && at <= |text| && k <= |p.alternatives|
    ensures MatchFrom(p, text, at, k).Some?
       <==> exists j | k <= j < |p.alternatives| :: FoundAt(p, word, None, text, at, j)
    ensures MatchFrom(p, text, at, k).Some? ==>
      var end := MatchFrom(p, text, at, k).value;
      Gap(word, CharAt(text, at - 1)) && Gap(word, CharAt(text, end)) && text[end - 1] in word
    decreases |p.alternatives| - k
  {
    if k < |p.alternatives| {
      MatchIsFound(p, word, text, at, k + 1);
      if Fits(p.alternatives[k], text, at) {
        FitsEnds(p, word, text, at, k);
        var end := at + |p.alternatives[k]|;
        assert RunEnd({}, text, end) == end;
        assert FoundAt(p, word, None, text, at, k) <==> AtEdge(p.edge, text, at) && AtEdge(p.edge, text, end);
      }
    }
  }

  /** A bracket that ends an unchanged front is the text's own or begins a replacement. */
  lemma {:induction false} BracketBehindFront(p: Regex, text: string, at: nat, n: nat)
    requires at <= |text| && n < |SubFrom(p, text, at)|
    requires BracketFree(SubFrom(p, text, at)[..n]) && SubFrom(p, text, at)[n] == '['
    ensures at + n < |text| && (text[at + n] == '[' || MatchEnd(p, text, at + n).Some?)
    decreases n
  {
    var out := SubFrom(p, text, at);
    if n > 0 {
      assert out[0] == out[..n][0];
      var rest := SubFrom(p, text, at + 1);
      assert out == [text[at]] + rest && out[..n][1..] == rest[..n - 1];
      BracketBehindFront(p, text, at + 1, n - 1);
    }
  }

  /** A gap behind an unchanged front that ends in a word character was there before. */
  lemma GapOnlyOld(p: Regex, word: CharClass, text: string, at: nat, n: nat)
    requires Bounded(p, word) && at <= |text| && 0 < n <= |SubFrom(p, text, at)|
    requires BracketFree(SubFrom(p, text, at)[..n]) && SubFrom(p, text, at)[n - 1] in word
    requires Gap(word, CharAt(SubFrom(p, text, at), n))
    ensures Gap(word, CharAt(text, at + n))
  {
    var out := SubFrom(p, text, at);
    SubFront(p, text, at, n);
    assert '[' !in word;
    hide SubFrom, Bounded;
    if n < |out| {
      if out[n] == '[' {
        BracketBehindFront(p, text, at, n);
        assert out[..n][n - 1] == text[at..at + n][n - 1];
        if text[at + n] != '[' {
          GapAtMatch(p, word, text, at + n);
        }
      } else {
        assert forall i | 0 <= i < n :: out[..n + 1][i] == out[..n][i];
        SubFront(p, text, at, n + 1);
        assert out[..n + 1][n] == text[at..at + (n + 1)][n];
      }
    }
  }

  lemma GapAtMatch(p: Regex, word: CharClass, text: string, at: nat)
    requires Bounded(p, word) && 0 < at <= |text| && MatchEnd(p, text, at).Some?
    ensures text[at - 1] !in word
  {
    MatchIsFound(p, word, text, at, 0);
  }

  /** What is found at the start of a rest of the redacted text was there before. */
  lemma FoundOnlyOld(p: Regex, q: Regex, word: CharClass, text: string, at: nat, prev: Option<char>, k: nat)
    requires Bounded(p, word) && Bounded(q, word) && at <= |text| && k < |q.alternatives|
    requires Gap(word, prev) ==> Gap(word, CharAt(text, at - 1)) || Gap(word, CharAt(text, at))
    requires FoundAt(q, word, prev, SubFrom(p, text, at), 0, k)
    ensures FoundAt(q, word, None, text, at, k)
  {
    var out := SubFrom(p, text, at);
    var n := |q.alternatives[k]|;
    FitsBracketFree(q, k, out, 0);
    FitsEnds(q, word, out, 0, k);
    assert out[0..n] == out[..n];
    hide SubFrom, Bounded, Fits;
    SubFront(p, text, at, n);
    FitsAgree(q.alternatives[k], out, 0, text, at);
    FitsEnds(q, word, text, at, k);
    GapOnlyOld(p, word, text, at, n);
  }

  /** Found in a text behind its first characters is found in what stands behind them. */
  lemma FoundShift(
      q: Regex, word: CharClass, prev: Option<char>, front: string, rest: string, at: nat, k: nat)
    requires front != "" && k < |q.alternatives|
    ensures FoundAt(q, word, prev, front + rest, |front| + at, k)
       <==> FoundAt(q, word, Some(front[|front| - 1]), rest, at, k)
  {
    var alt := q.alternatives[k];
    if at + |alt| <= |rest| {
      assert (front + rest)[|front| + at..|front| + at + |alt|] == rest[at..at + |alt|];
      FitsAgree(alt, rest, at, front + rest, |front| + at);
    }
  }

  /** No match of `q` starts at or behind `at`, unless `q` is the pattern that is replaced. */
  ghost predicate NoneFrom(p: Regex, q: Regex, word: CharClass, text: string, at: nat) {
    p == q || forall i: nat | at <= i <= |text| :: !Found(q, word, None, text, i)
  }

  /** Replacing `p` leaves no match of it, and makes none of `q`. */
  lemma {:induction false} SubLeavesNone(
      p: Regex, q: Regex, word: CharClass, text: string, at: nat, prev: Option<char>)
    requires Bounded(p, word) && Bounded(q, word) && at <= |text| && NoneFrom(p, q, word, text, at)
    requires Gap(word, prev) ==> Gap(word, CharAt(text, at - 1)) || Gap(word, CharAt(text, at))
    ensures forall i: nat | i <= |SubFrom(p, text, at)| :: !Found(q, word, prev, SubFrom(p, text, at), i)
    decreases |text| - at
  {
    var out := SubFrom(p, text, at);
    if at == |text| {
      forall i: nat, k | i <= |out| && 0 <= k < |q.alternatives| ensures !FoundAt(q, word, prev, out, i, k) {
      }
    } else {
      MatchIsFound(p, word, text, at, 0);
      match MatchEnd(p, text, at) {
        case Some(end) =>
          var rest := SubFrom(p, text, end);
          SubLeavesNone(p, q, word, text, end, Some(']'));
          NoneBehind(q, word, prev, MARK, Some(']'), rest);
          forall i: nat | i < |MARK| ensures !Found(q, word, prev, out, i) {
            MarkOpensNothing(q, rest, i);
          }
        case None =>
          var rest := SubFrom(p, text, at + 1);
          SubLeavesNone(p, q, word, text, at + 1, Some(text[at]));
          NoneBehind(q, word, prev, [text[at]], Some(text[at]), rest);
          NothingAtStart(p, q, word, text, at, prev);
      }
    }
  }

  lemma NothingAtStart(p: Regex, q: Regex, word: CharClass, text: string, at: nat, prev: Option<char>)
    requires Bounded(p, word) && Bounded(q, word) && at < |text| && NoneFrom(p, q, word, text, at)
    requires Gap(word, prev) ==> Gap(word, CharAt(text, at - 1)) || Gap(word, CharAt(text, at))
    requires MatchEnd(p, text, at).None?
    ensures !Found(q, word, prev, SubFrom(p, text, at), 0)
  {
    MatchIsFound(p, word, text, at, 0);
    forall k | 0 <= k < |q.alternatives| ensures !FoundAt(q, word, prev, SubFrom(p, text, at), 0, k) {
      if FoundAt(q, word, prev, SubFrom(p, text, at), 0, k) {
        FoundOnlyOld(p, q, word, text, at, prev, k);
        assert Found(q, word, None, text, at);
      }
    }
  }

  lemma NoneBehind(q: Regex, word: CharClass, prev: Option<char>, front: string, last: Option<char>, rest: string)
    requires front != "" && last == Some(front[|front| - 1])
    requires forall i: nat | i <= |rest| :: !Found(q, word, last, rest, i)
    ensures forall i: nat | |front| <= i <= |front + rest| :: !Found(q, word, prev, front + rest, i)
  {
    forall i: nat | |front| <= i <= |front + rest| ensures !Found(q, word, prev, front + rest, i) {
      forall k | 0 <= k < |q.alternatives| ensures !FoundAt(q, word, prev, front + rest, i, k) {
        FoundShift(q, word, prev, front, rest, i - |front|, k);
        assert !Found(q, word, last, rest, i - |front|);
      }
    }
  }

  lemma NoMatchIsNone(q: Regex, word: CharClass, text: string)
    requires Bounded(q, word)
    ensures !Matches(q, text) <==> forall i: nat | i <= |text| :: !Found(q, word, None, text, i)
  {
    forall i: nat | i <= |text| ensures MatchEnd(q, text, i).Some? <==> Found(q, word, None, text, i) {
      MatchIsFound(q, word, text, i, 0);
    }
  }

  /** Once a list of such patterns was replaced no search for any of them succeeds. */
  lemma {:induction false} RedactLeavesNone(patterns: seq<Regex>, q: Regex, word: CharClass, text: string)
    requires Bounded(q, word) && (forall p | p in patterns :: Bounded(p, word))
    requires q in patterns || !Matches(q, text)
    ensures !Matches(q, Redact(patterns, text))
  {
    if patterns != [] {
      hide Matches, Bounded, Found;
      var n := |patterns| - 1;
      var before := Redact(patterns[..n], text);
      assert patterns == patterns[..n] + [patterns[n]];
      NoMatchIsNone(q, word, before);
      if q != patterns[n] {
        RedactLeavesNone(patterns[..n], q, word, text);
      }
      SubLeavesNone(patterns[n], q, word, before, 0, None);
      NoMatchIsNone(q, word, Sub(patterns[n], before));
    }
  }

  /**
    One evaluation that finds no secret leaves no personal data: no search for any of the shapes succeeds
    in the text it passes on.
   */
  lemma EvaluationLeavesNoPii(engine: OutputGuardrail, word: CharClass, holdback: nat, text: string, final: bool)
    requires forall p | p in engine.pii :: Bounded(p, word)
    requires forall p | p in engine.secrets :: !Matches(p, text)
    ensures var r := Release(engine, holdback, text, final);
      !r.decision.action.Block? ==> forall q | q in engine.pii :: !Matches(q, r.emit + r.buffer)
  {
    hide Matches, Bounded;
    var r := Release(engine, holdback, text, final);
    if !r.decision.action.Block? {
      forall q | q in engine.pii ensures !Matches(q, Redact(engine.pii, text)) {
        RedactLeavesNone(engine.pii, q, word, text);
      }
      if exists p :: p in engine.pii && Matches(p, text) {
        assert r.emit + r.buffer == Redact(engine.pii, text);
      } else {
        assert r.emit + r.buffer == text;
      }
    }
  }
}
