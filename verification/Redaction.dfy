/**
  Pattern substitution as the guardrails use it: a pattern is a list of alternatives, each a
  list of character classes, optionally followed by a greedy run of one more class, and
  optionally required to sit between two word boundaries. `Sub` is leftmost, non-overlapping
  replacement by MARK.
 */
module Redaction {
  import opened Wrappers

  const MARK: string := "[REDACTED]"

  type CharClass = set<char>

  /** Where a match may start and end: anywhere, or only at boundaries of the given word characters. */
  datatype Edge = Anywhere | WordBoundary(word: CharClass)

  /** A non-empty `tail` extends every match by the longest run of that class. */
  datatype Pattern = Pattern(alternatives: seq<seq<CharClass>>, tail: CharClass, edge: Edge)

  /** No alternative is empty, so that a substitution always advances. */
  predicate Advances(p: Pattern) {
    forall k | 0 <= k < |p.alternatives| :: 0 < |p.alternatives[k]|
  }

  type Regex = p: Pattern | Advances(p) witness Pattern([], {}, Anywhere)

  // ---------------------------------------------------------------- matching

  predicate Fits(classes: seq<CharClass>, text: string, at: nat) {
    && at + |classes| <= |text|
    && forall k | 0 <= k < |classes| :: text[at + k] in classes[k]
  }

  function RunEnd(tail: CharClass, text: string, at: nat): (end: nat)
    requires at <= |text|
    ensures at <= end <= |text|
    decreases |text| - at
  {
    if at < |text| && text[at] in tail then RunEnd(tail, text, at + 1) else at
  }

  predicate AtEdge(edge: Edge, text: string, at: nat)
    requires at <= |text|
  {
    match edge
    case Anywhere => true
    case WordBoundary(word) =>
      (0 < at && text[at - 1] in word) != (at < |text| && text[at] in word)
  }

  /** The end of the match at `at`, trying the alternatives from number `k` on in order. */
  function MatchFrom(p: Regex, text: string, at: nat, k: nat): (end: Option<nat>)
    requires at <= |text| && k <= |p.alternatives|
    ensures end.Some? ==> at < end.value <= |text|
    decreases |p.alternatives| - k
  {
    if k == |p.alternatives| then None
    else if Fits(p.alternatives[k], text, at) && AtEdge(p.edge, text, at) then
      var end := RunEnd(p.tail, text, at + |p.alternatives[k]|);
      if AtEdge(p.edge, text, end) then Some(end) else MatchFrom(p, text, at, k + 1)
    else MatchFrom(p, text, at, k + 1)
  }

  function MatchEnd(p: Regex, text: string, at: nat): (end: Option<nat>)
    requires at <= |text|
    ensures end.Some? ==> at < end.value <= |text|
  {
    MatchFrom(p, text, at, 0)
  }

  predicate Matches(p: Regex, text: string) {
    exists at: nat | at <= |text| :: MatchEnd(p, text, at).Some?
  }

  // ------------------------------------------------------------ substitution

  function SubFrom(p: Regex, text: string, at: nat): string
    requires at <= |text|
    decreases |text| - at
  {
    if at == |text| then ""
    else
      match MatchEnd(p, text, at)
      case Some(end) => MARK + SubFrom(p, text, end)
      case None => [text[at]] + SubFrom(p, text, at + 1)
  }

  function Sub(p: Regex, text: string): string {
    SubFrom(p, text, 0)
  }

  /** Substitute the patterns one after the other, the first one first. */
  function Redact(patterns: seq<Regex>, text: string): string {
    if patterns == [] then text
    else Sub(patterns[|patterns| - 1], Redact(patterns[..|patterns| - 1], text))
  }

  method RedactText(patterns: seq<Regex>, text: string) returns (redacted: string)
    ensures redacted == Redact(patterns, text)
  {
    redacted := text;
    for i := 0 to |patterns|
      invariant redacted == Redact(patterns[..i], text)
    {
      assert patterns[..i + 1][..i] == patterns[..i];
      redacted := Sub(patterns[i], redacted);
    }
    assert patterns[..|patterns|] == patterns;
  }

  // ------------------------------------------- what a substitution leaves alone

  ghost predicate BracketFree(text: string) {
    forall k | 0 <= k < |text| :: text[k] != '['
  }

  /** Up to its first bracket a redacted text is the original, and without one it is all of it. */
  lemma {:induction false} SubFront(p: Regex, text: string, at: nat, n: nat)
    requires at <= |text|
    requires n <= |SubFrom(p, text, at)| && BracketFree(SubFrom(p, text, at)[..n])
    ensures at + n <= |text| && SubFrom(p, text, at)[..n] == text[at..at + n]
    ensures n == |SubFrom(p, text, at)| ==> at + n == |text|
    decreases |text| - at
  {
    if n > 0 && at < |text| {
      var out := SubFrom(p, text, at);
      assert out[0] == out[..n][0];
      assert MatchEnd(p, text, at).None?;
      var rest := SubFrom(p, text, at + 1);
      assert out == [text[at]] + rest;
      assert out[..n][1..] == rest[..n - 1];
      SubFront(p, text, at + 1, n - 1);
      assert out[..n] == [text[at]] + rest[..n - 1];
    }
  }

  lemma {:induction false} RedactFront(patterns: seq<Regex>, text: string, n: nat)
    requires n <= |Redact(patterns, text)| && BracketFree(Redact(patterns, text)[..n])
    ensures n <= |text| && Redact(patterns, text)[..n] == text[..n]
    ensures n == |Redact(patterns, text)| ==> n == |text|
  {
    if patterns != [] {
      var front := patterns[..|patterns| - 1];
      SubFront(patterns[|patterns| - 1], Redact(front, text), 0, n);
      RedactFront(front, text, n);
    }
  }

  // ------------------------------------------------------ secrets and cleanliness

  /** Some alternative of `p` fits at `at`: where a match starts, for an unanchored pattern exactly there. */
  predicate Opens(p: Regex, text: string, at: nat) {
    exists k | 0 <= k < |p.alternatives| :: Fits(p.alternatives[k], text, at)
  }

  /** No alternative of `p` fits anywhere in `text`. */
  predicate Clean(p: Regex, text: string) {
    forall at: nat | at <= |text| :: !Opens(p, text, at)
  }

  /** No alternative can contain a bracket. */
  ghost predicate NoBrackets(p: Regex) {
    forall k, j | 0 <= k < |p.alternatives| && 0 <= j < |p.alternatives[k]| ::
      '[' !in p.alternatives[k][j] && ']' !in p.alternatives[k][j]
  }

  /** A pattern that can overlap the replacement mark neither in part nor in whole. */
  ghost predicate Inert(p: Regex) {
    NoBrackets(p) && Clean(p, MARK)
  }

  lemma {:induction false} MatchFromOpens(p: Regex, text: string, at: nat, k: nat)
    requires at <= |text| && k <= |p.alternatives|
    ensures MatchFrom(p, text, at, k).Some?
        ==> exists j | k <= j < |p.alternatives| :: Fits(p.alternatives[j], text, at)
    ensures p.edge.Anywhere? && MatchFrom(p, text, at, k).None?
        ==> forall j | k <= j < |p.alternatives| :: !Fits(p.alternatives[j], text, at)
    decreases |p.alternatives| - k
  {
    if k < |p.alternatives| {
      MatchFromOpens(p, text, at, k + 1);
    }
  }

  /** In a clean text a search fails, and for an unanchored pattern it fails only there. */
  lemma CleanIsNoMatch(p: Regex, text: string)
    ensures Clean(p, text) ==> !Matches(p, text)
    ensures p.edge.Anywhere? && !Matches(p, text) ==> Clean(p, text)
  {
    forall at: nat | at <= |text|
      ensures MatchEnd(p, text, at).Some? ==> Opens(p, text, at)
      ensures p.edge.Anywhere? && Opens(p, text, at) ==> MatchEnd(p, text, at).Some?
    {
      MatchFromOpens(p, text, at, 0);
    }
  }

  /** Two texts that agree over an alternative's width agree on whether it fits. */
  lemma FitsAgree(classes: seq<CharClass>, s: string, i: nat, t: string, j: nat)
    requires i + |classes| <= |s| && j + |classes| <= |t|
    requires s[i..i + |classes|] == t[j..j + |classes|]
    ensures Fits(classes, s, i) <==> Fits(classes, t, j)
  {
    forall k | 0 <= k < |classes| ensures s[i + k] in classes[k] <==> t[j + k] in classes[k] {
      assert s[i..i + |classes|][k] == t[j..j + |classes|][k];
    }
  }

  /** An occurrence only looks at the text from its start on. */
  lemma OpensShift(p: Regex, before: string, text: string, at: nat)
    ensures Opens(p, before + text, |before| + at) <==> Opens(p, text, at)
  {
    forall k | 0 <= k < |p.alternatives|
      ensures Fits(p.alternatives[k], before + text, |before| + at) <==> Fits(p.alternatives[k], text, at)
    {
      if at + |p.alternatives[k]| <= |text| {
        assert (before + text)[|before| + at..|before| + at + |p.alternatives[k]|]
            == text[at..at + |p.alternatives[k]|];
        FitsAgree(p.alternatives[k], text, at, before + text, |before| + at);
      }
    }
  }

  /** No occurrence of an inert pattern starts inside the mark. */
  lemma MarkOpensNothing(p: Regex, rest: string, at: nat)
    requires Inert(p) && at < |MARK|
    ensures !Opens(p, MARK + rest, at)
  {
    forall k | 0 <= k < |p.alternatives|
      ensures !Fits(p.alternatives[k], MARK + rest, at)
    {
      var alt := p.alternatives[k];
      if at + |alt| <= |MARK| {
        assert (MARK + rest)[at..at + |alt|] == MARK[at..at + |alt|];
        FitsAgree(alt, MARK, at, MARK + rest, at);
        assert !Opens(p, MARK, at);
      } else {
        var j := |MARK| - 1 - at;
        assert ']' !in p.alternatives[k][j];
        assert at + |alt| <= |MARK + rest| ==> (MARK + rest)[at + j] !in alt[j];
      }
    }
  }

  /** The characters of an occurrence of a bracket-free pattern are not brackets. */
  lemma FitsBracketFree(p: Regex, k: nat, text: string, at: nat)
    requires NoBrackets(p) && k < |p.alternatives| && Fits(p.alternatives[k], text, at)
    ensures BracketFree(text[at..at + |p.alternatives[k]|])
  {
    var occurrence := text[at..at + |p.alternatives[k]|];
    forall j | 0 <= j < |occurrence| ensures occurrence[j] != '[' {
      assert text[at + j] in p.alternatives[k][j];
    }
  }

  /**
    Substituting `p` leaves no occurrence of an inert pattern `q` that was not there before,
    and none at all when `q` is `p` itself, unanchored.
   */
  lemma {:induction false} SubClean(p: Regex, q: Regex, text: string, at: nat)
    requires Inert(q) && at <= |text|
    requires (p == q && p.edge.Anywhere?) || forall i: nat | at <= i <= |text| :: !Opens(q, text, i)
    ensures Clean(q, SubFrom(p, text, at))
    decreases |text| - at
  {
    var out := SubFrom(p, text, at);
    if at == |text| {
      assert out == "";
    } else {
      match MatchEnd(p, text, at) {
        case Some(end) =>
          var rest := SubFrom(p, text, end);
          SubClean(p, q, text, end);
          forall i: nat | i <= |out| ensures !Opens(q, out, i) {
            if i < |MARK| {
              MarkOpensNothing(q, rest, i);
            } else {
              OpensShift(q, MARK, rest, i - |MARK|);
            }
          }
        case None =>
          var rest := SubFrom(p, text, at + 1);
          SubClean(p, q, text, at + 1);
          forall i: nat | i <= |out| ensures !Opens(q, out, i) {
            if i == 0 {
              SubOpensOnlyOld(p, q, text, at);
              MatchFromOpens(q, text, at, 0);
            } else {
              OpensShift(q, [text[at]], rest, i - 1);
            }
          }
      }
    }
  }

  lemma SubOpensOnlyOld(p: Regex, q: Regex, text: string, at: nat)
    requires NoBrackets(q) && at <= |text|
    ensures Opens(q, SubFrom(p, text, at), 0) ==> Opens(q, text, at)
  {
    var out := SubFrom(p, text, at);
    if Opens(q, out, 0) {
      var k :| 0 <= k < |q.alternatives| && Fits(q.alternatives[k], out, 0);
      var n := |q.alternatives[k]|;
      FitsBracketFree(q, k, out, 0);
      SubFront(p, text, at, n);
      FitsAgree(q.alternatives[k], out, 0, text, at);
    }
  }

  /** After redaction no unanchored inert pattern of the list occurs, nor any that did not occur before. */
  lemma {:induction false} RedactClean(patterns: seq<Regex>, q: Regex, text: string)
    requires Inert(q)
    requires (q in patterns && q.edge.Anywhere?) || Clean(q, text)
    ensures Clean(q, Redact(patterns, text))
  {
    if patterns != [] {
      var n := |patterns| - 1;
      var before := Redact(patterns[..n], text);
      assert patterns == patterns[..n] + [patterns[n]];
      if q != patterns[n] || !q.edge.Anywhere? {
        RedactClean(patterns[..n], q, text);
      }
      SubClean(patterns[n], q, before, 0);
    }
  }

  /** Substitution leaves a clean rest of a text as it is. */
  lemma {:induction false} SubIdentity(p: Regex, text: string, at: nat)
    requires at <= |text|
    requires forall i: nat | at <= i <= |text| :: !Opens(p, text, i)
    ensures SubFrom(p, text, at) == text[at..]
    decreases |text| - at
  {
    if at < |text| {
      assert !Opens(p, text, at);
      MatchFromOpens(p, text, at, 0);
      SubIdentity(p, text, at + 1);
      assert text[at..] == [text[at]] + text[at + 1..];
    }
  }

  /** When only `p` occurs, redaction with the whole list is substitution of `p`. */
  lemma {:induction false} RedactOnly(patterns: seq<Regex>, p: Regex, text: string)
    requires p.edge.Anywhere? && Inert(p)
    requires forall q | q in patterns :: q == p || (Inert(q) && Clean(q, text))
    ensures Redact(patterns, text) == if p in patterns then Sub(p, text) else text
  {
    if patterns != [] {
      var n := |patterns| - 1;
      var before, q := Redact(patterns[..n], text), patterns[n];
      assert patterns == patterns[..n] + [q];
      RedactOnly(patterns[..n], p, text);
      if q != p {
        RedactClean(patterns[..n], q, text);
        SubIdentity(q, before, 0);
      } else if p in patterns[..n] {
        SubClean(p, p, text, 0);
        SubIdentity(p, before, 0);
      }
    }
  }
}
