/**
  Chunking: when does the released stream equal the redaction of the whole text, whatever the
  deltas were? It does for patterns no occurrence of which can hide inside a longer one.
 */
module Chunking {
  import opened Wrappers
  import opened Redaction
  import opened Streaming

  /** No alternative fits strictly inside an occurrence of another, and no greedy tail extends one. */
  ghost predicate SelfContained(p: Regex) {
    && Inert(p) && p.edge.Anywhere? && p.tail == {}
    && forall a, b, j: nat, text: string ::
         a in p.alternatives && b in p.alternatives && Fits(a, text, 0) && Fits(b, text, j)
         ==> j + |b| >= |a|
  }

  // ------------------------------------------------------- substitution on suffixes

  lemma {:induction false} RunEndShift(tail: CharClass, before: string, text: string, at: nat)
    requires at <= |text|
    ensures RunEnd(tail, before + text, |before| + at) == |before| + RunEnd(tail, text, at)
    decreases |text| - at
  {
    if at < |text| {
      RunEndShift(tail, before, text, at + 1);
    }
  }

  lemma {:induction false} MatchFromShift(p: Regex, before: string, text: string, at: nat, k: nat)
    requires p.edge.Anywhere? && at <= |text| && k <= |p.alternatives|
    ensures MatchFrom(p, before + text, |before| + at, k)
         == match MatchFrom(p, text, at, k)
            case Some(end) => Some(|before| + end)
            case None => None
    decreases |p.alternatives| - k
  {
    hide RunEnd;
    if k < |p.alternatives| {
      var alt := p.alternatives[k];
      if at + |alt| <= |text| {
        assert (before + text)[|before| + at..|before| + at + |alt|] == text[at..at + |alt|];
        FitsAgree(alt, text, at, before + text, |before| + at);
        RunEndShift(p.tail, before, text, at + |alt|);
      }
      MatchFromShift(p, before, text, at, k + 1);
    }
  }

  lemma {:induction false} SubFromShift(p: Regex, before: string, text: string, at: nat)
    requires p.edge.Anywhere? && at <= |text|
    ensures SubFrom(p, before + text, |before| + at) == SubFrom(p, text, at)
    decreases |text| - at
  {
    hide MatchFrom;
    if at < |text| {
      MatchFromShift(p, before, text, at, 0);
      match MatchEnd(p, text, at) {
        case Some(end) => SubFromShift(p, before, text, end);
        case None => SubFromShift(p, before, text, at + 1);
      }
    }
  }

  lemma SubPassesOne(p: Regex, c: char, rest: string)
    requires p.edge.Anywhere? && !Opens(p, [c] + rest, 0)
    ensures Sub(p, [c] + rest) == [c] + Sub(p, rest)
  {
    MatchFromOpens(p, [c] + rest, 0, 0);
    SubFromShift(p, [c], rest, 0);
    hide Opens, MatchFrom;
  }

  /** A scan passes over a front in which nothing opens. */
  lemma {:induction false} SubPassesOver(p: Regex, front: string, rest: string)
    requires p.edge.Anywhere?
    requires forall i: nat | i < |front| :: !Opens(p, front + rest, i)
    ensures Sub(p, front + rest) == front + Sub(p, rest)
    decreases |front|
  {
    if front == "" {
      assert front + rest == rest;
    } else {
      var text := front + rest;
      var tail := front[1..] + rest;
      assert text == [front[0]] + tail;
      assert !Opens(p, text, 0);
      hide Opens, Sub;
      SubPassesOne(p, front[0], tail);
      forall i: nat | i < |front[1..]| ensures !Opens(p, front[1..] + rest, i) {
        OpensShift(p, [front[0]], tail, i);
        assert !Opens(p, text, 1 + i);
      }
      SubPassesOver(p, front[1..], rest);
      assert front + Sub(p, rest) == [front[0]] + (front[1..] + Sub(p, rest));
    }
  }

  /** A scan that starts with a match up to `n` replaces it and goes on behind it. */
  lemma SubAtMatch(p: Regex, text: string, n: nat)
    requires p.edge.Anywhere? && MatchEnd(p, text, 0) == Some(n)
    ensures Sub(p, text) == MARK + Sub(p, text[n..])
  {
    assert text == text[..n] + text[n..];
    SubFromShift(p, text[..n], text[n..], 0);
  }

  /** Which alternative matches, and that the match is exactly as wide as it. */
  lemma {:induction false} MatchFromWidth(p: Regex, text: string, at: nat, k: nat)
    returns (j: nat)
    requires p.edge.Anywhere? && p.tail == {} && at <= |text| && k <= |p.alternatives|
    requires MatchFrom(p, text, at, k).Some?
    ensures k <= j < |p.alternatives| && Fits(p.alternatives[j], text, at)
    ensures forall i | k <= i < j :: !Fits(p.alternatives[i], text, at)
    ensures MatchFrom(p, text, at, k) == Some(at + |p.alternatives[j]|)
    decreases |p.alternatives| - k
  {
    if Fits(p.alternatives[k], text, at) {
      j := k;
    } else {
      j := MatchFromWidth(p, text, at, k + 1);
    }
  }

  /**
    Redacting a prefix first does not change the redaction of the whole. An occurrence that
    spans the cut cannot have had another one inside the prefix, and none can reach into a mark.
   */
  lemma {:induction false} RedactPrefixFirst(p: Regex, x: string, y: string)
    requires SelfContained(p)
    ensures Sub(p, Sub(p, x) + y) == Sub(p, x + y)
    decreases |x|
  {
    if x == "" {
      assert Sub(p, x) + y == y == x + y;
    } else {
      var whole := x + y;
      match MatchEnd(p, whole, 0) {
        case Some(n) =>
          var k := MatchFromWidth(p, whole, 0, 0);
          if n <= |x| {
            RedactPrefixFirst(p, x[n..], y);
            PrefixFirstAtMatch(p, x, y, k);
          } else {
            PrefixFirstAcrossCut(p, x, y, k);
          }
        case None =>
          RedactPrefixFirst(p, x[1..], y);
          PrefixFirstNoMatch(p, x, y);
      }
    }
  }

  /** The front of an occurrence holds no other. */
  lemma PrefixFirstAcrossCut(p: Regex, x: string, y: string, k: nat)
    requires SelfContained(p) && k < |p.alternatives|
    requires Fits(p.alternatives[k], x + y, 0) && |p.alternatives[k]| > |x|
    ensures Clean(p, x) && Sub(p, x) == x
  {
    forall i: nat | 0 <= i <= |x| ensures !Opens(p, x, i) {
      forall j | 0 <= j < |p.alternatives| ensures !Fits(p.alternatives[j], x, i) {
        var alt := p.alternatives[j];
        if i + |alt| <= |x| {
          assert (x + y)[i..i + |alt|] == x[i..i + |alt|];
          FitsAgree(alt, x, i, x + y, i);
        }
      }
    }
    SubIdentity(p, x, 0);
  }

  lemma {:induction false} MatchFromPrefix(p: Regex, x: string, y: string, k: nat, j: nat)
    requires SelfContained(p) && k <= j < |p.alternatives|
    requires Fits(p.alternatives[j], x, 0)
    requires MatchFrom(p, x + y, 0, k) == Some(|p.alternatives[j]|)
    ensures MatchFrom(p, x, 0, k) == Some(|p.alternatives[j]|)
    decreases |p.alternatives| - k
  {
    var alt := p.alternatives[k];
    assert alt in p.alternatives && p.alternatives[j] in p.alternatives;
    if |alt| <= |x| {
      assert (x + y)[0..|alt|] == x[0..|alt|];
      FitsAgree(alt, x, 0, x + y, 0);
    }
    FitsLonger(p.alternatives[j], x, y, 0);
    if !Fits(alt, x + y, 0) {
      MatchFromPrefix(p, x, y, k + 1, j);
    }
  }

  lemma FitsLonger(classes: seq<CharClass>, x: string, y: string, at: nat)
    requires at + |classes| <= |x|
    ensures Fits(classes, x, at) <==> Fits(classes, x + y, at)
  {
    assert (x + y)[at..at + |classes|] == x[at..at + |classes|];
    FitsAgree(classes, x, at, x + y, at);
  }

  lemma PrefixFirstAtMatch(p: Regex, x: string, y: string, k: nat)
    requires SelfContained(p) && k < |p.alternatives|
    requires var n := |p.alternatives[k]|;
      && n <= |x| && MatchEnd(p, x + y, 0) == Some(n) && Fits(p.alternatives[k], x + y, 0)
      && Sub(p, Sub(p, x[n..]) + y) == Sub(p, x[n..] + y)
    ensures Sub(p, Sub(p, x) + y) == Sub(p, x + y)
  {
    var n := |p.alternatives[k]|;
    hide Sub;
    FitsLonger(p.alternatives[k], x, y, 0);
    MatchFromPrefix(p, x, y, 0, k);
    PrefixFirstBehindMatch(p, x, y, n);
  }

  lemma PrefixFirstBehindMatch(p: Regex, x: string, y: string, n: nat)
    requires Inert(p) && p.edge.Anywhere?
    requires n <= |x| && MatchEnd(p, x, 0) == Some(n) && MatchEnd(p, x + y, 0) == Some(n)
    requires Sub(p, Sub(p, x[n..]) + y) == Sub(p, x[n..] + y)
    ensures Sub(p, Sub(p, x) + y) == Sub(p, x + y)
  {
    hide Sub, MatchEnd, Inert;
    var done := Sub(p, x[n..]);
    SubAtMatch(p, x, n);
    SubAtMatch(p, x + y, n);
    assert (x + y)[n..] == x[n..] + y;
    assert (MARK + done) + y == MARK + (done + y);
    SubPassesOverMark(p, done + y);
  }

  lemma SubPassesOverMark(p: Regex, rest: string)
    requires Inert(p) && p.edge.Anywhere?
    ensures Sub(p, MARK + rest) == MARK + Sub(p, rest)
  {
    forall i: nat | i < |MARK| ensures !Opens(p, MARK + rest, i) {
      MarkOpensNothing(p, rest, i);
    }
    SubPassesOver(p, MARK, rest);
  }

  /** A scan that starts without a match copies one character. */
  lemma SubAtNoMatch(p: Regex, text: string, rest: string)
    requires p.edge.Anywhere? && text != "" && rest == text[1..] && !Opens(p, text, 0)
    ensures Sub(p, text) == [text[0]] + Sub(p, rest)
  {
    assert text == [text[0]] + rest;
    SubPassesOver(p, [text[0]], rest);
  }

  lemma PrefixFirstNoMatch(p: Regex, x: string, y: string)
    requires Inert(p) && p.edge.Anywhere? && x != "" && MatchEnd(p, x + y, 0).None?
    requires Sub(p, Sub(p, x[1..]) + y) == Sub(p, x[1..] + y)
    ensures Sub(p, Sub(p, x) + y) == Sub(p, x + y)
  {
    var rest := Sub(p, x[1..]);
    var text := [x[0]] + (rest + y);
    assert !Opens(p, x + y, 0) && !Opens(p, x, 0) && !Opens(p, text, 0) by {
      MatchFromOpens(p, x + y, 0, 0);
      forall k | 0 <= k < |p.alternatives|
        ensures !Fits(p.alternatives[k], x, 0) && !Fits(p.alternatives[k], text, 0)
      {
        if |p.alternatives[k]| <= |x| {
          FitsLonger(p.alternatives[k], x, y, 0);
        }
        NothingOpensBeforeRest(p, x, y, k);
      }
    }
    SubAtNoMatch(p, x, x[1..]);
    SubAtNoMatch(p, x + y, x[1..] + y);
    SubAtNoMatch(p, text, rest + y);
    assert Sub(p, x) + y == text;
  }

  /** What has no bracket in it was not touched by the substitution. */
  lemma FrontUnchanged(p: Regex, x: string, y: string, n: nat)
    requires x != "" && n > 0
    requires var text := [x[0]] + (Sub(p, x[1..]) + y); n <= |text| && BracketFree(text[..n])
    ensures var text := [x[0]] + (Sub(p, x[1..]) + y); n <= |x + y| && text[0..n] == (x + y)[0..n]
  {
    hide SubFrom;
    var rest := Sub(p, x[1..]);
    var text := [x[0]] + (rest + y);
    var m := if n - 1 <= |rest| then n - 1 else |rest|;
    forall i | 0 <= i < m ensures rest[..m][i] != '[' {
      assert rest[i] == text[..n][1 + i];
    }
    SubFront(p, x[1..], 0, m);
    assert text[..1 + m] == [x[0]] + rest[..m] == x[..1 + m];
    assert n <= |x + y|;
    assert text[..n] == (x + y)[..n];
  }

  lemma NothingOpensBeforeRest(p: Regex, x: string, y: string, k: nat)
    requires NoBrackets(p) && x != "" && k < |p.alternatives| && !Fits(p.alternatives[k], x + y, 0)
    ensures !Fits(p.alternatives[k], [x[0]] + (Sub(p, x[1..]) + y), 0)
  {
    var rest := Sub(p, x[1..]);
    var text := [x[0]] + (rest + y);
    var alt := p.alternatives[k];
    var n := |alt|;
    if n <= |text| {
      if BracketFree(text[..n]) {
        FrontUnchanged(p, x, y, n);
        FitsAgree(alt, x + y, 0, text, 0);
      } else {
        var i :| 0 <= i < n && text[..n][i] == '[';
        assert '[' !in p.alternatives[k][i];
      }
    }
  }

  // ------------------------------------------------------------- whole streams

  function Concat(deltas: seq<string>): string {
    if deltas == [] then "" else deltas[0] + Concat(deltas[1..])
  }

  /** The simple form of the inspector: keep everything, and redact it all again after every delta. */
  function Accumulate(p: Regex, total: string, deltas: seq<string>): string
    decreases |deltas|
  {
    if deltas == [] then total else Accumulate(p, Sub(p, total + deltas[0]), deltas[1..])
  }

  /** `p` is the only pattern of the engine that can occur in `text`. */
  ghost predicate OnlyOccurring(engine: OutputGuardrail, p: Regex, text: string) {
    forall q | q in engine.secrets || q in engine.pii :: q == p || (Inert(q) && Clean(q, text))
  }

  /** Redacting a prefix brings in no occurrence of another pattern. */
  lemma {:induction false} PrefixSubClean(p: Regex, q: Regex, x: string, y: string, at: nat)
    requires Inert(q) && Clean(q, x + y) && at <= |x|
    ensures Clean(q, SubFrom(p, x, at) + y)
    decreases |x| - at
  {
    var out := SubFrom(p, x, at);
    if at == |x| {
      assert out + y == y;
      forall i: nat | i <= |y| ensures !Opens(q, y, i) {
        OpensShift(q, x, y, i);
        assert !Opens(q, x + y, |x| + i);
      }
    } else {
      match MatchEnd(p, x, at) {
        case Some(end) =>
          var rest := SubFrom(p, x, end);
          PrefixSubClean(p, q, x, y, end);
          assert out + y == MARK + (rest + y);
          forall i: nat | i <= |out + y| ensures !Opens(q, out + y, i) {
            if i < |MARK| {
              MarkOpensNothing(q, rest + y, i);
            } else {
              OpensShift(q, MARK, rest + y, i - |MARK|);
            }
          }
        case None =>
          var rest := SubFrom(p, x, at + 1);
          PrefixSubClean(p, q, x, y, at + 1);
          assert out + y == [x[at]] + (rest + y);
          forall i: nat | i <= |out + y| ensures !Opens(q, out + y, i) {
            if i == 0 {
              PrefixSubOpensOnlyOld(p, q, x, y, at);
            } else {
              OpensShift(q, [x[at]], rest + y, i - 1);
            }
          }
      }
    }
  }

  lemma PrefixSubOpensOnlyOld(p: Regex, q: Regex, x: string, y: string, at: nat)
    requires NoBrackets(q) && Clean(q, x + y) && at <= |x|
    ensures !Opens(q, SubFrom(p, x, at) + y, 0)
  {
    var out := SubFrom(p, x, at);
    var text := out + y;
    assert !Opens(q, x + y, at);
    forall k | 0 <= k < |q.alternatives| ensures !Fits(q.alternatives[k], text, 0) {
      var alt := q.alternatives[k];
      var n := |alt|;
      if n <= |text| {
        if BracketFree(text[..n]) {
          var m := if n <= |out| then n else |out|;
          assert out[..m] == text[..n][..m];
          SubFront(p, x, at, m);
          assert n <= |(x + y)[at..]|;
          assert text[0..n] == out[..m] + y[..n - m];
          assert (x + y)[at..at + n] == x[at..at + m] + y[..n - m];
          FitsAgree(alt, x + y, at, text, 0);
        } else {
          var i :| 0 <= i < n && text[..n][i] == '[';
          assert '[' !in q.alternatives[k][i];
        }
      }
    }
  }

  /** Appending to the tail opens nothing in what is already out. */
  lemma NothingOpensAcrossSeam(p: Regex, holdback: nat, emitted: string, buffer: string, delta: string, at: nat)
    requires Streamable(p, holdback) && at < |emitted|
    requires Clean(p, emitted + buffer) && SeamGuarded(emitted, buffer, holdback)
    ensures !Opens(p, emitted + (buffer + delta), at)
  {
    var text := emitted + (buffer + delta);
    assert text == (emitted + buffer) + delta;
    assert !Opens(p, emitted + buffer, at);
    forall k | 0 <= k < |p.alternatives| ensures !Fits(p.alternatives[k], text, at) {
      var alt := p.alternatives[k];
      var n := |alt|;
      if at + n <= |emitted + buffer| {
        FitsLonger(alt, emitted + buffer, delta, at);
      } else if at + n <= |text| {
        var i :| 0 <= i < |buffer| && buffer[i] == '[';
        assert text[|emitted| + i] == '[';
        assert '[' !in p.alternatives[k][|emitted| + i - at];
      }
    }
  }

  /** With only `p` to be found, one evaluation is a substitution of `p`. */
  lemma ReleaseIsSub(engine: OutputGuardrail, holdback: nat, p: Regex, combined: string, final: bool)
    requires Inert(p) && p.edge.Anywhere? && p in engine.secrets && OnlyOccurring(engine, p, combined)
    requires !Release(engine, holdback, combined, final).decision.action.Block?
    ensures var r := Release(engine, holdback, combined, final); r.emit + r.buffer == Sub(p, combined)
  {
    forall q | (q in engine.secrets || q in engine.pii) && q != p ensures !Matches(q, combined) {
      CleanIsNoMatch(q, combined);
    }
    RedactOnly(engine.secrets, p, combined);
    CleanIsNoMatch(p, combined);
    if !Matches(p, combined) {
      SubIdentity(p, combined, 0);
    }
  }

  lemma OnlyOccurringSuffix(engine: OutputGuardrail, p: Regex, before: string, text: string)
    requires OnlyOccurring(engine, p, before + text)
    ensures OnlyOccurring(engine, p, text)
  {
    forall q, at: nat | (q in engine.secrets || q in engine.pii) && q != p && at <= |text|
      ensures !Opens(q, text, at)
    {
      OpensShift(q, before, text, at);
      assert !Opens(q, before + text, |before| + at);
    }
  }

  lemma OnlyOccurringPrefix(engine: OutputGuardrail, p: Regex, text: string, after: string)
    requires OnlyOccurring(engine, p, text + after)
    ensures OnlyOccurring(engine, p, text)
  {
    forall q | (q in engine.secrets || q in engine.pii) && q != p ensures Clean(q, text) {
      CleanPrefix(q, text + after, |text|);
      assert (text + after)[..|text|] == text;
    }
  }

  /** A redacted front brings no other pattern in. */
  lemma OnlyOccurringSub(engine: OutputGuardrail, p: Regex, x: string, y: string)
    requires OnlyOccurring(engine, p, x + y)
    ensures OnlyOccurring(engine, p, Sub(p, x) + y)
  {
    forall q | (q in engine.secrets || q in engine.pii) && q != p ensures Clean(q, Sub(p, x) + y) {
      PrefixSubClean(p, q, x, y, 0);
    }
  }

  /** What is already out takes no further part in the substitution. */
  lemma SubOverSeam(holdback: nat, p: Regex, emitted: string, buffer: string, delta: string)
    requires Streamable(p, holdback) && Safe(p, holdback, emitted, buffer)
    ensures Sub(p, (emitted + buffer) + delta) == emitted + Sub(p, buffer + delta)
  {
    assert (emitted + buffer) + delta == emitted + (buffer + delta);
    forall at: nat | at < |emitted| ensures !Opens(p, emitted + (buffer + delta), at) {
      NothingOpensAcrossSeam(p, holdback, emitted, buffer, delta, at);
    }
    SubPassesOver(p, emitted, buffer + delta);
  }

  lemma Regroup(emitted: string, buffer: string, delta: string, after: string)
    ensures (emitted + buffer) + (delta + after) == ((emitted + buffer) + delta) + after
         == emitted + ((buffer + delta) + after)
  {
  }

  /** One push or flush of the bounded form is one step of the simple form. */
  lemma ReleaseIsStep(
      engine: OutputGuardrail, holdback: nat, p: Regex, emitted: string, buffer: string, delta: string,
      after: string, final: bool)
    requires p in engine.secrets && Streamable(p, holdback) && Safe(p, holdback, emitted, buffer)
    requires OnlyOccurring(engine, p, (emitted + buffer) + (delta + after))
    requires !Release(engine, holdback, buffer + delta, final).decision.action.Block?
    ensures var r := Release(engine, holdback, buffer + delta, final);
      emitted + (r.emit + r.buffer) == Sub(p, (emitted + buffer) + delta)
    ensures OnlyOccurring(engine, p, Sub(p, (emitted + buffer) + delta) + after)
  {
    assert Inert(p) && p.edge.Anywhere?;
    hide Release, OnlyOccurring, Safe, Streamable, Sub, Inert;
    var combined := buffer + delta;
    Regroup(emitted, buffer, delta, after);
    OnlyOccurringSub(engine, p, (emitted + buffer) + delta, after);
    OnlyOccurringSuffix(engine, p, emitted, combined + after);
    OnlyOccurringPrefix(engine, p, combined, after);
    ReleaseIsSub(engine, holdback, p, combined, final);
    SubOverSeam(holdback, p, emitted, buffer, delta);
  }

  lemma FlushIsTotal(engine: OutputGuardrail, holdback: nat, p: Regex, emitted: string, buffer: string)
    requires p in engine.secrets && Streamable(p, holdback) && Safe(p, holdback, emitted, buffer)
    requires OnlyOccurring(engine, p, (emitted + buffer) + "")
    requires !Release(engine, holdback, buffer, true).decision.action.Block?
    ensures emitted + Release(engine, holdback, buffer, true).emit == emitted + buffer
  {
    assert buffer + "" == buffer && "" + "" == "" && (emitted + buffer) + "" == emitted + buffer;
    ReleaseIsStep(engine, holdback, p, emitted, buffer, "", "", true);
    SubIdentity(p, emitted + buffer, 0);
    var last := Release(engine, holdback, buffer, true);
    assert last.emit + last.buffer == last.emit;
  }

  /**
    The bounded form refines the simple one: with at most one kind of pattern in the stream, the
    inspector that keeps `holdback` characters releases what the one that keeps everything would.
   */
  lemma {:induction false} StreamRefinesAccumulate(
      engine: OutputGuardrail, holdback: nat, p: Regex, emitted: string, buffer: string, deltas: seq<string>)
    requires p in engine.secrets && Streamable(p, holdback) && Safe(p, holdback, emitted, buffer)
    requires OnlyOccurring(engine, p, (emitted + buffer) + Concat(deltas))
    requires !Stream(engine, holdback, buffer, deltas).blocked
    ensures emitted + Stream(engine, holdback, buffer, deltas).emitted == Accumulate(p, emitted + buffer, deltas)
    decreases |deltas|
  {
    hide Streamable, Safe, OnlyOccurring, Release, Sub;
    if deltas == [] {
      FlushIsTotal(engine, holdback, p, emitted, buffer);
    } else {
      var first := Release(engine, holdback, buffer + deltas[0], false);
      ReleaseIsStep(engine, holdback, p, emitted, buffer, deltas[0], Concat(deltas[1..]), false);
      SafeStep(engine, holdback, p, emitted, buffer, deltas[0]);
      var out := emitted + first.emit;
      assert emitted + (first.emit + first.buffer) == out + first.buffer;
      StreamRefinesAccumulate(engine, holdback, p, out, first.buffer, deltas[1..]);
      var rest := Stream(engine, holdback, first.buffer, deltas[1..]);
      assert out + rest.emitted == emitted + (first.emit + rest.emitted);
    }
  }

  /** Redacting again after every delta is redacting once at the end. */
  lemma {:induction false} AccumulateIsBatch(p: Regex, received: string, deltas: seq<string>)
    requires SelfContained(p)
    ensures Accumulate(p, Sub(p, received), deltas) == Sub(p, received + Concat(deltas))
    decreases |deltas|
  {
    hide Sub, SelfContained;
    if deltas == [] {
      assert received + "" == received;
    } else {
      RedactPrefixFirst(p, received, deltas[0]);
      AccumulateIsBatch(p, received + deltas[0], deltas[1..]);
      assert (received + deltas[0]) + Concat(deltas[1..]) == received + Concat(deltas);
    }
  }

  /**
    Chunking is unobservable: whatever the deltas, the released stream is the batch redaction of
    the whole text, provided at most one kind of pattern occurs in it and that kind is self-contained.
   */
  lemma ChunkingUnobservable(engine: OutputGuardrail, holdback: nat, p: Regex, deltas: seq<string>)
    requires p in engine.secrets && SelfContained(p) && Streamable(p, holdback)
    requires OnlyOccurring(engine, p, Concat(deltas))
    requires !Stream(engine, holdback, "", deltas).blocked
    ensures Stream(engine, holdback, "", deltas).emitted == Redact(engine.secrets, Concat(deltas))
  {
    hide Release, Stream;
    EmptyIsSafe(p, holdback);
    assert "" + "" == "" && "" + Concat(deltas) == Concat(deltas);
    StreamRefinesAccumulate(engine, holdback, p, "", "", deltas);
    var whole := Stream(engine, holdback, "", deltas).emitted;
    assert "" + whole == whole;
    AccumulateIsBatch(p, "", deltas);
    RedactOnly(engine.secrets, p, Concat(deltas));
  }

  lemma EmptyIsSafe(p: Regex, holdback: nat)
    ensures Safe(p, holdback, "", "")
  {
    forall k | 0 <= k < |p.alternatives| ensures !Fits(p.alternatives[k], "", 0) {
    }
    assert "" + "" == "";
  }

  /** A stream in which no pattern occurs is released unchanged. */
  lemma CleanStreamUnchanged(engine: OutputGuardrail, holdback: nat, p: Regex, deltas: seq<string>)
    requires p in engine.secrets && SelfContained(p) && Streamable(p, holdback)
    requires OnlyOccurring(engine, p, Concat(deltas)) && Clean(p, Concat(deltas))
    requires !Stream(engine, holdback, "", deltas).blocked
    ensures Stream(engine, holdback, "", deltas).emitted == Concat(deltas)
  {
    hide Release, Stream;
    ChunkingUnobservable(engine, holdback, p, deltas);
    RedactOnly(engine.secrets, p, Concat(deltas));
    SubIdentity(p, Concat(deltas), 0);
  }
}
