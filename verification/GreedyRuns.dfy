/**
  Patterns that end in a greedy run, such as an API key of at least so many characters. For them
  chunking is observable: characters that arrive after the run was redacted stay in the stream.
  It is unobservable exactly when no delta boundary falls between such a run and its next character.
 */
module GreedyRuns {
  import opened Wrappers
  import opened Redaction
  import opened Streaming
  import opened Chunking

  /** One alternative; its first character could continue a run, some later one could not. */
  ghost predicate Greedy(p: Regex) {
    && Inert(p) && p.edge.Anywhere? && |p.alternatives| == 1 && '[' !in p.tail
    && p.alternatives[0][0] <= p.tail
    && exists j | 0 <= j < |p.alternatives[0]| :: p.alternatives[0][j] !! p.tail
  }

  /** The scan from `at` ends in a match that reaches the end of the text. */
  predicate EndsInMatch(p: Regex, text: string, at: nat)
    requires at <= |text|
    decreases |text| - at
  {
    at < |text| &&
    match MatchEnd(p, text, at)
    case Some(end) => end == |text| || EndsInMatch(p, text, end)
    case None => EndsInMatch(p, text, at + 1)
  }

  /** The text received so far ends in a complete occurrence, and what follows continues its run. */
  predicate CutsRun(p: Regex, received: string, next: string) {
    EndsInMatch(p, received, 0) && next != "" && next[0] in p.tail
  }

  /** Some delta boundary cuts a run. */
  predicate Splits(p: Regex, received: string, deltas: seq<string>)
    decreases |deltas|
  {
    deltas != [] &&
    (CutsRun(p, received, Concat(deltas)) || Splits(p, received + deltas[0], deltas[1..]))
  }

  // ------------------------------------------------------------ single matches

  lemma {:induction false} RunEndAppend(tail: CharClass, x: string, y: string, at: nat)
    requires at <= |x|
    ensures RunEnd(tail, x + y, at)
         == if RunEnd(tail, x, at) < |x| then RunEnd(tail, x, at) else |x| + RunEnd(tail, y, 0)
    decreases |x| - at
  {
    if at == |x| {
      RunEndShift(tail, x, y, 0);
    } else if x[at] in tail {
      RunEndAppend(tail, x, y, at + 1);
    }
  }

  lemma SingleMatch(p: Regex, text: string)
    requires Greedy(p)
    ensures var alt := p.alternatives[0];
      MatchEnd(p, text, 0) == if Fits(alt, text, 0) then Some(RunEnd(p.tail, text, |alt|)) else None
  {
    assert MatchFrom(p, text, 0, 1).None?;
  }

  function Later(end: Option<nat>, skip: nat): Option<nat> {
    match end
    case Some(n) => Some(skip + n)
    case None => None
  }

  /** A scan of `whole` that finds the matches of `text`, each so many characters later. */
  lemma {:induction false} EndsInMatchLater(p: Regex, text: string, whole: string, skip: nat, at: nat)
    requires at <= |text| && |whole| == skip + |text|
    requires forall i: nat | i <= |text| :: MatchEnd(p, whole, skip + i) == Later(MatchEnd(p, text, i), skip)
    ensures EndsInMatch(p, whole, skip + at) <==> EndsInMatch(p, text, at)
    decreases |text| - at
  {
    hide MatchEnd;
    if at < |text| {
      match MatchEnd(p, text, at) {
        case Some(end) => EndsInMatchLater(p, text, whole, skip, end);
        case None => EndsInMatchLater(p, text, whole, skip, at + 1);
      }
    }
  }

  lemma EndsInMatchShift(p: Regex, before: string, text: string, at: nat)
    requires p.edge.Anywhere? && at <= |text|
    ensures EndsInMatch(p, before + text, |before| + at) <==> EndsInMatch(p, text, at)
  {
    hide MatchFrom;
    forall i: nat | i <= |text|
      ensures MatchEnd(p, before + text, |before| + i) == Later(MatchEnd(p, text, i), |before|)
    {
      MatchFromShift(p, before, text, i, 0);
    }
    EndsInMatchLater(p, text, before + text, |before|, at);
  }

  // ----------------------------------------------- boundaries that cut no run

  lemma {:induction false} GreedyPrefixFirst(p: Regex, x: string, y: string)
    requires Greedy(p) && !CutsRun(p, x, y)
    ensures Sub(p, Sub(p, x) + y) == Sub(p, x + y)
    decreases |x|
  {
    var alt := p.alternatives[0];
    SingleMatch(p, x);
    SingleMatch(p, x + y);
    if x == "" {
      assert Sub(p, x) + y == y == x + y;
    } else if |alt| > |x| {
      if Fits(alt, x + y, 0) {
        NoRoomNoMatch(p, x);
      } else {
        assert EndsInMatch(p, x, 0) <==> EndsInMatch(p, x, 1);
        EndsInMatchShift(p, [x[0]], x[1..], 0);
        assert x == [x[0]] + x[1..];
        GreedyPrefixFirst(p, x[1..], y);
        PrefixFirstNoMatch(p, x, y);
      }
    } else {
      FitsLonger(alt, x, y, 0);
      if Fits(alt, x, 0) {
        var n := RunEnd(p.tail, x, |alt|);
        RunEndAppend(p.tail, x, y, |alt|);
        assert x == x[..n] + x[n..];
        if n < |x| {
          EndsInMatchShift(p, x[..n], x[n..], 0);
        }
        GreedyPrefixFirst(p, x[n..], y);
        GreedyAtMatch(p, x, y, n);
      } else {
        EndsInMatchShift(p, [x[0]], x[1..], 0);
        assert x == [x[0]] + x[1..];
        GreedyPrefixFirst(p, x[1..], y);
        PrefixFirstNoMatch(p, x, y);
      }
    }
  }

  lemma NoRoomNoMatch(p: Regex, x: string)
    requires Greedy(p) && |p.alternatives[0]| > |x|
    ensures Sub(p, x) == x
  {
    forall i: nat | 0 <= i <= |x| ensures !Opens(p, x, i) {
    }
    SubIdentity(p, x, 0);
  }

  lemma GreedyAtMatch(p: Regex, x: string, y: string, n: nat)
    requires Greedy(p) && n <= |x|
    requires MatchEnd(p, x, 0) == Some(n) && MatchEnd(p, x + y, 0) == Some(n)
    requires Sub(p, Sub(p, x[n..]) + y) == Sub(p, x[n..] + y)
    ensures Sub(p, Sub(p, x) + y) == Sub(p, x + y)
  {
    SubAtMatch(p, x, n);
    SubAtMatch(p, x + y, n);
    assert (x + y)[n..] == x[n..] + y;
    assert Sub(p, x) + y == MARK + (Sub(p, x[n..]) + y);
    SubPassesOverMark(p, Sub(p, x[n..]) + y);
  }

  // ------------------------------------------------- boundaries that cut a run

  /** The batch redaction of `x + y` keeps that of `x` and swallows the run at the start of `y`. */
  ghost predicate Swallows(p: Regex, x: string, y: string) {
    && Sub(p, x + y) == Sub(p, x) + Sub(p, y[RunEnd(p.tail, y, 0)..])
    && Sub(p, x) != "" && Sub(p, x)[|Sub(p, x)| - 1] == ']'
  }

  lemma {:induction false} BatchSwallowsRun(p: Regex, x: string, y: string)
    requires Greedy(p) && EndsInMatch(p, x, 0)
    ensures Swallows(p, x, y)
    decreases |x|
  {
    SingleMatch(p, x);
    if Fits(p.alternatives[0], x, 0) {
      var n := RunEnd(p.tail, x, |p.alternatives[0]|);
      assert x == x[..n] + x[n..];
      EndsInMatchShift(p, x[..n], x[n..], 0);
      if n < |x| {
        BatchSwallowsRun(p, x[n..], y);
      }
      SwallowAtMatch(p, x, y);
    } else {
      assert x == [x[0]] + x[1..];
      EndsInMatchShift(p, [x[0]], x[1..], 0);
      BatchSwallowsRun(p, x[1..], y);
      NotAcrossEnd(p, x, y);
      SubAtNoMatch(p, x, x[1..]);
      assert (x + y)[1..] == x[1..] + y;
      SubAtNoMatch(p, x + y, x[1..] + y);
    }
  }

  lemma SwallowAtMatch(p: Regex, x: string, y: string)
    requires Greedy(p) && Fits(p.alternatives[0], x, 0)
    requires var n := RunEnd(p.tail, x, |p.alternatives[0]|); n == |x| || Swallows(p, x[n..], y)
    ensures Swallows(p, x, y)
  {
    hide Swallows, Sub, SubFrom, Fits;
    var alt := p.alternatives[0];
    var n := RunEnd(p.tail, x, |alt|);
    SingleMatch(p, x);
    SingleMatch(p, x + y);
    FitsLonger(alt, x, y, 0);
    RunEndAppend(p.tail, x, y, |alt|);
    SwallowFrom(p, x, y, n);
  }

  lemma SwallowFrom(p: Regex, x: string, y: string, n: nat)
    requires p.edge.Anywhere? && n <= |x| && MatchEnd(p, x, 0) == Some(n)
    requires MatchEnd(p, x + y, 0) == Some(if n < |x| then n else n + RunEnd(p.tail, y, 0))
    requires n == |x| || Swallows(p, x[n..], y)
    ensures Swallows(p, x, y)
  {
    SubAtMatch(p, x, n);
    var run := RunEnd(p.tail, y, 0);
    if n == |x| {
      SubAtMatch(p, x + y, n + run);
      assert (x + y)[n + run..] == y[run..];
    } else {
      SubAtMatch(p, x + y, n);
      assert (x + y)[n..] == x[n..] + y;
      assert MARK + (Sub(p, x[n..]) + Sub(p, y[run..])) == (MARK + Sub(p, x[n..])) + Sub(p, y[run..]);
    }
  }

  /** A text that ends in a match has room for one, so an occurrence at its start lies inside it. */
  lemma {:induction false} NotAcrossEnd(p: Regex, x: string, y: string)
    requires Greedy(p) && EndsInMatch(p, x, 0) && !Fits(p.alternatives[0], x, 0)
    ensures !Opens(p, x, 0) && !Opens(p, x + y, 0)
  {
    RoomForMatch(p, x, 0);
    FitsLonger(p.alternatives[0], x, y, 0);
  }

  lemma {:induction false} RoomForMatch(p: Regex, x: string, at: nat)
    requires Greedy(p) && at <= |x| && EndsInMatch(p, x, at)
    ensures at + |p.alternatives[0]| <= |x|
    decreases |x| - at
  {
    MatchFromOpens(p, x, at, 0);
    if MatchEnd(p, x, at).None? {
      RoomForMatch(p, x, at + 1);
    }
  }

  /** A clean text that ends in a bracket takes no part in later substitutions. */
  lemma SubAfterBracket(p: Regex, total: string, rest: string)
    requires Greedy(p) && Clean(p, total) && total != "" && total[|total| - 1] == ']'
    ensures Sub(p, total + rest) == total + Sub(p, rest)
  {
    var alt := p.alternatives[0];
    forall i: nat | i < |total| ensures !Opens(p, total + rest, i) {
      assert !Opens(p, total, i);
      if i + |alt| <= |total| {
        FitsLonger(alt, total, rest, i);
      } else {
        assert (total + rest)[|total| - 1] == ']';
        assert ']' !in p.alternatives[0][|total| - 1 - i];
      }
    }
    SubPassesOver(p, total, rest);
  }

  lemma {:induction false} AccumulateAfterBracket(p: Regex, total: string, more: string, deltas: seq<string>)
    requires Greedy(p) && Clean(p, total) && total != "" && total[|total| - 1] == ']'
    ensures Accumulate(p, total + more, deltas) == total + Accumulate(p, more, deltas)
    decreases |deltas|
  {
    if deltas != [] {
      assert (total + more) + deltas[0] == total + (more + deltas[0]);
      SubAfterBracket(p, total, more + deltas[0]);
      AccumulateAfterBracket(p, total, Sub(p, more + deltas[0]), deltas[1..]);
    }
  }

  /** Up to its first bracket `total` is what was received, and without one it is all of it. */
  ghost predicate FrontAgrees(total: string, received: string) {
    forall n: nat | n <= |total| && BracketFree(total[..n]) ::
      n <= |received| && total[..n] == received[..n] && (n == |total| ==> n == |received|)
  }

  lemma FrontAppend(total: string, received: string, delta: string)
    requires FrontAgrees(total, received)
    ensures FrontAgrees(total + delta, received + delta)
  {
    var next := total + delta;
    forall n: nat | n <= |next| && BracketFree(next[..n])
      ensures n <= |received + delta| && next[..n] == (received + delta)[..n]
      ensures n == |next| ==> n == |received + delta|
    {
      var m := if n <= |total| then n else |total|;
      assert total[..m] == next[..n][..m];
      assert BracketFree(total[..m]);
      assert next[..n] == total[..m] + delta[..n - m];
      assert (received + delta)[..n] == received[..m] + delta[..n - m];
    }
  }

  lemma FrontSub(p: Regex, total: string, received: string)
    requires FrontAgrees(total, received)
    ensures FrontAgrees(Sub(p, total), received)
  {
    var next := Sub(p, total);
    forall n: nat | n <= |next| && BracketFree(next[..n])
      ensures n <= |received| && next[..n] == received[..n] && (n == |next| ==> n == |received|)
    {
      SubFront(p, total, 0, n);
      assert BracketFree(total[..n]);
    }
  }

  lemma FrontStaysAgreed(p: Regex, total: string, received: string, delta: string)
    requires FrontAgrees(total, received)
    ensures FrontAgrees(Sub(p, total + delta), received + delta)
  {
    FrontAppend(total, received, delta);
    FrontSub(p, total + delta, received + delta);
  }

  /** What the first character of the accumulated text can be: the stream's own, or a mark's. */
  ghost predicate FirstKept(p: Regex, total: string, received: string)
    requires Greedy(p)
  {
    received != "" && received[0] in p.tail ==>
      && total != ""
      && (total[0] == received[0] || (total[0] == '[' && Fits(p.alternatives[0], received, 0)))
  }

  lemma FirstStaysKept(p: Regex, total: string, received: string, delta: string)
    requires Greedy(p) && FrontAgrees(total, received) && FirstKept(p, total, received)
    requires received == "" ==> total == ""
    ensures FirstKept(p, Sub(p, total + delta), received + delta)
  {
    var alt := p.alternatives[0];
    var text := total + delta;
    if received + delta != "" && (received + delta)[0] in p.tail {
      assert text != "" && (received != "" ==> text[0] == total[0]);
      SingleMatch(p, text);
      if |alt| <= |received| {
        FitsLonger(alt, received, delta, 0);
      }
      if Fits(alt, text, 0) {
        assert alt == p.alternatives[0];
        FitsBracketFree(p, 0, text, 0);
        var m := if |alt| <= |total| then |alt| else |total|;
        assert total[..m] == text[0..|alt|][..m];
        assert BracketFree(total[..m]);
        assert text[0..|alt|] == total[..m] + delta[..|alt| - m];
        assert (received + delta)[0..|alt|] == received[..m] + delta[..|alt| - m];
        FitsAgree(alt, text, 0, received + delta, 0);
      }
    }
  }

  lemma {:induction false} AccumulateFirst(p: Regex, total: string, received: string, deltas: seq<string>)
    requires Greedy(p) && FrontAgrees(total, received) && FirstKept(p, total, received)
    requires received == "" ==> total == ""
    ensures FirstKept(p, Accumulate(p, total, deltas), received + Concat(deltas))
    decreases |deltas|
  {
    if deltas == [] {
      assert received + "" == received;
    } else {
      var next := Sub(p, total + deltas[0]);
      FrontStaysAgreed(p, total, received, deltas[0]);
      FirstStaysKept(p, total, received, deltas[0]);
      AccumulateFirst(p, next, received + deltas[0], deltas[1..]);
      assert (received + deltas[0]) + Concat(deltas[1..]) == received + Concat(deltas);
    }
  }

  lemma {:induction false} RunIsTail(tail: CharClass, text: string, at: nat, i: nat)
    requires at <= |text| && at <= i < RunEnd(tail, text, at)
    ensures text[i] in tail
    decreases i - at
  {
    if at < i {
      RunIsTail(tail, text, at + 1, i);
    }
  }

  /** The rest of a cut run and the text behind the run cannot come out the same. */
  lemma RestOfRunShows(p: Regex, deltas: seq<string>)
    requires Greedy(p) && Concat(deltas) != "" && Concat(deltas)[0] in p.tail
    ensures Accumulate(p, "", deltas) != Sub(p, Concat(deltas)[RunEnd(p.tail, Concat(deltas), 0)..])
  {
    var alt := p.alternatives[0];
    var y := Concat(deltas);
    var out := Accumulate(p, "", deltas);
    assert "" + y == y;
    AccumulateFirst(p, "", "", deltas);
    assert FirstKept(p, out, y);
    var run := RunEnd(p.tail, y, 0);
    var z := y[run..];
    RunEndStops(p.tail, y, 0);
    if z != "" {
      // The character behind the run cannot start an occurrence, so it comes out first.
      assert z[0] !in p.tail;
      SingleMatch(p, z);
      assert !Fits(alt, z, 0);
      assert Sub(p, z)[0] == z[0];
    }
    if out[0] == '[' && Fits(alt, y, 0) {
      var j :| 0 <= j < |alt| && alt[j] !! p.tail;
      assert y[j] in alt[j];
      if j < run {
        RunIsTail(p.tail, y, 0, j);
      }
      assert y[run] in alt[run];
      assert '[' !in p.alternatives[0][run];
    }
  }

  lemma {:induction false} RunEndStops(tail: CharClass, text: string, at: nat)
    requires at <= |text|
    ensures RunEnd(tail, text, at) < |text| ==> text[RunEnd(tail, text, at)] !in tail
    decreases |text| - at
  {
    if at < |text| {
      RunEndStops(tail, text, at + 1);
    }
  }

  /** A cut run is never made good again, however the rest of the stream is cut. */
  lemma CutRunShows(p: Regex, received: string, deltas: seq<string>)
    requires Greedy(p) && CutsRun(p, received, Concat(deltas))
    ensures Accumulate(p, Sub(p, received), deltas) != Sub(p, received + Concat(deltas))
  {
    var total := Sub(p, received);
    BatchSwallowsRun(p, received, Concat(deltas));
    SubClean(p, p, received, 0);
    assert total + "" == total;
    AccumulateAfterBracket(p, total, "", deltas);
    RestOfRunShows(p, deltas);
    var out, batch := Accumulate(p, "", deltas), Sub(p, Concat(deltas)[RunEnd(p.tail, Concat(deltas), 0)..]);
    assert (total + out)[|total|..] == out && (total + batch)[|total|..] == batch;
  }

  lemma {:induction false} AccumulateExact(p: Regex, received: string, deltas: seq<string>)
    requires Greedy(p)
    ensures Accumulate(p, Sub(p, received), deltas) == Sub(p, received + Concat(deltas))
       <==> !Splits(p, received, deltas)
    decreases |deltas|
  {
    if deltas == [] {
      assert received + "" == received;
    } else if CutsRun(p, received, Concat(deltas)) {
      CutRunShows(p, received, deltas);
    } else {
      assert CutsRun(p, received, deltas[0]) ==> CutsRun(p, received, Concat(deltas));
      GreedyPrefixFirst(p, received, deltas[0]);
      AccumulateExact(p, received + deltas[0], deltas[1..]);
      assert (received + deltas[0]) + Concat(deltas[1..]) == received + Concat(deltas);
    }
  }

  /**
    For a greedy pattern the released stream is the batch redaction of the whole text if and
    only if no delta boundary cuts a run of it.
   */
  lemma GreedyChunkingExact(engine: OutputGuardrail, holdback: nat, p: Regex, deltas: seq<string>)
    requires p in engine.secrets && Greedy(p) && Streamable(p, holdback)
    requires OnlyOccurring(engine, p, Concat(deltas))
    requires !Stream(engine, holdback, "", deltas).blocked
    ensures Stream(engine, holdback, "", deltas).emitted == Redact(engine.secrets, Concat(deltas))
       <==> !Splits(p, "", deltas)
  {
    hide Release, Stream;
    EmptyIsSafe(p, holdback);
    assert "" + "" == "" && "" + Concat(deltas) == Concat(deltas);
    StreamRefinesAccumulate(engine, holdback, p, "", "", deltas);
    var whole := Stream(engine, holdback, "", deltas).emitted;
    assert "" + whole == whole;
    AccumulateExact(p, "", deltas);
    RedactOnly(engine.secrets, p, Concat(deltas));
  }
}
