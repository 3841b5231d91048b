/**
  Streams in which several kinds of secret occur, freely mixed: one kind with a greedy run and any
  number of fixed width. Redacting again after every delta is then still redacting once at the end,
  exactly when no delta boundary cuts a run.
 */
module MixedSecrets {
  import opened Wrappers
  import opened Redaction
  import opened Streaming
  import opened Chunking
  import opened GreedyRuns

  // ------------------------------------------- two substitutions, one after the other

  function Twice(p: Regex, q: Regex, text: string): string {
    Sub(q, Sub(p, text))
  }

  /** No occurrence of `p` begins inside one of `q`, which has a fixed width. */
  ghost predicate Apart(p: Regex, q: Regex) {
    && Inert(p) && Inert(q) && p.edge.Anywhere? && q.edge.Anywhere? && q.tail == {}
    && forall i, k, j | 0 <= i < |p.alternatives| && 0 <= k < |q.alternatives| && 0 <= j < |q.alternatives[k]| ::
         p.alternatives[i][0] !! q.alternatives[k][j]
  }

  lemma NothingBeginsInside(p: Regex, q: Regex, text: string, k: nat, at: nat)
    requires Apart(p, q) && k < |q.alternatives| && Fits(q.alternatives[k], text, 0) && at < |q.alternatives[k]|
    ensures !Opens(p, text, at)
  {
    assert text[0 + at] in q.alternatives[k][at];
    forall i | 0 <= i < |p.alternatives| ensures !Fits(p.alternatives[i], text, at) {
      assert p.alternatives[i][0] !! q.alternatives[k][at];
      assert text[at + 0] !in p.alternatives[i][0];
    }
  }

  lemma TwiceAtFirst(p: Regex, q: Regex, text: string, n: nat)
    requires Apart(p, q) && MatchEnd(p, text, 0) == Some(n)
    ensures Twice(p, q, text) == MARK + Twice(p, q, text[n..])
  {
    SubAtMatch(p, text, n);
    SubPassesOverMark(q, Sub(p, text[n..]));
  }

  /** Substitution lets an alternative fit only where it did before. */
  lemma FitsOnlyOld(p: Regex, q: Regex, k: nat, text: string)
    requires NoBrackets(q) && k < |q.alternatives| && Fits(q.alternatives[k], Sub(p, text), 0)
    ensures Fits(q.alternatives[k], text, 0)
  {
    FitsBracketFree(q, k, Sub(p, text), 0);
    SubFront(p, text, 0, |q.alternatives[k]|);
    FitsAgree(q.alternatives[k], Sub(p, text), 0, text, 0);
  }

  /** The first alternative that fits is the one that matches. */
  lemma {:induction false} FirstFitMatches(p: Regex, text: string, k: nat, j: nat)
    requires p.edge.Anywhere? && p.tail == {} && k <= j < |p.alternatives| && Fits(p.alternatives[j], text, 0)
    requires forall i | k <= i < j :: !Fits(p.alternatives[i], text, 0)
    ensures MatchFrom(p, text, 0, k) == Some(|p.alternatives[j]|)
    decreases j - k
  {
    if k < j {
      FirstFitMatches(p, text, k + 1, j);
    }
  }

  /** An occurrence of the second pattern is untouched by the first. */
  lemma MatchSurvives(p: Regex, q: Regex, text: string, n: nat)
    requires Apart(p, q) && MatchEnd(q, text, 0) == Some(n)
    ensures Sub(p, text) == text[..n] + Sub(p, text[n..]) && MatchEnd(q, Sub(p, text), 0) == Some(n)
  {
    var k := MatchFromWidth(q, text, 0, 0);
    assert text == text[..n] + text[n..];
    forall i: nat | i < |text[..n]| ensures !Opens(p, text[..n] + text[n..], i) {
      NothingBeginsInside(p, q, text, k, i);
    }
    SubPassesOver(p, text[..n], text[n..]);
    assert Sub(p, text)[0..n] == text[0..n];
    FitsAgree(q.alternatives[k], text, 0, Sub(p, text), 0);
    forall i | 0 <= i < k ensures !Fits(q.alternatives[i], Sub(p, text), 0) {
      if Fits(q.alternatives[i], Sub(p, text), 0) {
        FitsOnlyOld(p, q, i, text);
      }
    }
    FirstFitMatches(q, Sub(p, text), 0, k);
  }

  lemma TwiceAtSecond(p: Regex, q: Regex, text: string, n: nat)
    requires Apart(p, q) && MatchEnd(q, text, 0) == Some(n)
    ensures Twice(p, q, text) == MARK + Twice(p, q, text[n..])
  {
    MatchSurvives(p, q, text, n);
    SubAtMatch(q, Sub(p, text), n);
  }

  lemma TwiceAtNone(p: Regex, q: Regex, text: string, rest: string)
    requires Apart(p, q) && text != "" && rest == text[1..] && !Opens(p, text, 0) && !Opens(q, text, 0)
    ensures Twice(p, q, text) == [text[0]] + Twice(p, q, rest)
  {
    SubAtNoMatch(p, text, rest);
    SubOpensOnlyOld(p, q, text, 0);
    SubAtNoMatch(q, Sub(p, text), Sub(p, rest));
  }

  lemma TwiceOverMark(p: Regex, q: Regex, rest: string)
    requires Apart(p, q)
    ensures Twice(p, q, MARK + rest) == MARK + Twice(p, q, rest)
  {
    SubPassesOverMark(p, rest);
    SubPassesOverMark(q, Sub(p, rest));
  }

  lemma EmptyTwice(p: Regex, q: Regex)
    ensures Twice(p, q, "") == ""
  {
  }

  lemma TwiceIdentity(p: Regex, q: Regex, text: string)
    requires Clean(p, text) && Clean(q, text)
    ensures Twice(p, q, text) == text
  {
    SubIdentity(p, text, 0);
    SubIdentity(q, text, 0);
  }

  // ------------------------------------------------------ one pattern for two kinds

  function Union(p: Regex, q: Regex): Regex {
    Pattern(p.alternatives + q.alternatives, {}, Anywhere)
  }

  lemma {:induction false} UnionMatchSecond(p: Regex, q: Regex, text: string, k: nat)
    requires p.edge.Anywhere? && q.edge.Anywhere? && p.tail == {} && q.tail == {} && k <= |q.alternatives|
    ensures MatchFrom(Union(p, q), text, 0, |p.alternatives| + k) == MatchFrom(q, text, 0, k)
    decreases |q.alternatives| - k
  {
    if k < |q.alternatives| {
      UnionMatchSecond(p, q, text, k + 1);
    }
  }

  /** The union matches what the first pattern matches, or else what the second does. */
  lemma {:induction false} UnionMatch(p: Regex, q: Regex, text: string, k: nat)
    requires p.edge.Anywhere? && q.edge.Anywhere? && p.tail == {} && q.tail == {} && k <= |p.alternatives|
    ensures MatchFrom(Union(p, q), text, 0, k)
         == if MatchFrom(p, text, 0, k).Some? then MatchFrom(p, text, 0, k) else MatchEnd(q, text, 0)
    decreases |p.alternatives| - k
  {
    if k < |p.alternatives| {
      UnionMatch(p, q, text, k + 1);
    } else {
      UnionMatchSecond(p, q, text, 0);
    }
  }

  /** Two kinds of fixed width redacted one after the other are redacted as one kind. */
  lemma {:induction false} TwiceIsUnion(p: Regex, q: Regex, text: string)
    requires Apart(p, q) && p.tail == {}
    ensures Twice(p, q, text) == Sub(Union(p, q), text)
    decreases |text|
  {
    var union := Union(p, q);
    UnionMatch(p, q, text, 0);
    assert p.edge.Anywhere? && q.edge.Anywhere?;
    hide Apart, Sub, MatchFrom, Opens, Fits;
    if text == "" {
      EmptySub(p);
      EmptySub(q);
      EmptySub(union);
    } else if MatchEnd(p, text, 0).Some? {
      var n := MatchEnd(p, text, 0).value;
      TwiceAtFirst(p, q, text, n);
      SubAtMatch(union, text, n);
      TwiceIsUnion(p, q, text[n..]);
    } else if MatchEnd(q, text, 0).Some? {
      var n := MatchEnd(q, text, 0).value;
      TwiceAtSecond(p, q, text, n);
      SubAtMatch(union, text, n);
      TwiceIsUnion(p, q, text[n..]);
    } else {
      NoMatchOpensNothing(p, text);
      NoMatchOpensNothing(q, text);
      NoMatchOpensNothing(union, text);
      TwiceAtNone(p, q, text, text[1..]);
      SubAtNoMatch(union, text, text[1..]);
      TwiceIsUnion(p, q, text[1..]);
    }
  }

  lemma EmptySub(p: Regex)
    ensures Sub(p, "") == ""
  {
  }

  lemma NoMatchOpensNothing(p: Regex, text: string)
    requires p.edge.Anywhere?
    ensures MatchEnd(p, text, 0).None? <==> !Opens(p, text, 0)
  {
    MatchFromOpens(p, text, 0, 0);
  }

  // --------------------------------------------------- redacting again and again

  /** Both substitutions after every delta, over everything kept so far. */
  function Again(p: Regex, q: Regex, total: string, deltas: seq<string>): string
    decreases |deltas|
  {
    if deltas == [] then total else Again(p, q, Twice(p, q, total + deltas[0]), deltas[1..])
  }

  lemma {:induction false} AgainOverMark(p: Regex, q: Regex, rest: string, deltas: seq<string>)
    requires Apart(p, q)
    ensures Again(p, q, MARK + rest, deltas) == MARK + Again(p, q, rest, deltas)
    decreases |deltas|
  {
    hide Apart, Twice;
    if deltas != [] {
      assert (MARK + rest) + deltas[0] == MARK + (rest + deltas[0]);
      TwiceOverMark(p, q, rest + deltas[0]);
      AgainOverMark(p, q, Twice(p, q, rest + deltas[0]), deltas[1..]);
    }
  }

  /** What opens nothing in front of the stream opens nothing in front of its redacted beginning. */
  lemma OpensOnlyReceived(p: Regex, c: char, total: string, received: string, after: string)
    requires NoBrackets(p) && FrontAgrees(total, received) && !Opens(p, [c] + (received + after), 0)
    ensures !Opens(p, [c] + total, 0)
  {
    var text, whole := [c] + total, [c] + (received + after);
    forall k | 0 <= k < |p.alternatives| ensures !Fits(p.alternatives[k], text, 0) {
      var n := |p.alternatives[k]|;
      if Fits(p.alternatives[k], text, 0) {
        FitsBracketFree(p, k, text, 0);
        forall i | 0 <= i < n - 1 ensures total[i] != '[' {
          assert text[0..n][i + 1] == total[i];
        }
        assert BracketFree(total[..n - 1]);
        assert text[0..n] == [c] + total[..n - 1] == [c] + received[..n - 1] == whole[0..n];
        FitsAgree(p.alternatives[k], text, 0, whole, 0);
      }
    }
  }

  /** A character at which nothing opens, whatever follows, stays in front of everything. */
  lemma {:induction false} AgainOverChar(
      p: Regex, q: Regex, c: char, total: string, received: string, deltas: seq<string>)
    requires Apart(p, q) && FrontAgrees(total, received)
    requires !Opens(p, [c] + (received + Concat(deltas)), 0) && !Opens(q, [c] + (received + Concat(deltas)), 0)
    ensures Again(p, q, [c] + total, deltas) == [c] + Again(p, q, total, deltas)
    decreases |deltas|
  {
    if deltas != [] {
      assert NoBrackets(p) && NoBrackets(q);
      hide Apart, Sub, Opens, FrontAgrees, Inert, NoBrackets;
      var d, after := deltas[0], Concat(deltas[1..]);
      assert received + Concat(deltas) == (received + d) + after;
      FrontAppend(total, received, d);
      OpensOnlyReceived(p, c, total + d, received + d, after);
      OpensOnlyReceived(q, c, total + d, received + d, after);
      assert ([c] + total) + d == [c] + (total + d);
      TwiceAtNone(p, q, [c] + (total + d), total + d);
      FrontSub(p, total + d, received + d);
      FrontSub(q, Sub(p, total + d), received + d);
      AgainOverChar(p, q, c, Twice(p, q, total + d), received + d, deltas[1..]);
    }
  }

  lemma FrontSelf(text: string)
    ensures FrontAgrees(text, text)
  {
  }

  // ------------------------------------------------- a greedy kind among fixed ones

  /**
    `g` ends in a greedy run, and its character number `stop` is the first that no run has. `f` is
    at least as wide, lies wholly inside a run or begins outside it, and never begins at that character.
   */
  ghost predicate Mixable(g: Regex, f: Regex, stop: nat) {
    && Greedy(g) && SelfContained(f) && Apart(g, f)
    && 0 < stop < |g.alternatives[0]| - 1
    && (forall j | 0 <= j < stop :: g.alternatives[0][j] <= g.tail)
    && g.alternatives[0][stop] !! g.tail && Plain(g, stop, MARK)
    && (forall k | 0 <= k < |f.alternatives| :: |f.alternatives[k]| >= |g.alternatives[0]|)
    && (forall k, j | 0 <= k < |f.alternatives| && 0 <= j < |f.alternatives[k]| ::
          f.alternatives[k][0] !! g.tail || f.alternatives[k][j] <= g.tail)
    && (forall k | 0 <= k < |f.alternatives| ::
          f.alternatives[k][0] !! g.alternatives[0][stop] || f.alternatives[k][1] !! g.alternatives[0][stop + 1])
  }

  /** No character of `text` could stop a run where `g` does. */
  ghost predicate Plain(g: Regex, stop: nat, text: string)
    requires |g.alternatives| == 1 && stop < |g.alternatives[0]|
  {
    forall i | 0 <= i < |text| :: text[i] !in g.alternatives[0][stop]
  }

  /** An occurrence at the start of `x + y` that `x` alone does not hold yet. */
  predicate Pending(p: Regex, x: string, y: string) {
    exists k | 0 <= k < |p.alternatives| :: |x| < |p.alternatives[k]| && Fits(p.alternatives[k], x + y, 0)
  }

  predicate Waits(g: Regex, f: Regex, x: string, y: string) {
    x == "" || Pending(g, x, y) || Pending(f, x, y)
  }

  /** Nothing is redacted while an occurrence is pending. */
  lemma WaitingUnchanged(g: Regex, f: Regex, stop: nat, x: string, y: string)
    requires Mixable(g, f, stop) && Waits(g, f, x, y)
    ensures Clean(g, x) && Clean(f, x) && Twice(g, f, x) == x
  {
    if Pending(f, x, y) {
      var k :| 0 <= k < |f.alternatives| && |x| < |f.alternatives[k]| && Fits(f.alternatives[k], x + y, 0);
      PrefixFirstAcrossCut(f, x, y, k);
      forall at: nat | at <= |x| ensures !Opens(g, x, at) {
        NothingBeginsInside(g, f, x + y, k, at);
        OpensLonger(g, x, y, at);
      }
    } else {
      assert |x| < |g.alternatives[0]|;
      forall at: nat | at <= |x| ensures !Opens(g, x, at) && !Opens(f, x, at) {
      }
    }
    TwiceIdentity(g, f, x);
  }

  lemma OpensLonger(p: Regex, x: string, y: string, at: nat)
    ensures Opens(p, x, at) ==> Opens(p, x + y, at)
  {
    forall k | 0 <= k < |p.alternatives| && Fits(p.alternatives[k], x, at) ensures Fits(p.alternatives[k], x + y, at) {
      FitsLonger(p.alternatives[k], x, y, at);
    }
  }

  lemma {:induction false} CleanEndsInNone(p: Regex, text: string, at: nat)
    requires Clean(p, text) && at <= |text|
    ensures !EndsInMatch(p, text, at)
    decreases |text| - at
  {
    if at < |text| {
      assert !Opens(p, text, at);
      MatchFromOpens(p, text, at, 0);
      CleanEndsInNone(p, text, at + 1);
    }
  }

  lemma {:induction false} CleanSplitsNothing(p: Regex, received: string, deltas: seq<string>)
    requires Clean(p, received + Concat(deltas))
    ensures !Splits(p, received, deltas)
    decreases |deltas|
  {
    if deltas != [] {
      CleanPrefix(p, received + Concat(deltas), |received|);
      assert (received + Concat(deltas))[..|received|] == received;
      CleanEndsInNone(p, received, 0);
      assert received + Concat(deltas) == (received + deltas[0]) + Concat(deltas[1..]);
      CleanSplitsNothing(p, received + deltas[0], deltas[1..]);
    }
  }

  // ------------------------------------------------- one step from the front

  /** The scan reads `before` without a match, or as one match that nothing behind it continues. */
  ghost predicate Passed(g: Regex, before: string, after: string) {
    || (forall i: nat | i < |before| :: !Opens(g, before + after, i))
    || MatchEnd(g, before + after, 0) == Some(|before|)
  }

  lemma {:induction false} EndsPassesOver(g: Regex, before: string, x: string, at: nat)
    requires g.edge.Anywhere? && at <= |before|
    requires forall i: nat | at <= i < |before| :: !Opens(g, before + x, i)
    ensures EndsInMatch(g, before + x, at) <==> EndsInMatch(g, before + x, |before|)
    decreases |before| - at
  {
    if at < |before| {
      assert !Opens(g, before + x, at);
      MatchFromOpens(g, before + x, at, 0);
      EndsPassesOver(g, before, x, at + 1);
    }
  }

  lemma CutsBehindNothing(g: Regex, before: string, x: string, after: string)
    requires g.edge.Anywhere? && forall i: nat | i < |before| :: !Opens(g, (before + x) + after, i)
    ensures CutsRun(g, before + x, after) <==> CutsRun(g, x, after)
  {
    forall i: nat | i < |before| ensures !Opens(g, before + x, i) {
      OpensLonger(g, before + x, after, i);
    }
    EndsInMatchShift(g, before, x, 0);
    EndsPassesOver(g, before, x, 0);
  }

  lemma CutsBehindMatch(g: Regex, before: string, x: string, after: string)
    requires Greedy(g) && before != "" && MatchEnd(g, (before + x) + after, 0) == Some(|before|)
    ensures CutsRun(g, before + x, after) <==> CutsRun(g, x, after)
  {
    var text, alt := before + x, g.alternatives[0];
    SingleMatch(g, text + after);
    SingleMatch(g, text);
    FitsLonger(alt, text, after, 0);
    RunEndAppend(g.tail, text, after, |alt|);
    EndsInMatchShift(g, before, x, 0);
  }

  lemma CutsBehind(g: Regex, before: string, x: string, after: string)
    requires Greedy(g) && before != "" && Passed(g, before, x + after)
    ensures CutsRun(g, before + x, after) <==> CutsRun(g, x, after)
  {
    Associative(before, x, after);
    hide Opens, MatchEnd, CutsRun;
    if MatchEnd(g, (before + x) + after, 0) == Some(|before|) {
      CutsBehindMatch(g, before, x, after);
    } else {
      CutsBehindNothing(g, before, x, after);
    }
  }

  lemma {:induction false} SplitsBehind(g: Regex, before: string, x: string, deltas: seq<string>)
    requires Greedy(g) && before != "" && Passed(g, before, x + Concat(deltas))
    ensures Splits(g, before + x, deltas) <==> Splits(g, x, deltas)
    decreases |deltas|
  {
    if deltas != [] {
      hide Passed, Greedy, CutsRun;
      CutsBehind(g, before, x, Concat(deltas));
      assert x + Concat(deltas) == (x + deltas[0]) + Concat(deltas[1..]);
      SplitsBehind(g, before, x + deltas[0], deltas[1..]);
      assert (before + x) + deltas[0] == before + (x + deltas[0]);
    }
  }

  lemma Associative(x: string, y: string, z: string)
    ensures x + (y + z) == (x + y) + z
  {
  }

  lemma DropTwice(x: string, y: string, n: nat, k: nat)
    requires n <= |x| && n <= k <= |x + y|
    ensures (x + y)[n..] == x[n..] + y && (x + y)[k..] == (x[n..] + y)[k - n..]
  {
  }

  lemma CutAt(x: string, y: string, n: nat)
    requires n <= |x|
    ensures x == x[..n] + x[n..] && x + y == x[..n] + (x[n..] + y)
  {
  }

  /**
    The first `n` characters of `x` come out as `piece` in both forms; when a boundary behind them
    cuts their run, redacting in one piece swallows `cut` more.
   */
  ghost predicate Peels(g: Regex, f: Regex, x: string, deltas: seq<string>, piece: string, n: nat, cut: nat) {
    0 < n <= |x| &&
    var whole, rest := x + Concat(deltas), x[n..] + Concat(deltas);
    && cut <= |rest| && (piece == MARK || (n == 1 && piece == [x[0]]))
    && Again(g, f, Twice(g, f, x), deltas) == piece + Again(g, f, Twice(g, f, x[n..]), deltas)
    && Twice(g, f, whole) == piece + Twice(g, f, rest[cut..])
    && (cut > 0 ==> n == |x| && cut == RunEnd(g.tail, rest, 0))
    && (Splits(g, x, deltas) <==> cut > 0 || Splits(g, x[n..], deltas))
    && (!Opens(g, whole, 0) && whole[0] in g.tail ==> n <= RunEnd(g.tail, whole, 0))
  }

  lemma PeelNone(g: Regex, f: Regex, stop: nat, x: string, deltas: seq<string>)
    requires Mixable(g, f, stop) && x != ""
    requires !Opens(g, x + Concat(deltas), 0) && !Opens(f, x + Concat(deltas), 0)
    ensures Peels(g, f, x, deltas, [x[0]], 1, 0)
  {
    hide Sub, Mixable, Opens, EndsInMatch, CutsRun;
    var y := Concat(deltas);
    OpensLonger(g, x, y, 0);
    OpensLonger(f, x, y, 0);
    MixableParts(g, f, stop);
    assert x == [x[0]] + x[1..] && x + y == [x[0]] + (x[1..] + y);
    assert (x + y)[1..] == x[1..] + y;
    TwiceAtNone(g, f, x, x[1..]);
    TwiceAtNone(g, f, x + y, x[1..] + y);
    FrontSelf(x[1..]);
    FrontSub(g, x[1..], x[1..]);
    FrontSub(f, Sub(g, x[1..]), x[1..]);
    AgainOverChar(g, f, x[0], Twice(g, f, x[1..]), x[1..], deltas);
    SplitsBehind(g, [x[0]], x[1..], deltas);
    assert (x[1..] + y)[0..] == x[1..] + y;
  }

  lemma MixableParts(g: Regex, f: Regex, stop: nat)
    requires Mixable(g, f, stop)
    ensures Apart(g, f) && Greedy(g) && SelfContained(f)
    ensures g.edge.Anywhere? && f.edge.Anywhere? && f.tail == {}
  {
  }

  /** An occurrence of fixed width at the front, whole in what was received, with no run beginning in it. */
  lemma FixedFront(g: Regex, f: Regex, stop: nat, x: string, y: string) returns (n: nat)
    requires Mixable(g, f, stop) && x != "" && !Pending(f, x, y) && Opens(f, x + y, 0)
    ensures 0 < n <= |x| && MatchEnd(f, x, 0) == Some(n) && MatchEnd(f, x + y, 0) == Some(n)
    ensures forall i: nat | i < n :: !Opens(g, x + y, i)
    ensures (x + y)[0] in g.tail ==> n <= RunEnd(g.tail, x + y, 0)
  {
    NoMatchOpensNothing(f, x + y);
    var k := MatchFromWidth(f, x + y, 0, 0);
    n := |f.alternatives[k]|;
    FitsLonger(f.alternatives[k], x, y, 0);
    MatchFromPrefix(f, x, y, 0, k);
    forall i: nat | i < n ensures !Opens(g, x + y, i) {
      NothingBeginsInside(g, f, x + y, k, i);
    }
    FixedInRun(g, f, stop, x + y, k);
  }

  lemma PeelFixed(g: Regex, f: Regex, stop: nat, x: string, deltas: seq<string>) returns (n: nat)
    requires Mixable(g, f, stop) && !Waits(g, f, x, Concat(deltas)) && Opens(f, x + Concat(deltas), 0)
    ensures !Opens(g, x + Concat(deltas), 0) && Peels(g, f, x, deltas, MARK, n, 0)
  {
    MixableParts(g, f, stop);
    hide Mixable, Opens, Pending, Greedy, Apart, SelfContained, Peels;
    n := FixedFront(g, f, stop, x, Concat(deltas));
    FixedPeels(g, f, x, deltas, n);
  }

  lemma FixedPeels(g: Regex, f: Regex, x: string, deltas: seq<string>, n: nat)
    requires Greedy(g) && Apart(g, f) && 0 < n <= |x|
    requires MatchEnd(f, x, 0) == Some(n) && MatchEnd(f, x + Concat(deltas), 0) == Some(n)
    requires forall i: nat | i < n :: !Opens(g, x + Concat(deltas), i)
    requires (x + Concat(deltas))[0] in g.tail ==> n <= RunEnd(g.tail, x + Concat(deltas), 0)
    ensures Peels(g, f, x, deltas, MARK, n, 0)
  {
    var y := Concat(deltas);
    hide Twice, Again, MatchEnd, Splits, Opens, Apart, RunEnd, Concat, Greedy;
    CutAt(x, y, n);
    DropTwice(x, y, n, n);
    TwiceAtSecond(g, f, x, n);
    TwiceAtSecond(g, f, x + y, n);
    AgainOverMark(g, f, Twice(g, f, x[n..]), deltas);
    SplitsBehind(g, x[..n], x[n..], deltas);
    assert (x[n..] + y)[0..] == x[n..] + y;
  }

  /** A fixed occurrence that begins inside a run ends inside it. */
  lemma FixedInRun(g: Regex, f: Regex, stop: nat, text: string, k: nat)
    requires Mixable(g, f, stop) && k < |f.alternatives| && Fits(f.alternatives[k], text, 0)
    ensures text[0] in g.tail ==> |f.alternatives[k]| <= RunEnd(g.tail, text, 0)
  {
    var alt := f.alternatives[k];
    assert text[0 + 0] in alt[0];
    if text[0] in g.tail {
      forall j | 0 <= j < |alt| ensures text[j] in g.tail {
        assert text[0 + j] in alt[j];
        assert f.alternatives[k][0] !! g.tail || f.alternatives[k][j] <= g.tail;
      }
      RunReaches(g.tail, text, 0, |alt|);
    }
  }

  lemma {:induction false} RunReaches(tail: CharClass, text: string, at: nat, end: nat)
    requires at <= end <= |text| && forall i | at <= i < end :: text[i] in tail
    ensures end <= RunEnd(tail, text, at)
    decreases end - at
  {
    if at < end {
      RunReaches(tail, text, at + 1, end);
    }
  }

  /** The match at the front, in what was received and in the whole, which may continue its run. */
  lemma GreedyFront(g: Regex, x: string, y: string) returns (n: nat, cut: nat)
    requires Greedy(g) && !Pending(g, x, y) && Opens(g, x + y, 0)
    ensures 0 < n <= |x| && cut <= |y| && MatchEnd(g, x, 0) == Some(n) && MatchEnd(g, x + y, 0) == Some(n + cut)
    ensures cut > 0 ==> n == |x| && cut == RunEnd(g.tail, y, 0)
  {
    var alt := g.alternatives[0];
    assert |alt| <= |x| && Fits(alt, x + y, 0);
    FitsLonger(alt, x, y, 0);
    SingleMatch(g, x);
    SingleMatch(g, x + y);
    RunEndAppend(g.tail, x, y, |alt|);
    n := RunEnd(g.tail, x, |alt|);
    cut := if n == |x| then RunEnd(g.tail, y, 0) else 0;
  }

  lemma PeelGreedy(g: Regex, f: Regex, stop: nat, x: string, deltas: seq<string>) returns (n: nat, cut: nat)
    requires Mixable(g, f, stop) && !Waits(g, f, x, Concat(deltas)) && Opens(g, x + Concat(deltas), 0)
    ensures Peels(g, f, x, deltas, MARK, n, cut)
  {
    MixableParts(g, f, stop);
    hide Mixable, Opens, Pending, Greedy, Apart, SelfContained, Peels;
    n, cut := GreedyFront(g, x, Concat(deltas));
    GreedySplits(g, x, deltas, n, cut);
    GreedyPeels(g, f, x, deltas, n, cut);
  }

  lemma GreedyPeels(g: Regex, f: Regex, x: string, deltas: seq<string>, n: nat, cut: nat)
    requires Apart(g, f) && 0 < n <= |x| && MatchEnd(g, x, 0) == Some(n) && Opens(g, x + Concat(deltas), 0)
    requires cut <= |Concat(deltas)| && MatchEnd(g, x + Concat(deltas), 0) == Some(n + cut)
    requires cut > 0 ==> n == |x| && cut == RunEnd(g.tail, Concat(deltas), 0)
    requires Splits(g, x, deltas) <==> cut > 0 || Splits(g, x[n..], deltas)
    ensures Peels(g, f, x, deltas, MARK, n, cut)
  {
    var y := Concat(deltas);
    hide Twice, Again, MatchEnd, Splits, Opens, Apart, RunEnd, Concat;
    TwiceAtFirst(g, f, x, n);
    TwiceAtFirst(g, f, x + y, n + cut);
    AgainOverMark(g, f, Twice(g, f, x[n..]), deltas);
    DropTwice(x, y, n, n + cut);
    if n == |x| {
      assert x[n..] + y == y;
    }
  }

  lemma GreedySplits(g: Regex, x: string, deltas: seq<string>, n: nat, cut: nat)
    requires Greedy(g) && n <= |x| && MatchEnd(g, x, 0) == Some(n)
    requires MatchEnd(g, x + Concat(deltas), 0) == Some(n + cut)
    requires cut > 0 ==> n == |x| && cut == RunEnd(g.tail, Concat(deltas), 0)
    ensures Splits(g, x, deltas) <==> cut > 0 || Splits(g, x[n..], deltas)
  {
    if cut == 0 {
      hide Greedy, Splits, MatchEnd, Concat, Opens;
      CutAt(x, Concat(deltas), n);
      SplitsBehind(g, x[..n], x[n..], deltas);
    } else {
      assert deltas != [];
      hide Concat;
      assert EndsInMatch(g, x, 0) && Concat(deltas)[0] in g.tail;
    }
  }

  /** Whatever stands at the front is taken off as one piece, unless an occurrence is pending there. */
  lemma Peel(g: Regex, f: Regex, stop: nat, x: string, deltas: seq<string>)
    returns (piece: string, n: nat, cut: nat)
    requires Mixable(g, f, stop) && !Waits(g, f, x, Concat(deltas))
    ensures Peels(g, f, x, deltas, piece, n, cut)
  {
    hide Mixable, Opens, Peels, Concat;
    if Opens(g, x + Concat(deltas), 0) {
      piece := MARK;
      n, cut := PeelGreedy(g, f, stop, x, deltas);
    } else if Opens(f, x + Concat(deltas), 0) {
      piece, cut := MARK, 0;
      n := PeelFixed(g, f, stop, x, deltas);
    } else {
      piece, n, cut := [x[0]], 1, 0;
      PeelNone(g, f, stop, x, deltas);
    }
  }

  // --------------------------------------------- boundaries that cut a run

  /** A run at whose start `g` opens stops at its stop character, which then comes out first. */
  lemma StopComesFirst(g: Regex, f: Regex, stop: nat, text: string)
    requires Mixable(g, f, stop) && Opens(g, text, 0) && RunEnd(g.tail, text, 0) > 0
    ensures RunEnd(g.tail, text, 0) == stop
    ensures Twice(g, f, text[stop..]) != "" && !Plain(g, stop, Twice(g, f, text[stop..])[..1])
  {
    var alt := g.alternatives[0];
    assert Fits(alt, text, 0);
    forall j | 0 <= j < |alt| ensures text[j] in alt[j] {
      assert text[0 + j] in alt[j];
    }
    RunReaches(g.tail, text, 0, stop);
    if RunEnd(g.tail, text, 0) > stop {
      RunIsTail(g.tail, text, 0, stop);
      assert false;
    }
    var rest := text[stop..];
    assert rest[0] in alt[stop] && rest[1] in alt[stop + 1];
    forall k | 0 <= k < |f.alternatives| ensures !Fits(f.alternatives[k], rest, 0) {
      assert rest[0 + 0] !in f.alternatives[k][0] || rest[0 + 1] !in f.alternatives[k][1];
    }
    assert alt[0] <= g.tail;
    assert rest[0 + 0] !in alt[0];
    TwiceAtNone(g, f, rest, rest[1..]);
    assert Twice(g, f, rest)[..1][0] == rest[0];
  }

  /** What stands in front of a piece on one side only is what stands behind it once the piece is taken off. */
  lemma Rotate(front: string, piece: string, rest: string, other: string) returns (back: string)
    requires front + (piece + rest) == piece + other
    ensures |back| == |front| && back + rest == other && front + piece == piece + back
  {
    var whole := front + piece;
    back := whole[|piece|..];
    assert front + (piece + rest) == whole + rest;
    assert whole[..|piece|] == (piece + other)[..|piece|] == piece;
    assert whole == piece + back;
    assert (piece + (back + rest))[|piece|..] == back + rest && (piece + other)[|piece|..] == other;
    assert whole + rest == piece + (back + rest);
  }

  lemma PlainRotated(g: Regex, stop: nat, front: string, piece: string, back: string)
    requires |g.alternatives| == 1 && stop < |g.alternatives[0]| && Plain(g, stop, front)
    requires front + piece == piece + back && (Plain(g, stop, piece) || (front != "" && |piece| == 1))
    ensures Plain(g, stop, back)
  {
    assert front != "" ==> (front + piece)[0] == front[0];
    forall i | 0 <= i < |back| ensures back[i] !in g.alternatives[0][stop] {
      assert (piece + back)[|piece| + i] == back[i] == (front + piece)[|piece| + i];
    }
  }

  /** The run at the front without its first `n` characters. */
  lemma {:induction false} RunBehind(tail: CharClass, text: string, n: nat)
    requires n <= RunEnd(tail, text, 0)
    ensures RunEnd(tail, text[n..], 0) == RunEnd(tail, text, 0) - n
    decreases n
  {
    if n == 0 {
      assert text[0..] == text;
    } else {
      assert text == [text[0]] + text[1..];
      RunEndShift(tail, [text[0]], text[1..], 0);
      RunBehind(tail, text[1..], n - 1);
      assert text[1..][n - 1..] == text[n..];
    }
  }

  /** How much of a run the batch redaction has swallowed: all of it, or nothing. */
  ghost predicate Swallowed(g: Regex, text: string, k: nat) {
    k == 0 || k == RunEnd(g.tail, text, 0)
  }

  /**
    Once something came out in front, or part of a run was swallowed, the two forms never come
    together again, however the rest of the stream is cut.
   */
  lemma {:induction false} NeverTogether(
      g: Regex, f: Regex, stop: nat, front: string, k: nat, x: string, deltas: seq<string>)
    requires Mixable(g, f, stop) && Plain(g, stop, front) && (front != "" || k > 0)
    requires Swallowed(g, x + Concat(deltas), k)
    ensures front + Again(g, f, Twice(g, f, x), deltas) != Twice(g, f, (x + Concat(deltas))[k..])
    decreases |x + Concat(deltas)|, |deltas|, 1
  {
    var y := Concat(deltas);
    hide Mixable, Plain, Opens, Pending, Twice;
    if Waits(g, f, x, y) {
      WaitingUnchanged(g, f, stop, x, y);
      if deltas == [] {
        NothingPendingAtEnd(g, f, x);
        assert x + y == "" && k == 0;
      } else {
        assert x + y == (x + deltas[0]) + Concat(deltas[1..]);
        NeverTogether(g, f, stop, front, k, x + deltas[0], deltas[1..]);
      }
    } else {
      var piece, n, cut := Peel(g, f, stop, x, deltas);
      if k == 0 {
        ApartBehind(g, f, stop, front, x, deltas, piece, n, cut);
      } else {
        ApartInRun(g, f, stop, front, x, deltas, piece, n, cut);
      }
    }
  }

  lemma NothingPendingAtEnd(g: Regex, f: Regex, x: string)
    requires Waits(g, f, x, "")
    ensures x == ""
  {
    assert x + "" == x;
  }

  /** With something in front and nothing swallowed, the piece is turned from behind the front to before it. */
  lemma {:induction false} ApartBehind(
      g: Regex, f: Regex, stop: nat, front: string, x: string, deltas: seq<string>, piece: string, n: nat, cut: nat)
    requires Mixable(g, f, stop) && Plain(g, stop, front) && front != ""
    requires Peels(g, f, x, deltas, piece, n, cut)
    ensures front + Again(g, f, Twice(g, f, x), deltas) != Twice(g, f, (x + Concat(deltas))[0..])
    decreases |x + Concat(deltas)|, |deltas|, 0
  {
    PlainMark(g, f, stop);
    hide Mixable, Plain, Opens, Twice, Again, Splits;
    var y := Concat(deltas);
    assert (x + y)[0..] == x + y;
    if front + Again(g, f, Twice(g, f, x), deltas) == Twice(g, f, x + y) {
      var left := Again(g, f, Twice(g, f, x[n..]), deltas);
      var back := Rotate(front, piece, left, Twice(g, f, (x[n..] + y)[cut..]));
      PlainRotated(g, stop, front, piece, back);
      NeverTogether(g, f, stop, back, cut, x[n..], deltas);
    }
  }

  lemma PlainMark(g: Regex, f: Regex, stop: nat)
    requires Mixable(g, f, stop)
    ensures |g.alternatives| == 1 && stop < |g.alternatives[0]| && Plain(g, stop, MARK)
    ensures forall c | c in g.tail :: Plain(g, stop, [c])
  {
  }

  lemma PlainJoined(g: Regex, stop: nat, front: string, piece: string)
    requires |g.alternatives| == 1 && stop < |g.alternatives[0]|
    requires Plain(g, stop, front) && Plain(g, stop, piece)
    ensures Plain(g, stop, front + piece)
  {
  }

  /** A piece taken off inside a run holds no stop character and, unless the run is an opening's, stays in it. */
  lemma PieceInRun(
      g: Regex, f: Regex, stop: nat, x: string, deltas: seq<string>, piece: string, n: nat, cut: nat)
    requires Mixable(g, f, stop) && Peels(g, f, x, deltas, piece, n, cut)
    requires RunEnd(g.tail, x + Concat(deltas), 0) > 0
    ensures piece != "" && 0 < n <= |x| && Plain(g, stop, piece)
    ensures Again(g, f, Twice(g, f, x), deltas) == piece + Again(g, f, Twice(g, f, x[n..]), deltas)
    ensures !Opens(g, x + Concat(deltas), 0) ==> n <= RunEnd(g.tail, x + Concat(deltas), 0)
  {
    PlainMark(g, f, stop);
    var whole := x + Concat(deltas);
    assert whole[0] in g.tail && whole[0] == x[0];
    hide Mixable, Opens, Twice, Again, Splits, Plain;
  }

  lemma StopDiffers(g: Regex, f: Regex, stop: nat, front: string, left: string, text: string)
    requires Mixable(g, f, stop) && Opens(g, text, 0) && RunEnd(g.tail, text, 0) > 0
    requires front != "" && Plain(g, stop, front)
    ensures front + left != Twice(g, f, text[RunEnd(g.tail, text, 0)..])
  {
    StopComesFirst(g, f, stop, text);
    hide Mixable, Opens, Twice;
    assert (front + left)[..1] == front[..1];
  }

  /** Inside a run that was swallowed, the piece joins what stands in front. */
  lemma {:induction false} ApartInRun(
      g: Regex, f: Regex, stop: nat, front: string, x: string, deltas: seq<string>, piece: string, n: nat, cut: nat)
    requires Mixable(g, f, stop) && Plain(g, stop, front) && RunEnd(g.tail, x + Concat(deltas), 0) > 0
    requires Peels(g, f, x, deltas, piece, n, cut)
    ensures var k := RunEnd(g.tail, x + Concat(deltas), 0);
      front + Again(g, f, Twice(g, f, x), deltas) != Twice(g, f, (x + Concat(deltas))[k..])
    decreases |x + Concat(deltas)|, |deltas|, 0
  {
    PlainMark(g, f, stop);
    hide Mixable, Opens, Twice, Again, Splits, Peels, Plain, Concat, RunEnd;
    PieceInRun(g, f, stop, x, deltas, piece, n, cut);
    PlainJoined(g, stop, front, piece);
    var whole := x + Concat(deltas);
    var k := RunEnd(g.tail, whole, 0);
    var left := Again(g, f, Twice(g, f, x[n..]), deltas);
    Associative(front, piece, left);
    if Opens(g, whole, 0) {
      StopDiffers(g, f, stop, front + piece, left, whole);
    } else {
      RunBehind(g.tail, whole, n);
      DropTwice(x, Concat(deltas), n, k);
      NeverTogether(g, f, stop, front + piece, k - n, x[n..], deltas);
    }
  }

  /**
    However kinds are mixed: redacting again after every delta gives the redaction of the whole if and
    only if no delta boundary cuts a run.
   */
  lemma {:induction false} AgainExact(g: Regex, f: Regex, stop: nat, x: string, deltas: seq<string>)
    requires Mixable(g, f, stop)
    ensures Again(g, f, Twice(g, f, x), deltas) == Twice(g, f, x + Concat(deltas)) <==> !Splits(g, x, deltas)
    decreases |x + Concat(deltas)|, |deltas|
  {
    var y := Concat(deltas);
    PlainMark(g, f, stop);
    hide Mixable, Opens, Pending, Twice, CutsRun;
    if deltas == [] {
      assert x + y == x;
    } else if Waits(g, f, x, y) {
      WaitingUnchanged(g, f, stop, x, y);
      CleanEndsInNone(g, x, 0);
      NoCutAtNone(g, x, y);
      assert x + y == (x + deltas[0]) + Concat(deltas[1..]);
      AgainExact(g, f, stop, x + deltas[0], deltas[1..]);
    } else {
      var piece, n, cut := Peel(g, f, stop, x, deltas);
      var rest := x[n..] + y;
      if cut > 0 {
        NeverTogether(g, f, stop, "", cut, x[n..], deltas);
        assert "" + Again(g, f, Twice(g, f, x[n..]), deltas) == Again(g, f, Twice(g, f, x[n..]), deltas);
      } else {
        AgainExact(g, f, stop, x[n..], deltas);
        assert rest[0..] == rest;
      }
      SamePieceInFront(piece, Again(g, f, Twice(g, f, x[n..]), deltas), Twice(g, f, rest[cut..]));
    }
  }

  lemma NoCutAtNone(g: Regex, x: string, y: string)
    requires !EndsInMatch(g, x, 0)
    ensures !CutsRun(g, x, y)
  {
  }

  lemma SamePieceInFront(piece: string, left: string, right: string)
    ensures piece + left == piece + right <==> left == right
  {
    assert (piece + left)[|piece|..] == left && (piece + right)[|piece|..] == right;
  }

  // ------------------------------------------------ the inspector, kinds mixed

  /** Every secret pattern can be held back, and no occurrence reaches out of what is held back. */
  ghost predicate AllSafe(engine: OutputGuardrail, holdback: nat, emitted: string, buffer: string) {
    forall q | q in engine.secrets :: Streamable(q, holdback) && Safe(q, holdback, emitted, buffer)
  }

  ghost predicate PiiAbsent(engine: OutputGuardrail, text: string) {
    forall q | q in engine.pii :: Inert(q) && Clean(q, text)
  }

  /** The inspector that keeps everything, and redacts it all again after every delta. */
  function RedactAgain(patterns: seq<Regex>, total: string, deltas: seq<string>): string
    decreases |deltas|
  {
    if deltas == [] then total else RedactAgain(patterns, Redact(patterns, total + deltas[0]), deltas[1..])
  }

  lemma {:induction false} RedactIdentity(patterns: seq<Regex>, text: string)
    requires forall q | q in patterns :: Clean(q, text)
    ensures Redact(patterns, text) == text
  {
    if patterns != [] {
      var n := |patterns| - 1;
      assert patterns[n] in patterns;
      RedactIdentity(patterns[..n], text);
      SubIdentity(patterns[n], text, 0);
    }
  }

  /** Without PII one evaluation redacts the secrets. */
  lemma ReleaseIsRedact(engine: OutputGuardrail, holdback: nat, combined: string, final: bool)
    requires forall q | q in engine.secrets :: q.edge.Anywhere?
    requires PiiAbsent(engine, combined) && !Release(engine, holdback, combined, final).decision.action.Block?
    ensures var r := Release(engine, holdback, combined, final); r.emit + r.buffer == Redact(engine.secrets, combined)
  {
    forall q | q in engine.pii ensures !Matches(q, combined) {
      CleanIsNoMatch(q, combined);
    }
    if !exists q :: q in engine.secrets && Matches(q, combined) {
      forall q | q in engine.secrets ensures Clean(q, combined) {
        CleanIsNoMatch(q, combined);
      }
      RedactIdentity(engine.secrets, combined);
    }
  }

  ghost predicate OpensNowhereIn(q: Regex, front: string, rest: string) {
    forall i: nat | i < |front| :: !Opens(q, front + rest, i)
  }

  /** A substitution passes over a front in which nothing opens, and opens nothing there. */
  lemma SubBehindFront(p: Regex, q: Regex, front: string, rest: string)
    requires p.edge.Anywhere? && NoBrackets(q) && OpensNowhereIn(p, front, rest) && OpensNowhereIn(q, front, rest)
    ensures Sub(p, front + rest) == front + Sub(p, rest) && OpensNowhereIn(q, front, Sub(p, rest))
  {
    SubPassesOver(p, front, rest);
    forall i: nat | i < |front| ensures !Opens(q, front + Sub(p, rest), i) {
      var text := front[i..] + rest;
      assert front + rest == front[..i] + text && front + Sub(p, rest) == front[..i] + (front[i..] + Sub(p, rest));
      forall j: nat | j < |front[i..]| ensures !Opens(p, text, j) {
        OpensShift(p, front[..i], text, j);
        assert !Opens(p, front + rest, i + j);
      }
      SubPassesOver(p, front[i..], rest);
      SubOpensOnlyOld(p, q, text, 0);
      OpensShift(q, front[..i], text, 0);
      OpensShift(q, front[..i], Sub(p, text), 0);
    }
  }

  lemma {:induction false} RedactBehindFront(patterns: seq<Regex>, q: Regex, front: string, rest: string)
    requires forall p | p in patterns :: p.edge.Anywhere? && NoBrackets(p) && OpensNowhereIn(p, front, rest)
    requires NoBrackets(q) && OpensNowhereIn(q, front, rest)
    ensures Redact(patterns, front + rest) == front + Redact(patterns, rest)
    ensures OpensNowhereIn(q, front, Redact(patterns, rest))
    decreases |patterns|
  {
    if patterns != [] {
      var n := |patterns| - 1;
      var last := patterns[n];
      assert patterns == patterns[..n] + [last];
      RedactBehindFront(patterns[..n], q, front, rest);
      RedactBehindFront(patterns[..n], last, front, rest);
      SubBehindFront(last, q, front, Redact(patterns[..n], rest));
    }
  }

  lemma {:induction false} RedactPrefixClean(patterns: seq<Regex>, q: Regex, x: string, y: string)
    requires Inert(q) && Clean(q, x + y)
    ensures Clean(q, Redact(patterns, x) + y)
  {
    if patterns != [] {
      var n := |patterns| - 1;
      RedactPrefixClean(patterns[..n], q, x, y);
      PrefixSubClean(patterns[n], q, Redact(patterns[..n], x), y, 0);
    }
  }

  lemma CleanMiddle(q: Regex, before: string, text: string, after: string)
    requires Clean(q, before + (text + after))
    ensures Clean(q, text)
  {
    forall at: nat | at <= |text| ensures !Opens(q, text, at) {
      OpensLonger(q, text, after, at);
      OpensShift(q, before, text + after, at);
      assert !Opens(q, before + (text + after), |before| + at);
    }
  }

  /** What is already out takes no further part in the redaction. */
  lemma RedactOverSeam(engine: OutputGuardrail, holdback: nat, emitted: string, buffer: string, delta: string)
    requires AllSafe(engine, holdback, emitted, buffer)
    ensures Redact(engine.secrets, (emitted + buffer) + delta) == emitted + Redact(engine.secrets, buffer + delta)
  {
    Associative(emitted, buffer, delta);
    forall q, at: nat | q in engine.secrets && at < |emitted| ensures !Opens(q, emitted + (buffer + delta), at) {
      NothingOpensAcrossSeam(q, holdback, emitted, buffer, delta, at);
    }
    if engine.secrets != [] {
      RedactBehindFront(engine.secrets, engine.secrets[0], emitted, buffer + delta);
    }
  }

  /** One push or flush of the bounded form is one step of the simple form. */
  lemma ReleaseIsRedactStep(
      engine: OutputGuardrail, holdback: nat, emitted: string, buffer: string, delta: string,
      after: string, final: bool)
    requires AllSafe(engine, holdback, emitted, buffer)
    requires PiiAbsent(engine, (emitted + buffer) + (delta + after))
    requires !Release(engine, holdback, buffer + delta, final).decision.action.Block?
    ensures var r := Release(engine, holdback, buffer + delta, final);
      emitted + (r.emit + r.buffer) == Redact(engine.secrets, (emitted + buffer) + delta)
    ensures PiiAbsent(engine, Redact(engine.secrets, (emitted + buffer) + delta) + after)
  {
    Regroup(emitted, buffer, delta, after);
    forall q | q in engine.pii
      ensures Clean(q, buffer + delta) && Clean(q, Redact(engine.secrets, (emitted + buffer) + delta) + after)
    {
      CleanMiddle(q, emitted, buffer + delta, after);
      RedactPrefixClean(engine.secrets, q, (emitted + buffer) + delta, after);
    }
    ReleaseIsRedact(engine, holdback, buffer + delta, final);
    RedactOverSeam(engine, holdback, emitted, buffer, delta);
  }

  lemma AllSafeStep(engine: OutputGuardrail, holdback: nat, emitted: string, buffer: string, delta: string)
    requires AllSafe(engine, holdback, emitted, buffer)
    requires !Release(engine, holdback, buffer + delta, false).decision.action.Block?
    ensures var r := Release(engine, holdback, buffer + delta, false);
      AllSafe(engine, holdback, emitted + r.emit, r.buffer)
  {
    forall q | q in engine.secrets
      ensures var r := Release(engine, holdback, buffer + delta, false);
        Safe(q, holdback, emitted + r.emit, r.buffer)
    {
      SafeStep(engine, holdback, q, emitted, buffer, delta);
    }
  }

  lemma RedactFlush(engine: OutputGuardrail, holdback: nat, emitted: string, buffer: string)
    requires AllSafe(engine, holdback, emitted, buffer) && PiiAbsent(engine, (emitted + buffer) + "")
    requires !Release(engine, holdback, buffer, true).decision.action.Block?
    ensures emitted + Release(engine, holdback, buffer, true).emit == emitted + buffer
  {
    assert buffer + "" == buffer && "" + "" == "" && (emitted + buffer) + "" == emitted + buffer;
    ReleaseIsRedactStep(engine, holdback, emitted, buffer, "", "", true);
    RedactIdentity(engine.secrets, emitted + buffer);
    var last := Release(engine, holdback, buffer, true);
    assert last.emit + last.buffer == last.emit;
  }

  /**
    The bounded form refines the simple one for every mix of secrets: when no PII occurs, the inspector
    that keeps `holdback` characters releases what the one that keeps everything would.
   */
  lemma {:induction false} StreamRefinesRedaction(
      engine: OutputGuardrail, holdback: nat, emitted: string, buffer: string, deltas: seq<string>)
    requires AllSafe(engine, holdback, emitted, buffer)
    requires PiiAbsent(engine, (emitted + buffer) + Concat(deltas))
    requires !Stream(engine, holdback, buffer, deltas).blocked
    ensures emitted + Stream(engine, holdback, buffer, deltas).emitted
         == RedactAgain(engine.secrets, emitted + buffer, deltas)
    decreases |deltas|
  {
    hide AllSafe, PiiAbsent, Release, Redact;
    if deltas == [] {
      RedactFlush(engine, holdback, emitted, buffer);
    } else {
      var first := Release(engine, holdback, buffer + deltas[0], false);
      ReleaseIsRedactStep(engine, holdback, emitted, buffer, deltas[0], Concat(deltas[1..]), false);
      AllSafeStep(engine, holdback, emitted, buffer, deltas[0]);
      var rest := Stream(engine, holdback, first.buffer, deltas[1..]);
      Associative(emitted, first.emit, first.buffer);
      Associative(emitted, first.emit, rest.emitted);
      StreamRefinesRedaction(engine, holdback, emitted + first.emit, first.buffer, deltas[1..]);
    }
  }
}
