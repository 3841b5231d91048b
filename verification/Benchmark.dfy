/**
  The arithmetic of a benchmark report: per-label counts, the confusion matrix, micro F1, accuracy
  and the expected calibration error.
 */
module Benchmark {
  import opened Counting
  import opened Filtering
  import opened Wrappers

  type Confidence = c: real | 0.0 <= c <= 1.0

  /** One scored prompt: the label it should get, the label it got and how sure the cascade was. */
  datatype Outcome = Outcome(expected: string, predicted: string, confidence: Confidence)

  datatype LabelScores = LabelScores(support: nat, predicted: nat, truePositive: nat)

  datatype Report = Report(outcomes: seq<Outcome>, scored: nat)

  datatype Side = Expected | Predicted

  function Key(side: Side): Outcome -> string {
    (o: Outcome) => if side == Expected then o.expected else o.predicted
  }

  predicate Correct(o: Outcome) {
    o.predicted == o.expected
  }

  // ---------------------------------------------------------------- counting

  function Support(os: seq<Outcome>, name: string): nat {
    Count(os, Has(Key(Expected), name))
  }

  function TimesPredicted(os: seq<Outcome>, name: string): nat {
    Count(os, Has(Key(Predicted), name))
  }

  /** How often `expected` was answered with `predicted`. */
  function Cell(os: seq<Outcome>, expected: string, predicted: string): nat {
    Count(os, Both(Has(Key(Expected), expected), Has(Key(Predicted), predicted)))
  }

  // ------------------------------------------------------------ label scores

  ghost predicate Appears(os: seq<Outcome>, name: string) {
    exists o | o in os :: o.expected == name || o.predicted == name
  }

  function Slot(scores: map<string, LabelScores>, name: string): LabelScores {
    if name in scores then scores[name] else LabelScores(0, 0, 0)
  }

  /** Exactly the labels that appear have a slot, and each slot holds the counts of its label. */
  ghost predicate ScoresOf(scores: map<string, LabelScores>, os: seq<Outcome>) {
    && (forall l :: l in scores <==> Appears(os, l))
    && (forall l | l in scores ::
          scores[l] == LabelScores(Support(os, l), TimesPredicted(os, l), Cell(os, l, l)))
  }

  lemma AbsentCountsNothing(os: seq<Outcome>, name: string)
    requires !Appears(os, name)
    ensures Support(os, name) == 0 && TimesPredicted(os, name) == 0 && Cell(os, name, name) == 0
  {
    CountNone(os, Has(Key(Expected), name));
    CountNone(os, Has(Key(Predicted), name));
    CountNone(os, Both(Has(Key(Expected), name), Has(Key(Predicted), name)));
  }

  lemma CountsPush(os: seq<Outcome>, o: Outcome, l: string)
    ensures Support(os + [o], l) == Support(os, l) + if o.expected == l then 1 else 0
    ensures TimesPredicted(os + [o], l) == TimesPredicted(os, l) + if o.predicted == l then 1 else 0
    ensures Cell(os + [o], l, l) == Cell(os, l, l) + if o.expected == l && o.predicted == l then 1 else 0
  {
    CountPush(os, o, Has(Key(Expected), l));
    CountPush(os, o, Has(Key(Predicted), l));
    CountPush(os, o, Both(Has(Key(Expected), l), Has(Key(Predicted), l)));
  }

  lemma SlotCounts(scores: map<string, LabelScores>, os: seq<Outcome>, l: string)
    requires ScoresOf(scores, os)
    ensures Slot(scores, l) == LabelScores(Support(os, l), TimesPredicted(os, l), Cell(os, l, l))
  {
    hide Support, TimesPredicted, Cell;
    if l !in scores {
      AbsentCountsNothing(os, l);
    }
  }

  lemma AppearsPush(os: seq<Outcome>, o: Outcome, l: string)
    ensures Appears(os + [o], l) <==> Appears(os, l) || l == o.expected || l == o.predicted
  {
    assert o in os + [o];
  }

  lemma ScoresPush(before: map<string, LabelScores>, os: seq<Outcome>, o: Outcome, after: map<string, LabelScores>)
    requires ScoresOf(before, os)
    requires after.Keys == before.Keys + {o.expected, o.predicted}
    requires forall l | l in after ::
      var s := Slot(before, l);
      after[l] == LabelScores(s.support + if o.expected == l then 1 else 0,
                              s.predicted + if o.predicted == l then 1 else 0,
                              s.truePositive + if o.expected == l && o.predicted == l then 1 else 0)
    ensures ScoresOf(after, os + [o])
  {
    hide Support, TimesPredicted, Cell, Appears, Slot;
    forall l ensures l in after <==> Appears(os + [o], l) {
      AppearsPush(os, o, l);
    }
    forall l | l in after
      ensures after[l] == LabelScores(Support(os + [o], l), TimesPredicted(os + [o], l), Cell(os + [o], l, l))
    {
      SlotCounts(before, os, l);
      CountsPush(os, o, l);
    }
  }

  method ScoreLabels(os: seq<Outcome>) returns (scores: map<string, LabelScores>)
    ensures ScoresOf(scores, os)
  {
    scores := map[];
    assert ScoresOf(scores, os[..0]);
    hide ScoresOf;
    for i := 0 to |os|
      invariant ScoresOf(scores, os[..i])
    {
      var expected, predicted := os[i].expected, os[i].predicted;
      ghost var before := scores;
      var s := Slot(scores, expected);
      scores := scores[expected := s.(support := s.support + 1)];
      s := Slot(scores, predicted);
      scores := scores[predicted := s.(predicted := s.predicted + 1)];
      if expected == predicted {
        s := Slot(scores, expected);
        scores := scores[expected := s.(truePositive := s.truePositive + 1)];
      }
      ScoresPush(before, os[..i], os[i], scores);
      assert os[..i + 1] == os[..i] + [os[i]];
    }
    assert os[..|os|] == os;
  }

  // ---------------------------------------------------------------- micro F1

  function Rate(numerator: nat, denominator: nat): real
    requires denominator > 0
  {
    numerator as real / denominator as real
  }

  function Ratio(numerator: nat, denominator: nat): Option<real> {
    if denominator == 0 then None else Some(Rate(numerator, denominator))
  }

  function CorrectCount(os: seq<Outcome>): nat {
    Count(os, Correct)
  }

  function Accuracy(r: Report): Option<real> {
    Ratio(CorrectCount(r.outcomes), r.scored)
  }

  /** The sums of the three columns over the labels in the given order. */
  function Pooled(scores: map<string, LabelScores>, labels: seq<string>): LabelScores
    requires forall l | l in labels :: l in scores
  {
    if labels == [] then LabelScores(0, 0, 0)
    else
      var s, rest := scores[labels[0]], Pooled(scores, labels[1..]);
      LabelScores(s.support + rest.support, s.predicted + rest.predicted, s.truePositive + rest.truePositive)
  }

  lemma {:induction false} PooledIsSpread(scores: map<string, LabelScores>, os: seq<Outcome>, labels: seq<string>)
    requires ScoresOf(scores, os) && forall l | l in labels :: l in scores
    ensures Pooled(scores, labels).support == Spread(labels, os, Any(), Key(Expected))
    ensures Pooled(scores, labels).predicted == Spread(labels, os, Any(), Key(Predicted))
    ensures Pooled(scores, labels).truePositive == Spread(labels, os, Correct, Key(Expected))
  {
    if labels != [] {
      var l := labels[0];
      CountAgree(os, Has(Key(Expected), l), Both(Any(), Has(Key(Expected), l)));
      CountAgree(os, Has(Key(Predicted), l), Both(Any(), Has(Key(Predicted), l)));
      CountAgree(os, Both(Has(Key(Expected), l), Has(Key(Predicted), l)), Both(Correct, Has(Key(Expected), l)));
      PooledIsSpread(scores, os, labels[1..]);
    }
  }

  lemma AllListed(os: seq<Outcome>, scores: map<string, LabelScores>, labels: seq<string>)
    requires ScoresOf(scores, os) && forall l :: l in labels <==> l in scores
    ensures forall o | o in os :: o.expected in labels && o.predicted in labels
  {
    forall o | o in os ensures o.expected in labels && o.predicted in labels {
      assert Appears(os, o.expected) && Appears(os, o.predicted);
    }
  }

  lemma WholeSpread(os: seq<Outcome>, labels: seq<string>)
    requires Distinct(labels) && forall o | o in os :: o.expected in labels && o.predicted in labels
    ensures Spread(labels, os, Any(), Key(Expected)) == Spread(labels, os, Any(), Key(Predicted)) == |os|
    ensures Spread(labels, os, Correct, Key(Expected)) == CorrectCount(os)
  {
    hide Spread, Count, Distinct;
    SpreadIsCount(labels, os, Any(), Key(Expected), Any());
    SpreadIsCount(labels, os, Any(), Key(Predicted), Any());
    SpreadIsCount(labels, os, Correct, Key(Expected), Correct);
    CountAny(os);
  }

  /** Whatever order the labels are listed in, the pooled counts are those of the whole list. */
  lemma PooledCounts(scores: map<string, LabelScores>, os: seq<Outcome>, labels: seq<string>)
    requires ScoresOf(scores, os) && Distinct(labels) && forall l :: l in labels <==> l in scores
    ensures Pooled(scores, labels) == LabelScores(|os|, |os|, CorrectCount(os))
  {
    PooledIsSpread(scores, os, labels);
    AllListed(os, scores, labels);
    hide *;
    WholeSpread(os, labels);
  }

  function HarmonicMean(precision: real, recall: real): real {
    if precision + recall == 0.0 then 0.0 else 2.0 * precision * recall / (precision + recall)
  }

  lemma HarmonicMeanOfEquals(x: real)
    ensures HarmonicMean(x, x) == x
  {
    if x != 0.0 {
      assert 2.0 * x * x == x * (x + x);
    }
  }

  /** The harmonic mean of pooled precision and recall. */
  function MicroF1(pooled: LabelScores): Option<real> {
    if pooled.predicted == 0 || pooled.support == 0 then None
    else Some(HarmonicMean(Rate(pooled.truePositive, pooled.predicted), Rate(pooled.truePositive, pooled.support)))
  }

  lemma MicroOf(c: nat, n: nat)
    ensures MicroF1(LabelScores(n, n, c)) == Ratio(c, n)
  {
    hide Rate, HarmonicMean;
    if n != 0 {
      HarmonicMeanOfEquals(Rate(c, n));
    }
  }

  lemma SameRatio(c: nat, n: nat, m: nat)
    requires c <= n
    ensures Ratio(c, n) == Ratio(c, m) <==> n == m || (m > 0 && n > 0 && c == 0)
  {
    if n != 0 && m != 0 {
      var x, y := c as real / n as real, c as real / m as real;
      assert x * n as real == c as real && y * m as real == c as real;
      if x == y {
        assert x * (n as real - m as real) == 0.0;
      }
    }
  }

  /**
    Micro F1 adds no information: it is the share of correct outcomes, and so it is the reported
    accuracy exactly when the report scored as many cases as it lists, or nothing was right.
   */
  lemma MicroF1IsAccuracy(r: Report, scores: map<string, LabelScores>, labels: seq<string>)
    requires ScoresOf(scores, r.outcomes) && Distinct(labels) && forall l :: l in labels <==> l in scores
    ensures MicroF1(Pooled(scores, labels)) == Ratio(CorrectCount(r.outcomes), |r.outcomes|)
    ensures MicroF1(Pooled(scores, labels)) == Accuracy(r) <==>
      (|| r.scored == |r.outcomes|
       || (r.scored > 0 && |r.outcomes| > 0 && CorrectCount(r.outcomes) == 0))
  {
    PooledCounts(scores, r.outcomes, labels);
    MicroOf(CorrectCount(r.outcomes), |r.outcomes|);
    SameRatio(CorrectCount(r.outcomes), |r.outcomes|, r.scored);
    hide MicroF1, Ratio, Pooled, Count, ScoresOf;
  }

  // -------------------------------------------------------- confusion matrix

  function Row(matrix: map<string, map<string, nat>>, expected: string): map<string, nat> {
    if expected in matrix then matrix[expected] else map[]
  }

  /** A row for each expected label, a column in it for each answer it got, and the number of times in each cell. */
  ghost predicate MatrixOf(matrix: map<string, map<string, nat>>, os: seq<Outcome>) {
    && (forall e, p :: e in matrix && p in matrix[e] <==> Cell(os, e, p) > 0)
    && (forall e, p | e in matrix && p in matrix[e] :: matrix[e][p] == Cell(os, e, p))
    && (forall e | e in matrix :: matrix[e] != map[])
  }

  lemma MatrixPush(
      before: map<string, map<string, nat>>, os: seq<Outcome>, o: Outcome, after: map<string, map<string, nat>>)
    requires MatrixOf(before, os)
    requires var row := Row(before, o.expected);
      after == before[o.expected := row[o.predicted := (if o.predicted in row then row[o.predicted] else 0) + 1]]
    ensures MatrixOf(after, os + [o])
  {
    forall e, p
      ensures e in after && p in after[e] <==> Cell(os + [o], e, p) > 0
      ensures e in after && p in after[e] ==> after[e][p] == Cell(os + [o], e, p)
    {
      CountPush(os, o, Both(Has(Key(Expected), e), Has(Key(Predicted), p)));
      assert Both(Has(Key(Expected), e), Has(Key(Predicted), p))(o) == (o.expected == e && o.predicted == p);
      assert e in before && p in before[e] <==> Cell(os, e, p) > 0;
    }
    assert o.predicted in after[o.expected];
  }

  method ConfusionMatrix(os: seq<Outcome>) returns (matrix: map<string, map<string, nat>>)
    ensures MatrixOf(matrix, os)
  {
    matrix := map[];
    for i := 0 to |os|
      invariant MatrixOf(matrix, os[..i])
    {
      var expected, predicted := os[i].expected, os[i].predicted;
      ghost var before := matrix;
      var row := Row(matrix, expected);
      row := row[predicted := (if predicted in row then row[predicted] else 0) + 1];
      matrix := matrix[expected := row];
      MatrixPush(before, os[..i], os[i], matrix);
      assert os[..i + 1] == os[..i] + [os[i]];
    }
    assert os[..|os|] == os;
  }

  /** The sum of a row or of a column, over any list of labels. */
  function RowSum(os: seq<Outcome>, expected: string, labels: seq<string>): nat {
    if labels == [] then 0 else Cell(os, expected, labels[0]) + RowSum(os, expected, labels[1..])
  }

  function ColumnSum(os: seq<Outcome>, predicted: string, labels: seq<string>): nat {
    if labels == [] then 0 else Cell(os, labels[0], predicted) + ColumnSum(os, predicted, labels[1..])
  }

  lemma {:induction false} SumsAreSpread(os: seq<Outcome>, name: string, labels: seq<string>)
    ensures RowSum(os, name, labels) == Spread(labels, os, Has(Key(Expected), name), Key(Predicted))
    ensures ColumnSum(os, name, labels) == Spread(labels, os, Has(Key(Predicted), name), Key(Expected))
  {
    if labels != [] {
      CountAgree(os, Both(Has(Key(Expected), labels[0]), Has(Key(Predicted), name)),
                 Both(Has(Key(Predicted), name), Has(Key(Expected), labels[0])));
      SumsAreSpread(os, name, labels[1..]);
    }
  }

  lemma Diagonal(os: seq<Outcome>, matrix: map<string, map<string, nat>>, name: string)
    requires MatrixOf(matrix, os)
    ensures Cell(os, name, name) == if name in matrix && name in matrix[name] then matrix[name][name] else 0
  {
    hide Cell;
    assert name in matrix && name in matrix[name] <==> Cell(os, name, name) > 0;
  }

  lemma Margins(os: seq<Outcome>, labels: seq<string>, name: string)
    requires Distinct(labels) && forall o | o in os :: o.expected in labels && o.predicted in labels
    ensures RowSum(os, name, labels) == Support(os, name)
    ensures ColumnSum(os, name, labels) == TimesPredicted(os, name)
  {
    SumsAreSpread(os, name, labels);
    SpreadIsCount(labels, os, Has(Key(Expected), name), Key(Predicted), Has(Key(Expected), name));
    SpreadIsCount(labels, os, Has(Key(Predicted), name), Key(Expected), Has(Key(Predicted), name));
  }

  /** Rows add up to support, columns to predictions, and the diagonal holds the true positives. */
  lemma MatrixMargins(
      os: seq<Outcome>, scores: map<string, LabelScores>, matrix: map<string, map<string, nat>>,
      labels: seq<string>, name: string)
    requires ScoresOf(scores, os) && MatrixOf(matrix, os)
    requires Distinct(labels) && (forall l :: l in labels <==> l in scores) && name in labels
    ensures scores[name].support == RowSum(os, name, labels)
    ensures scores[name].predicted == ColumnSum(os, name, labels)
    ensures scores[name].truePositive
         == if name in matrix && name in matrix[name] then matrix[name][name] else 0
  {
    hide Cell, RowSum, ColumnSum, Distinct, Support, TimesPredicted, Appears;
    SlotCounts(scores, os, name);
    Diagonal(os, matrix, name);
    AllListed(os, scores, labels);
    hide ScoresOf, MatrixOf;
    Margins(os, labels, name);
  }

  // ------------------------------------------------------------- calibration

  const CALIBRATION_BINS: nat := 10

  /** Ten bins of equal width, each with its lower edge; full confidence belongs to the last. */
  function BinOf(o: Outcome): (b: nat)
    ensures b < 10
    ensures b as real <= o.confidence * 10.0
    ensures o.confidence * 10.0 < (b + 1) as real || (o.confidence == 1.0 && b == 9)
  {
    var b := (o.confidence * CALIBRATION_BINS as real).Floor;
    if b < CALIBRATION_BINS then b else CALIBRATION_BINS - 1
  }

  function InBin(os: seq<Outcome>, b: nat): seq<Outcome> {
    if os == [] then []
    else InBin(os[..|os| - 1], b) + if BinOf(os[|os| - 1]) == b then [os[|os| - 1]] else []
  }

  /** Confidence minus correctness: positive where the cascade was too sure, negative where it was too modest. */
  function Gap(o: Outcome): real {
    o.confidence - if Correct(o) then 1.0 else 0.0
  }

  function Abs(x: real): real {
    if x < 0.0 then -x else x
  }

  function TotalGap(os: seq<Outcome>): real {
    if os == [] then 0.0 else TotalGap(os[..|os| - 1]) + Gap(os[|os| - 1])
  }

  function TotalAbsGap(os: seq<Outcome>): real {
    if os == [] then 0.0 else TotalAbsGap(os[..|os| - 1]) + Abs(Gap(os[|os| - 1]))
  }

  function TotalConfidence(os: seq<Outcome>): real {
    if os == [] then 0.0 else TotalConfidence(os[..|os| - 1]) + os[|os| - 1].confidence
  }

  /** The gaps netted within each of the first `n` bins, then added up without sign. */
  function NettedGap(os: seq<Outcome>, n: nat): real {
    if n == 0 then 0.0 else NettedGap(os, n - 1) + Abs(TotalGap(InBin(os, n - 1)))
  }

  function Over(total: real, n: nat): real
    requires n > 0
  {
    total / n as real
  }

  function CalibrationError(os: seq<Outcome>): real
    requires os != []
  {
    Over(NettedGap(os, CALIBRATION_BINS), |os|)
  }

  lemma {:induction false} TotalGapSplits(os: seq<Outcome>)
    ensures TotalGap(os) == TotalConfidence(os) - CorrectCount(os) as real
  {
    if os != [] {
      TotalGapSplits(os[..|os| - 1]);
    }
  }

  /** What a bin of `k` of the `n` outcomes adds, `c` of them correct and with `t` confidence in all. */
  function BinTerm(k: nat, n: nat, c: nat, t: real): real
    requires k > 0 && n > 0
  {
    (k as real / n as real) * Abs(c as real / k as real - t / k as real)
  }

  lemma BinTermIsNet(k: nat, n: nat, c: nat, t: real)
    requires k > 0 && n > 0
    ensures BinTerm(k, n, c, t) == Over(Abs(t - c as real), n)
  {
    Weighted(k as real, n as real, c as real, t);
  }

  lemma Weighted(k: real, n: real, c: real, t: real)
    requires k > 0.0 && n > 0.0
    ensures (k / n) * Abs(c / k - t / k) == Abs(t - c) / n
  {
    var d := c / k - t / k;
    assert d * k == c - t;
    assert Abs(d) * k == Abs(t - c) by {
      if d < 0.0 {
        assert d * k < 0.0;
      } else {
        assert d * k >= 0.0;
      }
    }
    assert (k / n) * Abs(d) == (k * Abs(d)) / n;
  }

  lemma OverAdds(x: real, y: real, n: nat)
    requires n > 0
    ensures Over(x, n) + Over(y, n) == Over(x + y, n) && Over(0.0, n) == 0.0
  {
    assert (x / n as real + y / n as real) * n as real == x + y;
  }

  /** A bin's share of the error is its netted gap over the number of outcomes. */
  lemma BinShare(os: seq<Outcome>, b: nat)
    requires os != []
    ensures InBin(os, b) == [] ==> Over(NettedGap(os, b + 1), |os|) == Over(NettedGap(os, b), |os|)
    ensures var bucket := InBin(os, b);
      bucket != [] ==>
        Over(NettedGap(os, b + 1), |os|)
        == Over(NettedGap(os, b), |os|)
         + BinTerm(|bucket|, |os|, CorrectCount(bucket), TotalConfidence(bucket))
  {
    NettedNext(os, b);
    hide InBin, BinTerm, CorrectCount, Count, TotalConfidence, TotalGap, Abs, NettedGap, Over;
    var bucket := InBin(os, b);
    if bucket != [] {
      TotalGapSplits(bucket);
      BinTermIsNet(|bucket|, |os|, CorrectCount(bucket), TotalConfidence(bucket));
      OverAdds(NettedGap(os, b), Abs(TotalGap(bucket)), |os|);
    }
  }

  lemma NettedNext(os: seq<Outcome>, b: nat)
    ensures NettedGap(os, b + 1) == NettedGap(os, b) + Abs(TotalGap(InBin(os, b)))
    ensures InBin(os, b) == [] ==> NettedGap(os, b + 1) == NettedGap(os, b)
  {
    hide InBin;
  }

  lemma InBinPush(os: seq<Outcome>, o: Outcome, b: nat)
    ensures InBin(os + [o], b) == if BinOf(o) == b then InBin(os, b) + [o] else InBin(os, b)
  {
    assert (os + [o])[..|os|] == os;
  }

  method SumConfidence(os: seq<Outcome>) returns (total: real)
    ensures total == TotalConfidence(os)
  {
    total := 0.0;
    for i := 0 to |os|
      invariant total == TotalConfidence(os[..i])
    {
      assert os[..i + 1][..i] == os[..i];
      total := total + os[i].confidence;
    }
    assert os[..|os|] == os;
  }

  method FillBins(os: seq<Outcome>) returns (bins: seq<seq<Outcome>>)
    ensures |bins| == CALIBRATION_BINS
    ensures forall b | 0 <= b < CALIBRATION_BINS :: bins[b] == InBin(os, b)
  {
    bins := seq(CALIBRATION_BINS, (b: nat) => []);
    for i := 0 to |os|
      invariant |bins| == CALIBRATION_BINS
      invariant forall b | 0 <= b < CALIBRATION_BINS :: bins[b] == InBin(os[..i], b)
    {
      assert os[..i + 1] == os[..i] + [os[i]];
      forall b | 0 <= b < CALIBRATION_BINS
        ensures InBin(os[..i + 1], b) == if BinOf(os[i]) == b then InBin(os[..i], b) + [os[i]] else InBin(os[..i], b)
      {
        InBinPush(os[..i], os[i], b);
      }
      var index := BinOf(os[i]);
      bins := bins[index := bins[index] + [os[i]]];
    }
    assert os[..|os|] == os;
  }

  method ExpectedCalibrationError(os: seq<Outcome>) returns (e: Option<real>)
    ensures e == if os == [] then None else Some(CalibrationError(os))
  {
    if os == [] {
      return None;
    }
    var bins := FillBins(os);
    var error := 0.0;
    OverAdds(0.0, 0.0, |os|);
    hide InBin, BinTerm, Count, CorrectCount, TotalConfidence, TotalGap, Over;
    assert NettedGap(os, 0) == 0.0;
    hide NettedGap;
    for b := 0 to CALIBRATION_BINS
      invariant error == Over(NettedGap(os, b), |os|)
    {
      var bucket := bins[b];
      BinShare(os, b);
      if bucket != [] {
        var confidence := SumConfidence(bucket);
        error := error + BinTerm(|bucket|, |os|, CorrectCount(bucket), confidence);
      }
    }
    return Some(error);
  }

  lemma {:induction false} NetWithinAbs(os: seq<Outcome>)
    ensures Abs(TotalGap(os)) <= TotalAbsGap(os)
  {
    if os != [] {
      NetWithinAbs(os[..|os| - 1]);
    }
  }

  function AbsGapBelow(os: seq<Outcome>, n: nat): real {
    if n == 0 then 0.0 else AbsGapBelow(os, n - 1) + TotalAbsGap(InBin(os, n - 1))
  }

  lemma {:induction false} AbsGapPush(os: seq<Outcome>, o: Outcome, n: nat)
    ensures AbsGapBelow(os + [o], n) == AbsGapBelow(os, n) + if BinOf(o) < n then Abs(Gap(o)) else 0.0
  {
    hide InBin, BinOf, Gap, Abs;
    if n > 0 {
      AbsGapPush(os, o, n - 1);
      InBinPush(os, o, n - 1);
      var bucket := InBin(os, n - 1);
      assert (bucket + [o])[..|bucket|] == bucket;
    }
  }

  lemma {:induction false} AbsGapOfNothing(n: nat)
    ensures AbsGapBelow([], n) == 0.0
  {
    if n > 0 {
      AbsGapOfNothing(n - 1);
    }
  }

  /** Every outcome is in exactly one bin. */
  lemma {:induction false} BinsPartition(os: seq<Outcome>)
    ensures AbsGapBelow(os, CALIBRATION_BINS) == TotalAbsGap(os)
  {
    if os == [] {
      AbsGapOfNothing(CALIBRATION_BINS);
    } else {
      var front, o := os[..|os| - 1], os[|os| - 1];
      assert os == front + [o];
      BinsPartition(front);
      AbsGapPush(front, o, CALIBRATION_BINS);
    }
  }

  lemma {:induction false} NettedWithinAbs(os: seq<Outcome>, n: nat)
    ensures 0.0 <= NettedGap(os, n) <= AbsGapBelow(os, n)
  {
    if n > 0 {
      NettedWithinAbs(os, n - 1);
      NetWithinAbs(InBin(os, n - 1));
    }
  }

  lemma {:induction false} AbsGapAtMostOneEach(os: seq<Outcome>)
    ensures 0.0 <= TotalAbsGap(os) <= |os| as real
  {
    if os != [] {
      AbsGapAtMostOneEach(os[..|os| - 1]);
    }
  }

  lemma DivMonotone(x: real, y: real, n: real)
    requires x <= y && n > 0.0
    ensures x / n <= y / n
  {
    assert (y - x) / n >= 0.0;
  }

  /** The calibration error is a share, and netting within bins can only hide error, never add any. */
  lemma CalibrationErrorBounds(os: seq<Outcome>)
    requires os != []
    ensures 0.0 <= CalibrationError(os) <= Over(TotalAbsGap(os), |os|) <= 1.0
  {
    hide NettedGap, AbsGapBelow, TotalAbsGap;
    var n := |os| as real;
    NettedWithinAbs(os, CALIBRATION_BINS);
    BinsPartition(os);
    AbsGapAtMostOneEach(os);
    DivMonotone(0.0, NettedGap(os, CALIBRATION_BINS), n);
    DivMonotone(NettedGap(os, CALIBRATION_BINS), TotalAbsGap(os), n);
    DivMonotone(TotalAbsGap(os), n, n);
  }

  /** In bin `b` the stated confidence adds up to the number of correct answers. */
  predicate Balanced(os: seq<Outcome>, b: nat) {
    TotalConfidence(InBin(os, b)) == CorrectCount(InBin(os, b)) as real
  }

  lemma NettedNextZero(os: seq<Outcome>, b: nat)
    ensures NettedGap(os, b + 1) == 0.0 <==> NettedGap(os, b) == 0.0 && Balanced(os, b)
  {
    TotalGapSplits(InBin(os, b));
    NettedNext(os, b);
    NettedWithinAbs(os, b);
    hide InBin, TotalGap, AbsGapBelow, NettedGap, TotalConfidence, CorrectCount;
  }

  lemma {:induction false} NettedZero(os: seq<Outcome>, n: nat)
    ensures NettedGap(os, n) == 0.0 <==> forall b: nat | b < n :: Balanced(os, b)
  {
    hide Balanced;
    if n > 0 {
      NettedZero(os, n - 1);
      NettedNextZero(os, n - 1);
    }
  }

  /** It is zero exactly when in every bin the stated confidence adds up to the number of correct answers. */
  lemma PerfectlyCalibrated(os: seq<Outcome>)
    requires os != []
    ensures CalibrationError(os) == 0.0 <==> forall b: nat | b < CALIBRATION_BINS :: Balanced(os, b)
  {
    var total, n := NettedGap(os, CALIBRATION_BINS), |os| as real;
    NettedZero(os, CALIBRATION_BINS);
    hide NettedGap, Balanced;
    assert (total / n) * n == total;
  }
}
