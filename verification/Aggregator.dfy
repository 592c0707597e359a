/** Session scores: recency-weighted means of window scores, in exact arithmetic. */
module Aggregator {

  datatype Dimension = TopicKnowledge | TopicDepth | Coherence | LanguageQuality | Confidence | Originality

  const DIMENSIONS := [TopicKnowledge, TopicDepth, Coherence, LanguageQuality, Confidence, Originality]

  function DimensionWeight(d: Dimension): real {
    match d
    case TopicKnowledge => 0.30
    case TopicDepth => 0.25
    case Coherence => 0.15
    case LanguageQuality => 0.15
    case Confidence => 0.08
    case Originality => 0.07
  }

  type WindowScores = Dimension -> real

  /** The scores of one dimension, window by window. */
  function Scores(windows: seq<WindowScores>, d: Dimension): (xs: seq<real>)
    ensures |xs| == |windows| && forall i :: 0 <= i < |xs| ==> xs[i] == windows[i](d)
  {
    seq(|windows|, i requires 0 <= i < |windows| => windows[i](d))
  }

  function Sum(xs: seq<real>): real {
    if xs == [] then 0.0 else Sum(xs[..|xs| - 1]) + xs[|xs| - 1]
  }

  /** Rounding half up to a whole number, then back to one decimal place. */
  function RoundToTenth(x: real): real {
    (x * 10.0 + 0.5).Floor as real / 10.0
  }

  /** `y` is `x` to one decimal place, a tie rounded up. */
  ghost predicate IsRounded(y: real, x: real) {
    exists n: int :: IsTenths(n, y, x)
  }

  predicate IsTenths(n: int, y: real, x: real) {
    y == n as real / 10.0 && n as real - 0.5 <= x * 10.0 < n as real + 0.5
  }

  /** There is exactly one such value, and it is what the service computes. */
  lemma RoundingIs(x: real, y: real)
    ensures IsRounded(y, x) <==> y == RoundToTenth(x)
  {
    assert IsTenths((x * 10.0 + 0.5).Floor, RoundToTenth(x), x);
    if n :| IsTenths(n, y, x) {
      assert n == (x * 10.0 + 0.5).Floor;
    }
  }

  // ---------- how the service computes it ----------

  function RawWeights(count: nat, upTo: nat): (raw: seq<real>)
    requires 0 < count
    ensures |raw| == upTo && forall i :: 0 <= i < upTo ==> raw[i] == (i + 1) as real / count as real
  {
    seq(upTo, i requires 0 <= i < upTo => (i + 1) as real / count as real)
  }

  function Normalised(raw: seq<real>): (ws: seq<real>)
    requires Sum(raw) != 0.0
    ensures |ws| == |raw| && forall i :: 0 <= i < |ws| ==> ws[i] == raw[i] / Sum(raw)
  {
    seq(|raw|, i requires 0 <= i < |raw| => raw[i] / Sum(raw))
  }

  function BuildWindowWeights(count: nat): (ws: seq<real>)
    requires 0 < count
    ensures |ws| == count
  {
    if count == 1 then [1.0]
    else
      RawWeightsSum(count, count);
      Normalised(RawWeights(count, count))
  }

  function WeightedSum(xs: seq<real>, weights: seq<real>): real
    requires |xs| == |weights|
  {
    if xs == [] then 0.0
    else WeightedSum(xs[..|xs| - 1], weights[..|xs| - 1]) + xs[|xs| - 1] * weights[|xs| - 1]
  }

  function Composite(dimensions: map<Dimension, real>, ds: seq<Dimension>): real
    requires forall d <- ds :: d in dimensions
  {
    if ds == [] then 0.0
    else Composite(dimensions, ds[..|ds| - 1]) + dimensions[ds[|ds| - 1]] * DimensionWeight(ds[|ds| - 1])
  }

  method AggregateWindows(windows: seq<WindowScores>)
      returns (dimensions: map<Dimension, real>, intelligenceScore: real)
    ensures forall d :: d in dimensions
    ensures windows == [] ==> intelligenceScore == 0.0 && forall d :: dimensions[d] == 0.0
    ensures windows != [] ==> forall d :: dimensions[d] == Dimensions(windows)(d)
    ensures windows != [] ==> intelligenceScore == IntelligenceScore(windows)
    ensures windows != [] ==> IsRounded(intelligenceScore, OverDimensions(d => dimensions[d]))
    ensures windows != [] ==> forall d :: IsRounded(dimensions[d], RecencyMean(Scores(windows, d)))
  {
    if windows == [] {
      dimensions := map d: Dimension | d in AllDimensions() :: 0.0;
      AllCovered();
      return dimensions, 0.0;
    }
    var windowWeights := BuildWindowWeights(|windows|);
    dimensions := map[];
    for i := 0 to |DIMENSIONS|
      invariant forall j :: 0 <= j < i ==> DIMENSIONS[j] in dimensions
      invariant forall j :: 0 <= j < i ==> dimensions[DIMENSIONS[j]] == Dimensions(windows)(DIMENSIONS[j])
    {
      var dim := DIMENSIONS[i];
      var weightedSum := WeightedSum(Scores(windows, dim), windowWeights);
      DimensionIsMean(windows, dim);
      dimensions := dimensions[dim := RoundToTenth(weightedSum)];
    }
    forall d: Dimension
      ensures d in dimensions && dimensions[d] == Dimensions(windows)(d)
    {
      AllListed(d);
      var j :| 0 <= j < |DIMENSIONS| && DIMENSIONS[j] == d;
    }
    intelligenceScore := RoundToTenth(Composite(dimensions, DIMENSIONS));
    ScoreIsComposite(windows, dimensions);
    CompositeIs(dimensions);
    RoundingIs(OverDimensions(d => dimensions[d]), intelligenceScore);
    forall d: Dimension
      ensures IsRounded(dimensions[d], RecencyMean(Scores(windows, d)))
    {
      RoundingIs(RecencyMean(Scores(windows, d)), dimensions[d]);
    }
  }

  function AllDimensions(): set<Dimension> {
    {TopicKnowledge, TopicDepth, Coherence, LanguageQuality, Confidence, Originality}
  }

  // ---------- what it means ----------

  /** `x` counted `n` times. */
  function Times(n: nat, x: real): real {
    if n == 0 then 0.0 else Times(n - 1, x) + x
  }

  /** The sum of all scores, the first counted once, the second twice, and so on. */
  function Ramp(xs: seq<real>): real {
    if xs == [] then 0.0 else Ramp(xs[..|xs| - 1]) + Times(|xs|, xs[|xs| - 1])
  }

  /** 1 + 2 + ... + n */
  function Triangle(n: nat): real {
    if n == 0 then 0.0 else Triangle(n - 1) + n as real
  }

  /** The mean in which window `i` (from 1) counts `i` times. */
  function RecencyMean(xs: seq<real>): real
    requires xs != []
  {
    TrianglePositive(|xs|);
    Ramp(xs) / Triangle(|xs|)
  }

  /** A value per dimension, weighted by the fixed dimension weights. */
  function OverDimensions(f: Dimension -> real): real {
    f(TopicKnowledge) * 0.30 + f(TopicDepth) * 0.25 + f(Coherence) * 0.15
    + f(LanguageQuality) * 0.15 + f(Confidence) * 0.08 + f(Originality) * 0.07
  }

  lemma AllCovered()
    ensures forall d: Dimension :: d in AllDimensions()
  {
    forall d: Dimension
      ensures d in AllDimensions()
    {
      match d
      case TopicKnowledge => case TopicDepth => case Coherence =>
      case LanguageQuality => case Confidence => case Originality =>
    }
  }

  lemma AllListed(d: Dimension)
    ensures d in DIMENSIONS
  {
    assert DIMENSIONS[0] == TopicKnowledge && DIMENSIONS[1] == TopicDepth && DIMENSIONS[2] == Coherence;
    assert DIMENSIONS[3] == LanguageQuality && DIMENSIONS[4] == Confidence && DIMENSIONS[5] == Originality;
  }

  lemma CompositeNext(dimensions: map<Dimension, real>, ds: seq<Dimension>, d: Dimension)
    requires forall e <- ds :: e in dimensions
    requires d in dimensions
    ensures Composite(dimensions, ds + [d]) == Composite(dimensions, ds) + dimensions[d] * DimensionWeight(d)
  {
    assert (ds + [d])[..|ds|] == ds;
  }

  lemma CompositeIs(dimensions: map<Dimension, real>)
    requires forall d: Dimension :: d in dimensions
    ensures Composite(dimensions, DIMENSIONS) == OverDimensions(d => dimensions[d])
  {
    CompositeNext(dimensions, [], TopicKnowledge);
    CompositeNext(dimensions, [TopicKnowledge], TopicDepth);
    CompositeNext(dimensions, [TopicKnowledge, TopicDepth], Coherence);
    CompositeNext(dimensions, [TopicKnowledge, TopicDepth, Coherence], LanguageQuality);
    CompositeNext(dimensions, [TopicKnowledge, TopicDepth, Coherence, LanguageQuality], Confidence);
    CompositeNext(dimensions, [TopicKnowledge, TopicDepth, Coherence, LanguageQuality, Confidence], Originality);
    assert [] + [TopicKnowledge] == [TopicKnowledge];
    assert [TopicKnowledge] + [TopicDepth] == [TopicKnowledge, TopicDepth];
    assert [TopicKnowledge, TopicDepth] + [Coherence] == [TopicKnowledge, TopicDepth, Coherence];
    assert [TopicKnowledge, TopicDepth, Coherence] + [LanguageQuality]
        == [TopicKnowledge, TopicDepth, Coherence, LanguageQuality];
    assert [TopicKnowledge, TopicDepth, Coherence, LanguageQuality] + [Confidence]
        == [TopicKnowledge, TopicDepth, Coherence, LanguageQuality, Confidence];
    assert [TopicKnowledge, TopicDepth, Coherence, LanguageQuality, Confidence] + [Originality] == DIMENSIONS;
  }

  lemma {:induction false} TimesIsProduct(n: nat, x: real)
    ensures Times(n, x) == n as real * x
  {
    if n > 0 {
      TimesIsProduct(n - 1, x);
      assert n as real * x == (n - 1) as real * x + x;
    }
  }

  lemma {:induction false} TimesAdds(n: nat, x: real, y: real)
    ensures Times(n, x + y) == Times(n, x) + Times(n, y)
  {
    if n > 0 {
      TimesAdds(n - 1, x, y);
    }
  }

  lemma {:induction false} TimesGrows(m: nat, n: nat, x: real)
    requires m <= n && 0.0 <= x
    ensures 0.0 <= Times(m, x) <= Times(n, x)
    decreases n
  {
    if m < n {
      TimesGrows(m, n - 1, x);
    } else if m > 0 {
      TimesGrows(m - 1, n - 1, x);
    }
  }

  lemma {:induction false} TrianglePositive(n: nat)
    ensures Triangle(n) >= 0.0
    ensures 0 < n ==> Triangle(n) > 0.0
  {
    if n > 0 {
      TrianglePositive(n - 1);
    }
  }

  /** Twice the triangle number, as an integer. */
  function TwiceTriangle(n: nat): (t: nat)
    ensures t == n * (n + 1)
  {
    if n == 0 then 0 else TwiceTriangle(n - 1) + 2 * n
  }

  lemma {:induction false} TriangleIsHalf(n: nat)
    ensures Triangle(n) == TwiceTriangle(n) as real / 2.0
  {
    if n > 0 {
      TriangleIsHalf(n - 1);
    }
  }

  lemma TriangleClosedForm(n: nat)
    ensures Triangle(n) == (n * (n + 1)) as real / 2.0
  {
    TriangleIsHalf(n);
  }

  lemma {:induction false} RawWeightsSum(count: nat, upTo: nat)
    requires 0 < count
    ensures Sum(RawWeights(count, upTo)) == Triangle(upTo) / count as real
    ensures upTo == count ==> Sum(RawWeights(count, upTo)) > 0.0
  {
    var raw := RawWeights(count, upTo);
    if upTo > 0 {
      RawWeightsSum(count, upTo - 1);
      assert raw[..upTo - 1] == RawWeights(count, upTo - 1);
      TrianglePositive(upTo);
      QuotientAdds(Triangle(upTo - 1), upTo as real, count as real);
    }
    if upTo == count {
      TrianglePositive(count);
    }
  }

  lemma QuotientAdds(a: real, b: real, c: real)
    requires c > 0.0
    ensures a / c + b / c == (a + b) / c
  {
  }

  lemma QuotientOfQuotients(a: real, b: real, c: real)
    requires b > 0.0 && c > 0.0
    ensures (a / c) / (b / c) == a / b
  {
    assert (a / c) == (a / b) * (b / c);
  }

  /** Weight `i` is `i + 1` parts of the whole. */
  predicate IsRamp(ws: seq<real>) {
    Triangle(|ws|) > 0.0 && forall i :: 0 <= i < |ws| ==> ws[i] == (i + 1) as real / Triangle(|ws|)
  }

  lemma WeightsAreRamp(n: nat)
    requires 0 < n
    ensures IsRamp(BuildWindowWeights(n))
  {
    TrianglePositive(n);
    forall i | 0 <= i < n
      ensures BuildWindowWeights(n)[i] == (i + 1) as real / Triangle(n)
    {
      WeightAt(n, i);
    }
  }

  lemma {:induction false} WeightsSum(ws: seq<real>, k: nat)
    requires k <= |ws| && IsRamp(ws)
    ensures Sum(ws[..k]) == Triangle(k) / Triangle(|ws|)
  {
    if k > 0 {
      WeightsSum(ws, k - 1);
      assert ws[..k][..k - 1] == ws[..k - 1];
      QuotientAdds(Triangle(k - 1), k as real, Triangle(|ws|));
    }
  }

  lemma RampSumsToOne(ws: seq<real>)
    requires IsRamp(ws)
    ensures Sum(ws) == 1.0
  {
    WeightsSum(ws, |ws|);
    assert ws[..|ws|] == ws;
  }

  /** The weights are 2(i+1)/(n(n+1)), rise strictly, and sum to 1. */
  lemma WeightsClosedForm(n: nat, i: nat)
    requires i < n
    ensures n * (n + 1) > 0 && BuildWindowWeights(n)[i] == (2 * (i + 1)) as real / (n * (n + 1)) as real
    ensures BuildWindowWeights(n)[i] > if i == 0 then 0.0 else BuildWindowWeights(n)[i - 1]
    ensures Sum(BuildWindowWeights(n)) == 1.0
  {
    WeightAt(n, i);
    TriangleClosedForm(n);
    ProductPositive(n);
    DoubleQuotient((i + 1) as real, (n * (n + 1)) as real);
    if i > 0 {
      WeightsRise(n, i - 1, i);
    }
    WeightsAreRamp(n);
    RampSumsToOne(BuildWindowWeights(n));
  }

  lemma ProductPositive(n: nat)
    requires 0 < n
    ensures n * (n + 1) > 0
  {
  }

  lemma DoubleQuotient(a: real, b: real)
    requires b > 0.0
    ensures a / (b / 2.0) == (2.0 * a) / b
  {
  }

  lemma WeightsRise(n: nat, i: nat, j: nat)
    requires i < j < n
    ensures BuildWindowWeights(n)[i] < BuildWindowWeights(n)[j]
  {
    WeightAt(n, i);
    WeightAt(n, j);
    var t, a, b := Triangle(n), (i + 1) as real, (j + 1) as real;
    assert b / t - a / t == (b - a) / t && (b - a) / t > 0.0;
  }

  lemma WeightAt(n: nat, i: nat)
    requires i < n
    ensures Triangle(n) > 0.0
    ensures BuildWindowWeights(n)[i] == (i + 1) as real / Triangle(n) && (i + 1) as real / Triangle(n) > 0.0
  {
    TrianglePositive(n);
    RawWeightsSum(n, n);
    QuotientOfQuotients((i + 1) as real, Triangle(n), n as real);
  }

  lemma {:induction false} WeightedSumIsRamp(xs: seq<real>, ws: seq<real>, c: real)
    requires |xs| == |ws| && c > 0.0 && forall i :: 0 <= i < |ws| ==> ws[i] == (i + 1) as real / c
    ensures WeightedSum(xs, ws) == Ramp(xs) / c
  {
    if xs != [] {
      var n := |xs|;
      WeightedSumIsRamp(xs[..n - 1], ws[..n - 1], c);
      assert ws[n - 1] == n as real / c;
      WeightIsQuotient(n, xs[n - 1], c);
      SumOfQuotients(Ramp(xs[..n - 1]), Times(n, xs[n - 1]), c);
    }
  }

  lemma WeightIsQuotient(n: nat, x: real, c: real)
    requires c > 0.0
    ensures x * (n as real / c) == Times(n, x) / c
  {
    TimesIsProduct(n, x);
  }

  lemma SumOfQuotients(a: real, b: real, c: real)
    requires c > 0.0
    ensures a / c + b / c == (a + b) / c
  {
  }

  lemma WeightedSumIsMean(xs: seq<real>)
    requires xs != []
    ensures WeightedSum(xs, BuildWindowWeights(|xs|)) == RecencyMean(xs)
  {
    WeightsAreRamp(|xs|);
    TrianglePositive(|xs|);
    WeightedSumIsRamp(xs, BuildWindowWeights(|xs|), Triangle(|xs|));
  }

  // ---------- range ----------

  predicate InRange(x: real) {
    0.0 <= x <= 100.0
  }

  lemma {:induction false} TimesInRange(n: nat, x: real)
    requires InRange(x)
    ensures 0.0 <= Times(n, x) <= 100.0 * n as real
  {
    if n > 0 {
      TimesInRange(n - 1, x);
    }
  }

  lemma FactorIsPositive(d: real, t: real)
    requires t > 0.0 && d * t >= 0.0
    ensures d >= 0.0
  {
  }

  lemma QuotientKeepsOrder(a: real, b: real, t: real)
    requires t > 0.0 && a <= b
    ensures a / t <= b / t
  {
    var p, q := a / t, b / t;
    assert p * t == a && q * t == b;
    assert (q - p) * t == q * t - p * t;
    FactorIsPositive(q - p, t);
  }

  lemma QuotientInRange(r: real, t: real)
    requires t > 0.0 && 0.0 <= r <= 100.0 * t
    ensures InRange(r / t)
  {
    QuotientKeepsOrder(0.0, r, t);
    QuotientKeepsOrder(r, 100.0 * t, t);
  }

  lemma {:induction false} RampInRange(xs: seq<real>)
    requires forall x <- xs :: InRange(x)
    ensures 0.0 <= Ramp(xs) <= 100.0 * Triangle(|xs|)
  {
    if xs != [] {
      var n := |xs|;
      assert forall x <- xs[..n - 1] :: x in xs;
      RampInRange(xs[..n - 1]);
      TrianglePositive(n);
      TimesInRange(n, xs[n - 1]);
    }
  }

  lemma RoundKeepsOrder(x: real, y: real)
    requires x <= y
    ensures RoundToTenth(x) <= RoundToTenth(y)
  {
    var a, b := x * 10.0 + 0.5, y * 10.0 + 0.5;
    assert a <= b && a.Floor as real <= a && b < b.Floor as real + 1.0;
    assert a.Floor <= b.Floor;
  }

  lemma RoundIsNear(x: real)
    ensures -0.05 <= RoundToTenth(x) - x <= 0.05
  {
  }

  lemma MeanInRange(xs: seq<real>)
    requires xs != [] && forall x <- xs :: InRange(x)
    ensures InRange(RecencyMean(xs)) && InRange(RoundToTenth(RecencyMean(xs)))
  {
    RampInRange(xs);
    TrianglePositive(|xs|);
    var t, r := Triangle(|xs|), Ramp(xs);
    QuotientInRange(r, t);
    RoundKeepsOrder(0.0, r / t);
    RoundKeepsOrder(r / t, 100.0);
    assert RoundToTenth(0.0) == 0.0 && RoundToTenth(100.0) == 100.0;
  }

  /** What `AggregateWindows` returns for a session that has windows. */
  function Dimensions(windows: seq<WindowScores>): Dimension -> real
    requires windows != []
  {
    d => RoundToTenth(RecencyMean(Scores(windows, d)))
  }

  function IntelligenceScore(windows: seq<WindowScores>): real
    requires windows != []
  {
    RoundToTenth(OverDimensions(Dimensions(windows)))
  }

  lemma DimensionIsMean(windows: seq<WindowScores>, d: Dimension)
    requires windows != []
    ensures RoundToTenth(WeightedSum(Scores(windows, d), BuildWindowWeights(|windows|))) == Dimensions(windows)(d)
  {
    WeightedSumIsMean(Scores(windows, d));
  }

  lemma ScoreIsComposite(windows: seq<WindowScores>, dimensions: map<Dimension, real>)
    requires windows != [] && forall d :: d in dimensions && dimensions[d] == Dimensions(windows)(d)
    ensures RoundToTenth(Composite(dimensions, DIMENSIONS)) == IntelligenceScore(windows)
  {
    CompositeIs(dimensions);
  }

  /** The weighted value without any rounding. */
  function ExactScore(windows: seq<WindowScores>): real
    requires windows != []
  {
    OverDimensions(d => RecencyMean(Scores(windows, d)))
  }

  /** Window scores from 0 to 100 give dimensions and a composite from 0 to 100. */
  lemma ScoresStayInRange(windows: seq<WindowScores>, d: Dimension)
    requires windows != [] && forall i, e :: 0 <= i < |windows| ==> InRange(windows[i](e))
    ensures InRange(Dimensions(windows)(d)) && InRange(IntelligenceScore(windows))
  {
    forall e: Dimension
      ensures InRange(Dimensions(windows)(e))
    {
      var xs := Scores(windows, e);
      assert forall x <- xs :: exists i :: 0 <= i < |xs| && xs[i] == x;
      MeanInRange(xs);
    }
    var total := OverDimensions(Dimensions(windows));
    assert InRange(total);
    RoundKeepsOrder(0.0, total);
    RoundKeepsOrder(total, 100.0);
    assert RoundToTenth(0.0) == 0.0 && RoundToTenth(100.0) == 100.0;
  }

  /** Both roundings together move the composite by at most a tenth. */
  lemma RoundingErrorIsSmall(windows: seq<WindowScores>)
    requires windows != []
    ensures -0.1 <= IntelligenceScore(windows) - ExactScore(windows) <= 0.1
  {
    forall d: Dimension
      ensures -0.05 <= Dimensions(windows)(d) - RecencyMean(Scores(windows, d)) <= 0.05
    {
      RoundIsNear(RecencyMean(Scores(windows, d)));
    }
    RoundIsNear(OverDimensions(Dimensions(windows)));
  }

  // ---------- recency: the order of the windows matters, and how ----------

  predicate Rising(xs: seq<real>) {
    forall i, j :: 0 <= i < j < |xs| ==> xs[i] <= xs[j]
  }

  lemma {:induction false} RampUpdate(xs: seq<real>, k: nat, v: real, delta: real)
    requires k < |xs| && v == xs[k] + delta
    ensures Ramp(xs[k := v]) == Ramp(xs) + Times(k + 1, delta)
  {
    var n, ys := |xs|, xs[k := v];
    if k == n - 1 {
      assert ys[..n - 1] == xs[..n - 1];
      TimesAdds(n, xs[k], delta);
    } else {
      RampUpdate(xs[..n - 1], k, v, delta);
      assert ys[..n - 1] == xs[..n - 1][k := v];
    }
  }

  /** Element `k` and the last one have changed places. */
  function ExchangedWithLast(xs: seq<real>, k: nat): (ys: seq<real>)
    requires k < |xs|
    ensures |ys| == |xs| && ys[|xs| - 1] == xs[k]
  {
    xs[k := xs[|xs| - 1]][|xs| - 1 := xs[k]]
  }

  lemma TimesCancel(n: nat, x: real)
    ensures Times(n, -x) == -Times(n, x)
  {
    TimesIsProduct(n, x);
    TimesIsProduct(n, -x);
  }

  lemma ExchangeRamp(xs: seq<real>, k: nat, top: real, last: real)
    requires k < |xs| - 1 && top == xs[k] && last == xs[|xs| - 1]
    ensures Ramp(ExchangedWithLast(xs, k)) == Ramp(xs) + Times(k + 1, last - top) + Times(|xs|, top - last)
  {
    var ys := xs[k := last];
    RampUpdate(xs, k, last, last - top);
    RampUpdate(ys, |xs| - 1, top, top - last);
  }

  lemma ExchangeGains(m: nat, n: nat, top: real, last: real)
    requires m <= n && last <= top
    ensures Times(m, last - top) + Times(n, top - last) >= 0.0
  {
    TimesGrows(m, n, top - last);
    TimesAdds(m, last - top, top - last);
    TimesIsProduct(m, 0.0);
  }

  /** Exchanging a score with a smaller last one never lowers the ramp. */
  lemma ExchangeRaisesRamp(xs: seq<real>, k: nat)
    requires k < |xs| && xs[|xs| - 1] <= xs[k]
    ensures Ramp(ExchangedWithLast(xs, k)) >= Ramp(xs)
  {
    if k == |xs| - 1 {
      assert ExchangedWithLast(xs, k) == xs;
    } else {
      var top, last := xs[k], xs[|xs| - 1];
      ExchangeRamp(xs, k, top, last);
      ExchangeGains(k + 1, |xs|, top, last);
    }
  }

  /** Of two orders of the same scores, the rising one ends in the greatest score, which the other has somewhere. */
  lemma GreatestIsLast(xs: seq<real>, ys: seq<real>) returns (k: nat)
    requires multiset(xs) == multiset(ys) && Rising(ys) && ys != []
    ensures |xs| == |ys| && k < |xs| && xs[k] == ys[|ys| - 1] && xs[|xs| - 1] <= xs[k]
  {
    assert |xs| == |multiset(xs)| && |ys| == |multiset(ys)|;
    var n := |ys|;
    assert ys[n - 1] in multiset(ys) && ys[n - 1] in multiset(xs);
    k :| 0 <= k < n && xs[k] == ys[n - 1];
    assert xs[n - 1] in multiset(xs) && xs[n - 1] in multiset(ys);
    var m :| 0 <= m < n && ys[m] == xs[n - 1];
  }

  lemma DropLast(xs: seq<real>, ys: seq<real>)
    requires multiset(xs) == multiset(ys) && |xs| == |ys| > 0 && xs[|xs| - 1] == ys[|ys| - 1]
    ensures multiset(xs[..|xs| - 1]) == multiset(ys[..|ys| - 1])
  {
    FrontElements(xs);
    FrontElements(ys);
  }

  lemma FrontElements(xs: seq<real>)
    requires xs != []
    ensures multiset(xs[..|xs| - 1]) == multiset(xs) - multiset{xs[|xs| - 1]}
  {
    assert xs == xs[..|xs| - 1] + [xs[|xs| - 1]];
  }

  /** Rearrangement: no order of the same scores weighs more than the rising one. */
  lemma {:induction false} RisingIsGreatest(xs: seq<real>, ys: seq<real>)
    requires multiset(xs) == multiset(ys) && Rising(ys)
    ensures |xs| == |ys| && Ramp(xs) <= Ramp(ys)
    decreases |ys|
  {
    if ys == [] {
      assert |multiset(xs)| == 0;
    } else {
      var n := |ys|;
      var k := GreatestIsLast(xs, ys);
      var zs := ExchangedWithLast(xs, k);
      ExchangeRaisesRamp(xs, k);
      ExchangeKeepsElements(xs, k);
      DropLast(zs, ys);
      RisingIsGreatest(zs[..n - 1], ys[..n - 1]);
      SameLast(zs, ys);
    }
  }

  lemma SameLast(xs: seq<real>, ys: seq<real>)
    requires |xs| == |ys| > 0 && xs[|xs| - 1] == ys[|ys| - 1]
    requires Ramp(xs[..|xs| - 1]) <= Ramp(ys[..|ys| - 1])
    ensures Ramp(xs) <= Ramp(ys)
  {
  }

  lemma ExchangeKeepsElements(xs: seq<real>, k: nat)
    requires k < |xs|
    ensures multiset(ExchangedWithLast(xs, k)) == multiset(xs)
  {
  }

  function Negated(xs: seq<real>): (ys: seq<real>)
    ensures |ys| == |xs| && forall i :: 0 <= i < |xs| ==> ys[i] == -xs[i]
  {
    seq(|xs|, i requires 0 <= i < |xs| => -xs[i])
  }

  lemma {:induction false} RampNegated(xs: seq<real>)
    ensures Ramp(Negated(xs)) == -Ramp(xs)
  {
    if xs != [] {
      var n := |xs|;
      RampNegated(xs[..n - 1]);
      assert Negated(xs)[..n - 1] == Negated(xs[..n - 1]);
      TimesCancel(n, xs[n - 1]);
    }
  }

  lemma {:induction false} NegatedElements(xs: seq<real>, v: real)
    ensures multiset(Negated(xs))[v] == multiset(xs)[-v]
  {
    if xs != [] {
      var n := |xs|;
      NegatedElements(xs[..n - 1], v);
      assert Negated(xs)[..n - 1] == Negated(xs[..n - 1]);
      CountLast(xs, -v);
      CountLast(Negated(xs), v);
    }
  }

  lemma CountLast(xs: seq<real>, v: real)
    requires xs != []
    ensures multiset(xs)[v] == multiset(xs[..|xs| - 1])[v] + if xs[|xs| - 1] == v then 1 else 0
  {
    assert xs == xs[..|xs| - 1] + [xs[|xs| - 1]];
  }

  lemma FallingIsLeast(xs: seq<real>, ys: seq<real>)
    requires multiset(xs) == multiset(ys) && Rising(Negated(ys))
    ensures |xs| == |ys| && Ramp(ys) <= Ramp(xs)
  {
    forall v: real
      ensures multiset(Negated(xs))[v] == multiset(Negated(ys))[v]
    {
      NegatedElements(xs, v);
      NegatedElements(ys, v);
    }
    assert multiset(Negated(xs)) == multiset(Negated(ys));
    RisingIsGreatest(Negated(xs), Negated(ys));
    RampNegated(xs);
    RampNegated(ys);
  }

  lemma MeanKeepsOrder(xs: seq<real>, ys: seq<real>)
    requires xs != [] && |xs| == |ys| && Ramp(xs) <= Ramp(ys)
    ensures RecencyMean(xs) <= RecencyMean(ys)
    ensures RoundToTenth(RecencyMean(xs)) <= RoundToTenth(RecencyMean(ys))
  {
    TrianglePositive(|xs|);
    var t := Triangle(|xs|);
    QuotientKeepsOrder(Ramp(xs), Ramp(ys), t);
    RoundKeepsOrder(RecencyMean(xs), RecencyMean(ys));
  }

  /**
   * Among all orders of the same window scores, the non-decreasing one gives a dimension its
   * greatest published value and the non-increasing one its least.
   */
  lemma ImprovementPays(windows: seq<WindowScores>, sorted: seq<WindowScores>, d: Dimension)
    requires windows != [] && sorted != [] && multiset(Scores(windows, d)) == multiset(Scores(sorted, d))
    ensures Rising(Scores(sorted, d)) ==> Dimensions(windows)(d) <= Dimensions(sorted)(d)
    ensures Rising(Negated(Scores(sorted, d))) ==> Dimensions(sorted)(d) <= Dimensions(windows)(d)
  {
    var xs, ys := Scores(windows, d), Scores(sorted, d);
    if Rising(ys) {
      RisingIsGreatest(xs, ys);
      MeanKeepsOrder(xs, ys);
    }
    if Rising(Negated(ys)) {
      FallingIsLeast(xs, ys);
      MeanKeepsOrder(ys, xs);
    }
  }

  /**
   * Among all orders of the same windows' scores, a session that never falls in any dimension has
   * the greatest composite, and one that never rises in any has the least.
   */
  lemma ImprovementPaysOverall(windows: seq<WindowScores>, sorted: seq<WindowScores>)
    requires windows != [] && sorted != []
    requires forall d :: multiset(Scores(windows, d)) == multiset(Scores(sorted, d))
    ensures (forall d :: Rising(Scores(sorted, d))) ==> IntelligenceScore(windows) <= IntelligenceScore(sorted)
    ensures (forall d :: Rising(Negated(Scores(sorted, d)))) ==> IntelligenceScore(sorted) <= IntelligenceScore(windows)
  {
    forall d: Dimension
      ensures Rising(Scores(sorted, d)) ==> Dimensions(windows)(d) <= Dimensions(sorted)(d)
      ensures Rising(Negated(Scores(sorted, d))) ==> Dimensions(sorted)(d) <= Dimensions(windows)(d)
    {
      ImprovementPays(windows, sorted, d);
    }
    if forall d :: Rising(Scores(sorted, d)) {
      CompositeKeepsOrder(Dimensions(windows), Dimensions(sorted));
    }
    if forall d :: Rising(Negated(Scores(sorted, d))) {
      CompositeKeepsOrder(Dimensions(sorted), Dimensions(windows));
    }
  }

  lemma CompositeKeepsOrder(f: Dimension -> real, g: Dimension -> real)
    requires forall d :: f(d) <= g(d)
    ensures RoundToTenth(OverDimensions(f)) <= RoundToTenth(OverDimensions(g))
  {
    RoundKeepsOrder(OverDimensions(f), OverDimensions(g));
  }
}
