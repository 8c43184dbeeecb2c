/**
 * The verdict (backend/src/detection/analyzer.py): the four heuristics run in a fixed order, an
 * optional text classifier adds a probability, and the scores are combined into one final score
 * that is classified and summarised.
 *
 * The classifier itself (a vectoriser and a trained model loaded from disk) is a parameter: it
 * is absent when no model is loaded, and otherwise maps the lower-cased text to a phishing
 * probability, or to nothing when prediction fails.
 */
module Analyzer {
  import opened Options
  import opened Text
  import opened Heuristic
  import opened EmailParser
  import Preprocessor
  import LinkAnalyzer
  import DomainAnalyzer
  import LanguageAnalyzer
  import SenderAnalyzer

  datatype MLPrediction = MLPrediction(isPhishing: bool, confidence: real)

  datatype Classification = Phishing | Suspicious | Safe

  datatype AnalysisResult = AnalysisResult(
    classification: Classification,
    confidenceScore: real,
    summary: string,
    heuristicResults: seq<HeuristicResult>,
    mlPrediction: Option<MLPrediction>)

  /** The classifier's probability turned into a prediction (backend/src/detection/ml/model.py). */
  function Predict(probability: Option<real>): (p: Option<MLPrediction>)
    ensures p.Some? <==> probability.Some?
    ensures p.Some? ==> p.value.confidence == probability.value
    ensures p.Some? ==> (p.value.isPhishing <==> p.value.confidence >= 0.5)
  {
    match probability
    case Some(prob) => Some(MLPrediction(prob >= 0.5, prob))
    case None => None
  }

  // ---------------------------------------------------------------------------
  // Maximum, sum and mean of the scores

  function MaxOf(xs: seq<real>): (m: real)
    ensures forall k :: 0 <= k < |xs| ==> xs[k] <= m
    ensures |xs| == 0 ==> m == 0.0
    ensures |xs| > 0 ==> exists k :: 0 <= k < |xs| && m == xs[k]
  {
    if |xs| == 0 then 0.0
    else if |xs| == 1 then xs[0]
    else Max(MaxOf(xs[..|xs| - 1]), xs[|xs| - 1])
  }

  /** `sum(xs)`, added from the left. */
  function Sum(xs: seq<real>): real {
    if |xs| == 0 then 0.0 else Sum(xs[..|xs| - 1]) + xs[|xs| - 1]
  }

  function Mean(xs: seq<real>): real {
    if |xs| == 0 then 0.0 else Sum(xs) / |xs| as real
  }

  predicate Between(xs: seq<real>, lo: real, hi: real) {
    forall k :: 0 <= k < |xs| ==> lo <= xs[k] <= hi
  }

  /** No value in `xs` is negative, as no heuristic score is. */
  predicate NonNegative(xs: seq<real>) {
    forall k :: 0 <= k < |xs| ==> 0.0 <= xs[k]
  }

  /** The sum of `n` values in `[lo, hi]` lies in `[n * lo, n * hi]`. */
  lemma {:induction false} SumBetween(xs: seq<real>, lo: real, hi: real)
    requires Between(xs, lo, hi)
    ensures |xs| as real * lo <= Sum(xs) <= |xs| as real * hi
  {
    if |xs| > 0 {
      SumBetween(xs[..|xs| - 1], lo, hi);
      assert |xs| as real * lo == (|xs| - 1) as real * lo + lo;
      assert |xs| as real * hi == (|xs| - 1) as real * hi + hi;
    }
  }

  /** Raising any value never lowers the sum or the maximum. */
  lemma {:induction false} SumMaxMonotone(xs: seq<real>, ys: seq<real>)
    requires |xs| == |ys| && forall k :: 0 <= k < |xs| ==> xs[k] <= ys[k]
    ensures Sum(xs) <= Sum(ys) && MaxOf(xs) <= MaxOf(ys)
  {
    if |xs| > 1 {
      SumMaxMonotone(xs[..|xs| - 1], ys[..|ys| - 1]);
    } else if |xs| == 1 {
      assert Sum(xs) == xs[0] && Sum(ys) == ys[0];
    }
  }

  /** With no negative values, the sum lies between the maximum and `n` times the maximum. */
  lemma {:induction false} SumAgainstMax(xs: seq<real>)
    requires NonNegative(xs)
    ensures MaxOf(xs) <= Sum(xs) <= |xs| as real * MaxOf(xs)
  {
    assert Between(xs, 0.0, MaxOf(xs));
    assert Sum(xs) <= |xs| as real * MaxOf(xs) by { SumBetween(xs, 0.0, MaxOf(xs)); }
    if |xs| > 0 {
      var k :| 0 <= k < |xs| && MaxOf(xs) == xs[k];
      assert xs[k] <= Sum(xs) by { SumAtLeast(xs); }
    }
  }

  /** A sum of values that are not negative is at least each of them. */
  lemma {:induction false} SumAtLeast(xs: seq<real>)
    requires NonNegative(xs)
    ensures forall k :: 0 <= k < |xs| ==> xs[k] <= Sum(xs)
  {
    if |xs| > 0 {
      var init := xs[..|xs| - 1];
      assert NonNegative(init) by {
        forall k | 0 <= k < |init| ensures 0.0 <= init[k] {
          assert init[k] == xs[k];
        }
      }
      SumAtLeast(init);
      assert Between(init, 0.0, MaxOf(xs)) by {
        forall k | 0 <= k < |init| ensures 0.0 <= init[k] <= MaxOf(xs) {
          assert init[k] == xs[k];
        }
      }
      SumBetween(init, 0.0, MaxOf(xs));
      forall k | 0 <= k < |xs| ensures xs[k] <= Sum(xs) {
        if k < |init| {
          assert init[k] == xs[k];
        }
      }
    }
  }

  /** How many of the values are not zero. */
  function Active(xs: seq<real>): nat {
    if |xs| == 0 then 0 else Active(xs[..|xs| - 1]) + (if xs[|xs| - 1] != 0.0 then 1 else 0)
  }

  /** With at most `n` values above zero and every value at most `hi`, the sum is at most `n * hi`. */
  lemma {:induction false} SumOfActive(xs: seq<real>, hi: real)
    requires Between(xs, 0.0, hi)
    ensures Sum(xs) <= Active(xs) as real * hi
  {
    if |xs| > 0 {
      SumOfActive(xs[..|xs| - 1], hi);
      assert Active(xs) as real * hi ==
        Active(xs[..|xs| - 1]) as real * hi + (if xs[|xs| - 1] != 0.0 then hi else 0.0);
    }
  }

  // ---------------------------------------------------------------------------
  // The final score

  /** With a prediction: `0.4 * max + 0.3 * mean + 0.3 * confidence`; without: `0.5 * max +
      0.5 * mean`. A prediction object is always truthy, so its presence alone decides. */
  function FinalScore(scores: seq<real>, ml: Option<MLPrediction>): real {
    match ml
    case Some(p) => 0.4 * MaxOf(scores) + 0.3 * Mean(scores) + 0.3 * p.confidence
    case None => 0.5 * MaxOf(scores) + 0.5 * Mean(scores)
  }

  /** With every score and the confidence in `[0, 1]`, the final score is in `[0, 1]`. */
  lemma FinalScoreBounds(scores: seq<real>, ml: Option<MLPrediction>)
    requires Between(scores, 0.0, 1.0)
    requires ml.Some? ==> 0.0 <= ml.value.confidence <= 1.0
    ensures 0.0 <= FinalScore(scores, ml) <= 1.0
  {
    MeanBetween(scores, 0.0, 1.0);
    var m := MaxOf(scores);
    assert 0.0 <= m <= 1.0;
  }

  /** The mean of values in `[lo, hi]` lies in `[lo, hi]`. */
  lemma MeanBetween(xs: seq<real>, lo: real, hi: real)
    requires Between(xs, lo, hi) && lo <= 0.0 <= hi
    ensures lo <= Mean(xs) <= hi
  {
    if |xs| > 0 {
      var n, s := |xs| as real, Sum(xs);
      assert n * lo <= s <= n * hi by {
        SumBetween(xs, lo, hi);
      }
      DivBetween(s, n, lo, hi);
    }
  }

  /** A total between `n * lo` and `n * hi` has its share of `n` between `lo` and `hi`. */
  lemma DivBetween(s: real, n: real, lo: real, hi: real)
    requires n > 0.0 && n * lo <= s <= n * hi
    ensures lo <= s / n <= hi
  {
    var q := s / n;
    assert q * n == s;
    assert (q - lo) * n == s - n * lo;
    assert (hi - q) * n == n * hi - s;
  }

  /** Raising any heuristic score, or the classifier's confidence, never lowers the final score. */
  lemma FinalScoreMonotone(xs: seq<real>, ys: seq<real>, ml: Option<MLPrediction>, ml': Option<MLPrediction>)
    requires |xs| == |ys| && forall k :: 0 <= k < |xs| ==> xs[k] <= ys[k]
    requires ml.Some? <==> ml'.Some?
    requires ml.Some? ==> ml.value.confidence <= ml'.value.confidence
    ensures FinalScore(xs, ml) <= FinalScore(ys, ml')
  {
    SumMaxMonotone(xs, ys);
    if |xs| > 0 {
      DivMonotone(Sum(xs), Sum(ys), |xs| as real);
    }
  }

  lemma DivMonotone(a: real, b: real, n: real)
    requires a <= b && n > 0.0
    ensures a / n <= b / n
  {
    assert b / n - a / n == (b - a) / n;
  }

  /** Without a prediction, and with no negative score, the final score lies between 5/8 of the
      largest score and the largest score itself, for four scores. */
  lemma FinalScoreAgainstMax(scores: seq<real>)
    requires |scores| == 4 && NonNegative(scores)
    ensures 0.625 * MaxOf(scores) <= FinalScore(scores, None) <= MaxOf(scores)
  {
    SumAgainstMax(scores);
  }

  /** Without a prediction, one heuristic on its own scores 5/8 of its score. */
  lemma LoneScore(scores: seq<real>, i: nat)
    requires |scores| == 4 && i < 4 && scores[i] >= 0.0
    requires forall k :: 0 <= k < 4 && k != i ==> scores[k] == 0.0
    ensures FinalScore(scores, None) == 0.625 * scores[i]
  {
    SumOfFour(scores);
  }

  lemma {:induction false} SumOfFour(xs: seq<real>)
    requires |xs| == 4
    ensures Sum(xs) == xs[0] + xs[1] + xs[2] + xs[3]
  {
    assert xs[..4] == xs;
    assert xs[..4][..3] == xs[..3] && xs[..3][..2] == xs[..2] && xs[..2][..1] == xs[..1];
    assert xs[..1][..0] == [];
    assert Sum(xs[..1]) == xs[0];
    assert Sum(xs[..2]) == xs[0] + xs[1];
    assert Sum(xs[..3]) == xs[0] + xs[1] + xs[2];
  }

  /** Without a prediction, two heuristics scoring at most 0.9 reach at most 0.675: "Phishing"
      needs at least three. */
  lemma TwoScoresBelowPhishing(scores: seq<real>)
    requires |scores| == 4 && Between(scores, 0.0, 0.9) && Active(scores) <= 2
    ensures FinalScore(scores, None) <= 0.675
  {
    SumOfActive(scores, 0.9);
  }

  // ---------------------------------------------------------------------------
  // Classification, summary and rounding

  /** At least 0.7 is "Phishing", at least 0.4 is "Suspicious", anything lower is "Safe". */
  function Classify(score: real): (c: Classification)
    ensures c == Phishing <==> score >= 0.7
    ensures c == Suspicious <==> 0.4 <= score < 0.7
    ensures c == Safe <==> score < 0.4
  {
    if score >= 0.7 then Phishing else if score >= 0.4 then Suspicious else Safe
  }

  function Rank(c: Classification): nat {
    match c
    case Safe => 0
    case Suspicious => 1
    case Phishing => 2
  }

  /** A higher score never gives a milder classification. */
  lemma ClassifyMonotone(s: real, t: real)
    requires s <= t
    ensures Rank(Classify(s)) <= Rank(Classify(t))
  {
  }

  function Name(c: Classification): string {
    match c
    case Phishing => "Phishing"
    case Suspicious => "Suspicious"
    case Safe => "Safe"
  }

  function Summary(c: Classification, n: nat): string {
    match c
    case Phishing => "High-risk: " + NatToString(n) + " phishing indicator(s) detected"
    case Suspicious => "Medium-risk: " + NatToString(n) + " suspicious indicator(s) found"
    case Safe => "No significant phishing indicators detected"
  }

  /** The summary tells the classification apart, and for a risky one the indicator count. */
  lemma SummaryDistinguishes(c: Classification, n: nat, c': Classification, n': nat)
    requires Summary(c, n) == Summary(c', n')
    ensures c == c'
    ensures c != Safe ==> n == n'
  {
    var s := Summary(c, n);
    assert s[0] == Summary(c', n')[0];
    if c == Phishing && c' == Phishing {
      MiddleEqual("High-risk: ", NatToString(n), NatToString(n'), " phishing indicator(s) detected");
    } else if c == Suspicious && c' == Suspicious {
      MiddleEqual("Medium-risk: ", NatToString(n), NatToString(n'), " suspicious indicator(s) found");
    }
  }

  lemma MiddleEqual(pre: string, a: string, b: string, post: string)
    requires pre + a + post == pre + b + post
    ensures a == b
  {
    assert a == (pre + a + post)[|pre|..|pre| + |a|];
    assert b == (pre + b + post)[|pre|..|pre| + |b|];
  }

  /** `round(x, 2)`: the nearest hundredth, halves going to the even hundredth. */
  function Round2(x: real): (r: real)
    ensures -0.005 <= r - x <= 0.005
    ensures (r * 100.0).Floor as real == r * 100.0
    ensures (r - x == 0.005 || x - r == 0.005) ==> (r * 100.0).Floor % 2 == 0
  {
    var scaled := x * 100.0;
    var low := scaled.Floor;
    var frac := scaled - low as real;
    var n := if frac < 0.5 then low
             else if frac > 0.5 then low + 1
             else if low % 2 == 0 then low
             else low + 1;
    assert (n as real / 100.0) * 100.0 == n as real;
    n as real / 100.0
  }

  /** A value already given in hundredths is left unchanged, so rounding twice is rounding once. */
  lemma Round2Idempotent(x: real)
    ensures Round2(Round2(x)) == Round2(x)
  {
    var r := Round2(x);
    var n := (r * 100.0).Floor;
    assert (r * 100.0).Floor == n;
  }

  /** The classification uses the unrounded score, so a score just below 0.7 is reported as 0.7
      and classified "Suspicious". */
  lemma RoundedScoreMayLookPhishing()
    ensures Classify(0.6999) == Suspicious && Round2(0.6999) == 0.7
  {
    assert (0.6999 * 100.0).Floor == 69;
  }

  // ---------------------------------------------------------------------------
  // The whole analysis

  /** The four heuristics the analyzer holds. */
  datatype Detector = LinkAnalysis | DomainAnalysis | LanguageAnalysis | SenderAnalysis

  /** The heuristics, in the order they run. */
  const Detectors: seq<Detector> := [LinkAnalysis, DomainAnalysis, LanguageAnalysis, SenderAnalysis]

  /** The name a heuristic reports its result under. */
  function DetectorName(d: Detector): string {
    match d
    case LinkAnalysis => "link_analysis"
    case DomainAnalysis => "domain_analysis"
    case LanguageAnalysis => "language_analysis"
    case SenderAnalysis => "sender_analysis"
  }

  /** One heuristic applied to the email. */
  function Run(d: Detector, email: ParsedEmail): (r: HeuristicResult)
    ensures r.name == DetectorName(d)
    ensures 0.0 <= r.score <= 0.9
  {
    match d
    case LinkAnalysis => LinkAnalyzer.ScoreValues(email); LinkAnalyzer.Analyze(email)
    case DomainAnalysis => DomainAnalyzer.Analyze(email)
    case LanguageAnalysis => LanguageAnalyzer.Analyze(email)
    case SenderAnalysis => SenderAnalyzer.Analyze(email)
  }

  /** Every heuristic's result, in the order they run. */
  function Heuristics(email: ParsedEmail): (rs: seq<HeuristicResult>)
    ensures |rs| == |Detectors| == 4
    ensures forall k :: 0 <= k < |rs| ==> rs[k].name == DetectorName(Detectors[k])
    ensures Between(Scores(rs), 0.0, 0.9)
  {
    seq(|Detectors|, k requires 0 <= k < |Detectors| => Run(Detectors[k], email))
  }

  function Scores(rs: seq<HeuristicResult>): (xs: seq<real>)
    ensures |xs| == |rs| && forall k :: 0 <= k < |rs| ==> xs[k] == rs[k].score
  {
    seq(|rs|, k requires 0 <= k < |rs| => rs[k].score)
  }

  /** How many indicators the results report between them. */
  function TotalIndicators(rs: seq<HeuristicResult>): nat {
    if |rs| == 0 then 0 else TotalIndicators(rs[..|rs| - 1]) + |rs[|rs| - 1].indicators|
  }

  /** Some result reports `x` as one of its indicators. */
  predicate Reported(rs: seq<HeuristicResult>, x: string) {
    exists k, j :: 0 <= k < |rs| && 0 <= j < |rs[k].indicators| && x == rs[k].indicators[j]
  }

  /** All indicators of all results, result by result: every reported indicator, nothing else,
      and each as often as it is reported. */
  function AllIndicators(rs: seq<HeuristicResult>): (all: seq<string>)
    ensures |all| == TotalIndicators(rs)
    ensures forall k, j :: 0 <= k < |rs| && 0 <= j < |rs[k].indicators| ==> rs[k].indicators[j] in all
    ensures forall i :: 0 <= i < |all| ==> Reported(rs, all[i])
  {
    if |rs| == 0 then [] else
      var init := AllIndicators(rs[..|rs| - 1]);
      var last := rs[|rs| - 1].indicators;
      assert forall k :: 0 <= k < |rs| - 1 ==> rs[..|rs| - 1][k] == rs[k];
      assert forall i :: 0 <= i < |init + last| ==> Reported(rs, (init + last)[i]) by {
        forall i | 0 <= i < |init + last| ensures Reported(rs, (init + last)[i]) {
          if i < |init| {
            var k, j :| 0 <= k < |rs| - 1 && 0 <= j < |rs[..|rs| - 1][k].indicators|
                        && init[i] == rs[..|rs| - 1][k].indicators[j];
            assert (init + last)[i] == rs[k].indicators[j];
          } else {
            assert (init + last)[i] == rs[|rs| - 1].indicators[i - |init|];
          }
        }
      }
      init + last
  }

  /** The verdict for given heuristic results and prediction. */
  function Aggregate(rs: seq<HeuristicResult>, ml: Option<MLPrediction>): (result: AnalysisResult)
    ensures result.heuristicResults == rs && result.mlPrediction == ml
    ensures result.classification == Classify(FinalScore(Scores(rs), ml))
    ensures result.confidenceScore == Round2(FinalScore(Scores(rs), ml))
    ensures -0.005 <= result.confidenceScore - FinalScore(Scores(rs), ml) <= 0.005
    ensures result.summary == Summary(result.classification, TotalIndicators(rs))
    ensures result.classification == Safe <==> result.summary == "No significant phishing indicators detected"
  {
    var final := FinalScore(Scores(rs), ml);
    var c := Classify(final);
    assert c != Safe ==> Summary(c, |AllIndicators(rs)|)[0] != 'N';
    AnalysisResult(c, Round2(final), Summary(c, |AllIndicators(rs)|), rs, ml)
  }

  /** `classifier` is absent when no model is loaded; otherwise it is asked about the lower-cased
      subject and body. */
  function Analyze(email: ParsedEmail, classifier: Option<string -> Option<real>>): (result: AnalysisResult)
    ensures result.heuristicResults == Heuristics(email)
    ensures |result.heuristicResults| == 4
    ensures result.mlPrediction == match classifier
      case Some(probability) => Predict(probability(Lower(email.subject + " " + email.bodyText)))
      case None => None
    ensures result.classification == Classify(FinalScore(Scores(Heuristics(email)), result.mlPrediction))
    ensures result.confidenceScore == Round2(FinalScore(Scores(Heuristics(email)), result.mlPrediction))
    ensures result.summary == Summary(result.classification, TotalIndicators(Heuristics(email)))
  {
    var ml := match classifier
      case Some(probability) =>
        Predict(probability(Preprocessor.ExtractFeatures(email.subject, email.bodyText, |email.links|).text))
      case None => None;
    Aggregate(Heuristics(email), ml)
  }

  /** Without a classifier the final score lies between 5/8 of the highest heuristic score and
      that score; with one whose probabilities lie in `[0, 1]`, it lies in `[0, 1]`. */
  lemma AnalyzeBounds(email: ParsedEmail, classifier: Option<string -> Option<real>>)
    requires classifier.Some? ==> forall t :: classifier.value(t).Some? ==> 0.0 <= classifier.value(t).value <= 1.0
    ensures var final := FinalScore(Scores(Heuristics(email)), Analyze(email, classifier).mlPrediction);
            0.0 <= final <= 1.0
    ensures classifier.None? ==>
      var xs := Scores(Heuristics(email));
      0.625 * MaxOf(xs) <= FinalScore(xs, None) <= MaxOf(xs) <= 0.9
  {
    var xs := Scores(Heuristics(email));
    FinalScoreBounds(xs, Analyze(email, classifier).mlPrediction);
    FinalScoreAgainstMax(xs);
  }
}
