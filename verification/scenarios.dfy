/**
 * Worked examples: concrete inputs and the outcome the model gives them.
 */
module Scenarios {
  import opened Options
  import opened Pattern
  import opened Analyzer
  import opened Levenshtein
  import DomainAnalyzer
  import LanguageAnalyzer
  import SenderAnalyzer
  import LinkAnalyzer

  /** Three strong heuristics without a classifier: `0.5 * 0.9 + 0.5 * 2.65 / 4` is "Phishing". */
  lemma PhishingVerdict()
    ensures FinalScore([0.9, 0.85, 0.9, 0.0], None) == 0.78125
    ensures Classify(FinalScore([0.9, 0.85, 0.9, 0.0], None)) == Phishing
  {
    SumOfFour([0.9, 0.85, 0.9, 0.0]);
  }

  /** A mismatched link alone, the strongest single finding, only reaches "Suspicious". */
  lemma LoneMismatch()
    ensures FinalScore([0.9, 0.0, 0.0, 0.0], None) == 0.5625
    ensures Classify(FinalScore([0.9, 0.0, 0.0, 0.0], None)) == Suspicious
  {
    LoneScore([0.9, 0.0, 0.0, 0.0], 0);
  }

  /** With a classifier 90% sure, the same email scores 0.6975: still "Suspicious", though the
      reported confidence rounds to 0.7. */
  lemma ConfidentClassifier()
    ensures FinalScore([0.9, 0.0, 0.0, 0.0], Some(MLPrediction(true, 0.9))) == 0.6975
    ensures Classify(0.6975) == Suspicious && Round2(0.6975) == 0.7
  {
    SumOfFour([0.9, 0.0, 0.0, 0.0]);
    assert (0.6975 * 100.0).Floor == 69;
  }

  /** Nothing found anywhere: a score of zero and "Safe". */
  lemma NothingFound()
    ensures FinalScore([0.0, 0.0, 0.0, 0.0], None) == 0.0
    ensures Classify(FinalScore([0.0, 0.0, 0.0, 0.0], None)) == Safe
  {
    LoneScore([0.0, 0.0, 0.0, 0.0], 0);
  }

  /** The urgency phrase `urgent` is found whatever its case, and one urgency phrase scores 0.45. */
  lemma UrgentFound()
    ensures Search(Word("urgent"), "URGENT reply").Some?
    ensures LanguageAnalyzer.Score(1, 0) == 0.45
  {
    WordMatch("urgent", "URGENT reply", 0);
    SearchFinds(Word("urgent"), "URGENT reply", 0, 6);
  }

  /** The domain of a bracketed sender address stops at the closing bracket. */
  lemma SenderDomain()
    ensures SenderAnalyzer.AtDomain("bob" + "@" + "pay-pal.io" + ">") == "pay-pal.io"
  {
    SenderAnalyzer.AtDomainOf("bob", "pay-pal.io", ">");
  }

  /** A body mentioning `http://10.0.0.1/login` holds an IP-based URL. */
  lemma IpLink()
    ensures LinkAnalyzer.HasIpUrl("see " + "http://" + ("10" + "." + ("0" + "." + ("0" + "." + ("1" + "/login")))))
  {
    LinkAnalyzer.IpUrlFound("see ", "http://", "10", "0", "0", "1", "/login");
  }

  /** `g00gle` is two substitutions from `google` and further from the three brands listed
      before it, so the typosquatting check reports `google`. */
  lemma TyposquatG00gle()
    ensures DomainAnalyzer.TyposquatOf("g00gle") == Some("google")
  {
    assert DomainAnalyzer.KnownBrands[0] == "paypal" && DomainAnalyzer.KnownBrands[1] == "apple" && DomainAnalyzer.KnownBrands[2] == "microsoft" && DomainAnalyzer.KnownBrands[3] == "google";
    G00gleFarFromFirstBrands();
    G00gleNearGoogle();
  }

  lemma G00gleFarFromFirstBrands()
    ensures !DomainAnalyzer.NearMiss("g00gle", "paypal") && !DomainAnalyzer.NearMiss("g00gle", "apple") && !DomainAnalyzer.NearMiss("g00gle", "microsoft")
  {
    LevAtLeastAbsent("g00gle", "paypal");
    AbsentPaypal();
    LevAtLeastAbsent("g00gle", "apple");
    AbsentApple();
    LevAtLeastGap("g00gle", "microsoft");
  }

  lemma G00gleNearGoogle()
    ensures DomainAnalyzer.NearMiss("g00gle", "google")
  {
    LevAtMostMismatches("g00gle", "google");
    LevZeroIff("g00gle", "google");
    var s, t := "g00gle", "google";
    assert Mismatches(s, t, 1) == 0;
    assert Mismatches(s, t, 3) == 2;
    assert Mismatches(s, t, 6) == 2;
  }

  /** Five characters of `g00gle` are not in `paypal`, four are not in `apple`. */
  lemma AbsentPaypal()
    ensures Absent("g00gle", "paypal", 6, 6) == 5
  {
    var s, t := "g00gle", "paypal";
    assert !OccursIn('g', t, 6) && !OccursIn('0', t, 6) && OccursIn('l', t, 6) && !OccursIn('e', t, 6);
    assert Absent(s, t, 1, 6) == 1;
    assert Absent(s, t, 2, 6) == 2;
    assert Absent(s, t, 3, 6) == 3;
    assert Absent(s, t, 4, 6) == 4;
    assert Absent(s, t, 5, 6) == 4;
  }

  lemma AbsentApple()
    ensures Absent("g00gle", "apple", 6, 5) == 4
  {
    var s, t := "g00gle", "apple";
    assert !OccursIn('g', t, 5) && !OccursIn('0', t, 5) && OccursIn('l', t, 5) && OccursIn('e', t, 5);
    assert Absent(s, t, 1, 5) == 1;
    assert Absent(s, t, 2, 5) == 2;
    assert Absent(s, t, 3, 5) == 3;
    assert Absent(s, t, 4, 5) == 4;
    assert Absent(s, t, 5, 5) == 4;
  }

  /** `paypa1` is one substitution from `paypal`, the first brand of the list. */
  lemma TyposquatPaypa1()
    ensures DomainAnalyzer.TyposquatOf("paypa1") == Some("paypal")
  {
    assert DomainAnalyzer.KnownBrands[0] == "paypal";
    Paypa1NearPaypal();
  }

  lemma Paypa1NearPaypal()
    ensures DomainAnalyzer.NearMiss("paypa1", "paypal")
  {
    LevAtMostMismatches("paypa1", "paypal");
    LevZeroIff("paypa1", "paypal");
    var s, t := "paypa1", "paypal";
    assert Mismatches(s, t, 5) == 0;
    assert Mismatches(s, t, 6) == 1;
  }
}
