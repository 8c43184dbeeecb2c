/**
 * Worked examples of the domain heuristic: look-alike sender domains of its tests.
 */
module DomainCases {
  import opened Options
  import opened Text
  import opened EmailParser
  import opened DomainAnalyzer
  import Scenarios

  /** The label and suffix of `paypa1.com` are plain host-name text. */
  lemma Paypa1Names()
    ensures NameFrom("paypa1", 0) && '.' !in "paypa1"
    ensures NameFrom("com", 0) && '.' !in "com"
  {
  }

  /** The sender `support@paypa1.com` is flagged as typosquatting PayPal. */
  lemma Paypa1Sender(email: ParsedEmail)
    requires email.sender == "support" + "@" + ("paypa1" + "." + "com")
    ensures DomainAnalyzer.Analyze(email).score >= 0.85
  {
    assert AnyTyposquat(email) by {
      Paypa1Names();
      SenderDomainOf("support", "paypa1", "com");
      Scenarios.TyposquatPaypa1();
    }
    AnalyzeScore(email);
  }

  /** The label and suffix of `g00gle.com` are plain host-name text. */
  lemma G00gleNames()
    ensures NameFrom("g00gle", 0) && '.' !in "g00gle"
    ensures NameFrom("com", 0) && '.' !in "com"
  {
  }

  /** The sender `alert@g00gle.com` is flagged as typosquatting Google. */
  lemma G00gleSender(email: ParsedEmail)
    requires email.sender == "alert" + "@" + ("g00gle" + "." + "com")
    ensures DomainAnalyzer.Analyze(email).score >= 0.85
  {
    assert AnyTyposquat(email) by {
      G00gleNames();
      SenderDomainOf("alert", "g00gle", "com");
      Scenarios.TyposquatG00gle();
    }
    AnalyzeScore(email);
  }
}
