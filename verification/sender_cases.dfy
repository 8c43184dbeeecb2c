/**
 * Worked examples of the sender heuristic: the inputs of its tests and the scores the model
 * gives them.
 */
module SenderCases {
  import opened Options
  import opened Text
  import opened EmailParser
  import opened SenderAnalyzer

  /** Lower-casing the display name "PayPal Security". */
  lemma LowerPayPal()
    ensures Lower("PayPal Security") == "paypal" + " security"
  {
  }

  /** `paypal.security@gmail.com` is at a free provider. */
  lemma GmailDomain()
    ensures AtDomain(Lower("paypal.security" + "@" + "gmail.com")) in FreeEmailProviders
  {
    PlainAddress("paypal.security", "gmail.com");
    assert FreeEmailProviders[0] == "gmail.com";
  }

  /** "PayPal Security" mentions the brand `paypal`. */
  lemma PayPalNamed()
    ensures MentionsBrand(Lower("PayPal Security"))
  {
    LowerPayPal();
    ContainsMiddle("", "paypal", " security");
    assert "" + "paypal" + " security" == "paypal" + " security";
    assert BrandKeywords[0] == "paypal";
  }

  /** The free-mail sender `paypal.security@gmail.com` shown as "PayPal Security" impersonates a brand. */
  lemma FreeMailFlag(email: ParsedEmail)
    requires email.sender == "paypal.security" + "@" + "gmail.com" && email.senderName == "PayPal Security"
    ensures FreeMailImpersonation(email)
  {
    GmailDomain();
    PayPalNamed();
  }

  /** A free-mail sender whose display name names PayPal scores 0.8. */
  lemma FreeMailBrand(email: ParsedEmail)
    requires email.sender == "paypal.security" + "@" + "gmail.com" && email.senderName == "PayPal Security"
    ensures SenderAnalyzer.Analyze(email).score == 0.8
  {
    FreeMailFlag(email);
    AnalyzeScore(email);
  }

  /** The parts of both addresses are plain host-name text. */
  lemma ScammerNames()
    ensures NameFrom("scammer", 0) && NameFrom("evil.com", 0)
    ensures NameFrom("support", 0) && NameFrom("company.com", 0)
  {
  }

  /** Replies to `scammer@evil.com` from `support@company.com` are a mismatch. */
  lemma ScammerReply(email: ParsedEmail)
    requires email.sender == "support" + "@" + "company.com"
    requires email.headers == map["reply-to" := "scammer" + "@" + "evil.com"]
    ensures ReplyToMismatch(email)
  {
    assert ReplyTo(email) == "scammer" + "@" + "evil.com" by { assert "reply-to" in email.headers; }
    assert "evil.com" != "company.com" by { assert |"evil.com"| != |"company.com"|; }
    ScammerNames();
    OtherReplyDomain(email, "scammer", "evil.com", "support", "company.com");
  }

  /** A Reply-To address on another domain than the sender's: scores at least 0.7. */
  lemma ReplyElsewhere(email: ParsedEmail)
    requires email.sender == "support" + "@" + "company.com"
    requires email.headers == map["reply-to" := "scammer" + "@" + "evil.com"]
    ensures SenderAnalyzer.Analyze(email).score >= 0.7
  {
    ScammerReply(email);
    AnalyzeScore(email);
  }

  /** The display name `ceo@company.com` holds an address. */
  lemma CeoNamed()
    ensures HasEmailAddress(Lower("ceo" + "@" + "company" + "." + "com"))
  {
    assert "ceo" + "@" + "company" + "." + "com" == "ceo@company.com";
    LowerOfLower("ceo@company.com");
    NamedAddress("ceo", "company", "com");
  }

  /** A display name that is itself an e-mail address: scores at least 0.7. */
  lemma AddressAsName(email: ParsedEmail)
    requires email.senderName == "ceo" + "@" + "company" + "." + "com"
    ensures SenderAnalyzer.Analyze(email).score >= 0.7
  {
    CeoNamed();
    AnalyzeScore(email);
  }

  /** "John Doe" names no brand and holds no `@`. */
  lemma JohnDoeNoBrand()
    ensures !MentionsBrand(Lower("John Doe"))
    ensures '@' !in Lower("John Doe")
  {
    assert Lower("John Doe") == "john doe";
    forall kw | kw in BrandKeywords ensures !Contains("john doe", kw) {
    }
  }

  /** An ordinary free-mail sender with a plain name and no Reply-To scores 0. */
  lemma PlainSender(email: ParsedEmail)
    requires email.sender == "friend" + "@" + "gmail.com" && email.senderName == "John Doe"
    requires email.headers == map[]
    ensures SenderAnalyzer.Analyze(email).score == 0.0
  {
    JohnDoeNoBrand();
    assert !HasEmailAddress(Lower(email.senderName)) by {
      if HasEmailAddress(Lower(email.senderName)) { AddressNeedsAt(Lower(email.senderName)); }
    }
    assert ReplyTo(email) == "";
    AnalyzeScore(email);
  }
}
