/**
 * Worked examples of the language heuristic: the urgent and the threatening message of its
 * tests.
 */
module LanguageCases {
  import opened Options
  import opened Text
  import opened Pattern
  import opened EmailParser
  import opened LanguageAnalyzer

  /** Lower-casing the words of "Legal action". */
  lemma LowerLegal()
    ensures Lower("Legal") == "legal" && Lower("action") == "action"
  {
  }

  /** "Legal action" after the subject "Final Warning" is the first threat phrase. */
  lemma LegalHit(body: string)
    ensures 0 in Hits(ThreatPhrases(), "Final Warning" + " " + ("Legal" + " " + "action" + body))
  {
    var text := "Final Warning" + " " + ("Legal" + " " + "action" + body);
    assert Search(Spaced(Word("legal"), Word("action")), text).Some? by {
      assert text == ("Final Warning" + " ") + "Legal" + " " + "action" + body;
      LowerLegal();
      SpacedPhrase("Final Warning" + " ", "Legal", "action", body, "legal", "action");
    }
    PhraseHit(ThreatPhrases(), text, 0);
  }

  /** "Legal action" in the body is a threat: an indicator, and a score of at least 0.65. */
  lemma LegalThreat(email: ParsedEmail)
    requires email.subject == "Final Warning"
    requires email.bodyText == "Legal" + " " + "action" + " will be taken. Your account will be permanently deleted."
    ensures LanguageAnalyzer.Analyze(email).score >= 0.65
    ensures |LanguageAnalyzer.Analyze(email).indicators| >= 1
  {
    LegalHit(" will be taken. Your account will be permanently deleted.");
    ThreatHit(email, 0);
  }

  /** Lower-casing the words of "URGENT" and "Immediate action required". */
  lemma LowerUrgent()
    ensures Lower("URGENT") == "urgent" && Lower("Immediate") == "immediate"
    ensures Lower("action") == "action" && Lower("required") == "required"
  {
  }

  /** "URGENT" opening the subject is the third urgency phrase. */
  lemma UrgentHit(body: string)
    ensures 2 in Hits(UrgencyPhrases(), "URGENT" + ": Account Suspended" + " " + body)
  {
    var text := "URGENT" + ": Account Suspended" + " " + body;
    assert Search(Word("urgent"), text).Some? by {
      assert text == "" + "URGENT" + (": Account Suspended" + " " + body);
      LowerUrgent();
      WordFound("", "URGENT", ": Account Suspended" + " " + body, "urgent");
    }
    UrgentThird();
    PhraseHit(UrgencyPhrases(), text, 2);
  }

  /** The third urgency phrase is the word `urgent`. */
  lemma UrgentThird()
    ensures UrgencyPhrases()[2] == Word("urgent")
  {
  }

  /** "Immediate action required" opening the body is the first urgency phrase. */
  lemma ImmediateHit(subject: string)
    ensures 0 in Hits(UrgencyPhrases(), subject + " " + ("Immediate" + " " + "action" + " " + "required" + ". Verify your account within 24 hours."))
  {
    var head := subject + " ";
    var rest := ". Verify your account within 24 hours.";
    var text := subject + " " + ("Immediate" + " " + "action" + " " + "required" + rest);
    assert Search(Spaced(Word("immediate"), Spaced(Word("action"), Word("required"))), text).Some? by {
      assert text == head + "Immediate" + " " + "action" + " " + "required" + rest;
      LowerUrgent();
      SpacedPhrase3(head, "Immediate", "action", "required", rest, "immediate", "action", "required");
    }
    PhraseHit(UrgencyPhrases(), text, 0);
  }

  /** "URGENT" and "Immediate action required" are two urgency phrases: two indicators and a score
      of at least 0.6. */
  lemma UrgentAndImmediate(email: ParsedEmail)
    requires email.subject == "URGENT" + ": Account Suspended"
    requires email.bodyText == "Immediate" + " " + "action" + " " + "required" + ". Verify your account within 24 hours."
    ensures LanguageAnalyzer.Analyze(email).score >= 0.6
    ensures |LanguageAnalyzer.Analyze(email).indicators| >= 2
  {
    UrgentHit(email.bodyText);
    ImmediateHit(email.subject);
    TwoUrgencyHits(email, 0, 2);
  }
}
