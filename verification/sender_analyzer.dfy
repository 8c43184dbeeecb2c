/**
 * The sender heuristic (backend/src/detection/heuristics/sender_analyzer.py): a free mail
 * provider whose display name mentions a brand, a display name that contains an email address,
 * and a Reply-To address on another domain than the sender's.
 */
module SenderAnalyzer {
  import opened Text
  import opened Heuristic
  import opened EmailParser

  const FreeEmailProviders: seq<string> := [
    "gmail.com", "yahoo.com", "hotmail.com", "outlook.com",
    "aol.com", "mail.com", "protonmail.com", "icloud.com",
    "yandex.com", "zoho.com"]

  const BrandKeywords: seq<string> := [
    "paypal", "apple", "microsoft", "google", "amazon", "netflix",
    "facebook", "instagram", "support", "security", "admin",
    "helpdesk", "service", "billing", "account"]

  /** The character class `[\w.-]`. */
  predicate DomainChar(c: char) { IsWordChar(c) || c == '.' || c == '-' }

  /** An `@` at `k` that is followed by at least one domain character. */
  predicate AtSign(s: string, k: nat) {
    k + 1 < |s| && s[k] == '@' && DomainChar(s[k + 1])
  }

  /** The first `@` at or after `i` that is followed by a domain character. */
  function FirstAtSign(s: string, i: nat): (k: nat)
    ensures i <= k
    ensures k < |s| ==> AtSign(s, k)
    ensures forall j :: i <= j < k && j < |s| ==> !AtSign(s, j)
    decreases |s| - i
  {
    if i >= |s| then i
    else if AtSign(s, i) then i
    else FirstAtSign(s, i + 1)
  }

  /** Group 1 of `re.search(r"@([\w.-]+)", s)`, or "" when there is no match. */
  function AtDomain(s: string): (d: string)
    ensures d == "" <==> forall k :: 0 <= k < |s| ==> !AtSign(s, k)
    ensures forall m :: 0 <= m < |d| ==> DomainChar(d[m])
  {
    var k := FirstAtSign(s, 0);
    if k < |s| then s[k + 1..k + 1 + RunLength(s, k + 1, DomainChar)] else ""
  }

  /** An address whose local part has no `@` yields the domain written after the `@`, up to the
      first character that cannot belong to a domain. */
  lemma AtDomainOf(local: string, domain: string, rest: string)
    requires '@' !in local
    requires |domain| > 0 && forall m :: 0 <= m < |domain| ==> DomainChar(domain[m])
    requires |rest| == 0 || !DomainChar(rest[0])
    ensures AtDomain(local + "@" + domain + rest) == domain
  {
    var s := local + "@" + domain + rest;
    var k := |local|;
    assert s[k] == '@' && s[k + 1] == domain[0];
    assert forall j :: 0 <= j < k ==> s[j] == local[j];
    assert AtSign(s, k);
    var f := FirstAtSign(s, 0);
    assert forall j :: 0 <= j < k ==> s[j] in local;
    assert f == k;
    var n := RunLength(s, k + 1, DomainChar);
    forall m | 0 <= m < |domain| ensures s[k + 1 + m] == domain[m] { }
    assert k + 1 + |domain| < |s| ==> s[k + 1 + |domain|] == rest[0];
    assert n == |domain|;
    assert s[k + 1..k + 1 + n] == domain;
  }

  // ---------------------------------------------------------------------------
  // `re.search(r"[\w.-]+@[\w.-]+\.\w+", s)`

  /** An address around the `@` at `k` whose domain has the `.` at `j`: a domain character
      before the `@`, domain characters from the `@` to the dot, and a word character after it. */
  predicate AddressAt(s: string, k: nat, j: nat) {
    && 0 < k && k + 1 < j && j + 1 < |s|
    && s[k] == '@' && DomainChar(s[k - 1])
    && (forall m :: k < m < j ==> DomainChar(s[m]))
    && s[j] == '.' && IsWordChar(s[j + 1])
  }

  predicate HasEmailAddress(s: string) {
    exists k: nat, j: nat | k < |s| && j < |s| :: AddressAt(s, k, j)
  }

  /** Any text with an address `local@domain.tld` in it contains an email address. */
  lemma AddressFound(pre: string, local: string, domain: string, tld: string, post: string)
    requires |local| > 0 && DomainChar(local[|local| - 1])
    requires |domain| > 0 && forall m :: 0 <= m < |domain| ==> DomainChar(domain[m])
    requires |tld| > 0 && IsWordChar(tld[0])
    ensures HasEmailAddress(pre + local + "@" + domain + "." + tld + post)
  {
    var s := pre + local + "@" + domain + "." + tld + post;
    var k := |pre| + |local|;
    var j := k + 1 + |domain|;
    assert s[k - 1] == local[|local| - 1];
    forall m | k < m < j ensures DomainChar(s[m]) {
      assert s[m] == domain[m - k - 1];
    }
    assert s[j + 1] == tld[0];
    assert AddressAt(s, k, j);
  }

  /** An email address needs an `@` and a `.`. */
  lemma AddressNeedsAt(s: string)
    requires HasEmailAddress(s)
    ensures '@' in s && '.' in s
  {
    var k: nat, j: nat :| k < |s| && j < |s| && AddressAt(s, k, j);
    assert s[k] == '@' && s[j] == '.';
  }

  // ---------------------------------------------------------------------------
  // The three checks

  /** The display name (lowered) mentions one of the brand keywords. */
  predicate MentionsBrand(name: string) {
    exists kw | kw in BrandKeywords :: Contains(name, kw)
  }

  /** `email.headers.get("reply-to", "")`. */
  function ReplyTo(email: ParsedEmail): string {
    if "reply-to" in email.headers then email.headers["reply-to"] else ""
  }

  predicate FreeMailImpersonation(email: ParsedEmail) {
    AtDomain(Lower(email.sender)) in FreeEmailProviders && MentionsBrand(Lower(email.senderName))
  }

  predicate DisplayNameSpoof(email: ParsedEmail) {
    HasEmailAddress(Lower(email.senderName))
  }

  predicate ReplyToMismatch(email: ParsedEmail) {
    var reply := Lower(ReplyTo(email));
    var sender := Lower(email.sender);
    reply != "" && reply != sender && AtDomain(reply) != "" && AtDomain(reply) != AtDomain(sender)
  }

  /** The indicator of the free-mail check. */
  function FreeMailIndicator(email: ParsedEmail): string {
    "Free email (" + AtDomain(Lower(email.sender)) + ") with brand name in display: \"" + email.senderName + "\""
  }

  /** The indicator of the display-name check. */
  function DisplayIndicator(email: ParsedEmail): string {
    "Display name contains email address: \"" + email.senderName + "\""
  }

  /** The indicator of the Reply-To check. */
  function ReplyIndicator(email: ParsedEmail): string {
    "Reply-To domain (" + AtDomain(Lower(ReplyTo(email))) + ") differs from sender ("
      + AtDomain(Lower(email.sender)) + ")"
  }

  function Findings(email: ParsedEmail): (fs: seq<Finding>)
    ensures FloorsPositive(fs)
    ensures |fs| <= 3
    ensures RunningMax(fs) == if FreeMailImpersonation(email) then 0.8
                              else if DisplayNameSpoof(email) || ReplyToMismatch(email) then 0.7
                              else 0.0
  {
    var free := Check(FreeMailImpersonation(email), Finding(FreeMailIndicator(email), 0.8));
    var display := Check(DisplayNameSpoof(email), Finding(DisplayIndicator(email), 0.7));
    var reply := Check(ReplyToMismatch(email), Finding(ReplyIndicator(email), 0.7));
    RunningMaxAppend(free, display);
    RunningMaxAppend(free + display, reply);
    FloorsPositiveAppend(free, display);
    FloorsPositiveAppend(free + display, reply);
    free + display + reply
  }

  /** The indicators are those of the checks that fire, in the order free mail, display name,
      Reply-To. */
  function Analyze(email: ParsedEmail): (result: HeuristicResult)
    ensures result.name == "sender_analysis"
    ensures result.score == 0.0 <==> result.indicators == []
    ensures result.score in {0.0, 0.7, 0.8}
    ensures var free, display := Flag(FreeMailImpersonation(email)), Flag(DisplayNameSpoof(email));
      && |result.indicators| == free + display + Flag(ReplyToMismatch(email))
      && (FreeMailImpersonation(email) ==> result.indicators[0] == FreeMailIndicator(email))
      && (DisplayNameSpoof(email) ==> result.indicators[free] == DisplayIndicator(email))
      && (ReplyToMismatch(email) ==> result.indicators[free + display] == ReplyIndicator(email))
    ensures |result.indicators| <= 3
  {
    var fs := Findings(email);
    ScoreZeroIffNoIndicators("sender_analysis", fs);
    Report("sender_analysis", fs)
  }

  /** The score ranks the checks: free-mail impersonation 0.8, either of the others 0.7. */
  lemma AnalyzeScore(email: ParsedEmail)
    ensures Analyze(email).score == if FreeMailImpersonation(email) then 0.8
                                    else if DisplayNameSpoof(email) || ReplyToMismatch(email) then 0.7
                                    else 0.0
  {
  }

  /** A Reply-To that repeats the sender's address, or names the sender's domain, is not flagged. */
  lemma ReplyToSenderNotFlagged(email: ParsedEmail)
    requires Lower(ReplyTo(email)) == Lower(email.sender)
             || AtDomain(Lower(ReplyTo(email))) == AtDomain(Lower(email.sender))
    ensures !ReplyToMismatch(email)
  {
  }

  // ---------------------------------------------------------------------------
  // Plain addresses

  /** `local@domain` written in lower-case host-name characters is its own lower-case form and
      has `domain` as its domain. */
  lemma PlainAddress(local: string, domain: string)
    requires NameFrom(local, 0) && |domain| > 0 && NameFrom(domain, 0)
    ensures Lower(local + "@" + domain) == local + "@" + domain
    ensures AtDomain(local + "@" + domain) == domain
  {
    var s := local + "@" + domain;
    forall k | 0 <= k < |s| ensures Lower(s)[k] == s[k] {
      if k < |local| {
        NameAt(local, 0, k);
      } else if k > |local| {
        NameAt(domain, 0, k - |local| - 1);
      }
    }
    forall k | 0 <= k < |local| ensures local[k] != '@' { NameAt(local, 0, k); }
    forall m | 0 <= m < |domain| ensures DomainChar(domain[m]) { NameAt(domain, 0, m); }
    AtDomainOf(local, domain, "");
    assert s + "" == s;
  }

  /** A Reply-To address on another domain than the sender's is a mismatch. */
  lemma OtherReplyDomain(email: ParsedEmail, replyLocal: string, replyDomain: string, local: string, domain: string)
    requires NameFrom(replyLocal, 0) && |replyDomain| > 0 && NameFrom(replyDomain, 0)
    requires NameFrom(local, 0) && |domain| > 0 && NameFrom(domain, 0)
    requires ReplyTo(email) == replyLocal + "@" + replyDomain && email.sender == local + "@" + domain
    requires replyDomain != domain
    ensures ReplyToMismatch(email)
  {
    PlainAddress(replyLocal, replyDomain);
    PlainAddress(local, domain);
  }

  /** `local@host.tld` in host-name characters, with a letter after the dot, is an address. */
  lemma NamedAddress(local: string, host: string, tld: string)
    requires |local| > 0 && NameFrom(local, 0)
    requires |host| > 0 && NameFrom(host, 0)
    requires |tld| > 0 && IsLowerLetter(tld[0])
    ensures HasEmailAddress(local + "@" + host + "." + tld)
  {
    var s := local + "@" + host + "." + tld;
    var k := |local|;
    var j := k + 1 + |host|;
    assert DomainChar(s[k - 1]) by {
      assert s[k - 1] == local[k - 1];
      NameAt(local, 0, k - 1);
    }
    assert s[k] == '@' && s[j] == '.';
    forall m | k < m < j ensures DomainChar(s[m]) {
      assert s[m] == host[m - k - 1];
      NameAt(host, 0, m - k - 1);
    }
    assert s[j + 1] == tld[0];
    assert AddressAt(s, k, j);
  }
}
