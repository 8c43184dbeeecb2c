/**
 * The link heuristic (backend/src/detection/heuristics/link_analyzer.py): every link is checked
 * for a URL shortener, a display/target mismatch, a raw IP address as host, a suspicious
 * top-level domain and a suspicious keyword; the body is then searched for an IP-based URL.
 */
module LinkAnalyzer {
  import opened Options
  import opened Text
  import opened Heuristic
  import opened EmailParser

  const UrlShorteners: seq<string> := [
    "bit.ly", "tinyurl.com", "t.co", "goo.gl", "ow.ly", "is.gd",
    "buff.ly", "short.link", "rebrand.ly", "cutt.ly"
  ]

  const SuspiciousTlds: seq<string> := [
    ".xyz", ".top", ".club", ".work", ".click", ".loan", ".win",
    ".gq", ".ml", ".cf", ".tk", ".ga", ".buzz", ".icu"
  ]

  const SuspiciousUrlKeywords: seq<string> := [
    "login", "verify", "account", "secure", "update", "confirm",
    "signin", "banking", "password", "credential"
  ]

  // ---------------------------------------------------------------------------
  // The pattern `https?://\d{1,3}\.\d{1,3}\.\d{1,3}\.\d{1,3}`

  /** `n` groups of one to three digits, each followed by a dot, and then at least one digit
      start `t`. A group of four or more digits cannot match: `\d{1,3}` would have to stop
      before a digit, where the dot the pattern requires is not. */
  predicate Octets(t: string, n: nat)
    decreases n
  {
    var a := RunLength(t, 0, IsDigit);
    if n == 0 then a >= 1
    else 1 <= a <= 3 && a < |t| && t[a] == '.' && Octets(t[a + 1..], n - 1)
  }

  /** The pattern matches at position `i` (case-sensitively). */
  predicate IpUrlAt(s: string, i: nat) {
    (MatchAt(s, "http://", i) && Octets(s[i + 7..], 3))
    || (MatchAt(s, "https://", i) && Octets(s[i + 8..], 3))
  }

  /** `IP_URL_PATTERN.search(s)` succeeds: the pattern matches at some position. */
  predicate HasIpUrl(s: string) {
    exists k: nat :: k < |s| && IpUrlAt(s, k)
  }

  predicate Digits(d: string) {
    forall k :: 0 <= k < |d| ==> IsDigit(d[k])
  }

  lemma RunLengthOf(t: string, d: string)
    requires Digits(d) && |d| < |t| && t[..|d|] == d && !IsDigit(t[|d|])
    ensures RunLength(t, 0, IsDigit) == |d|
  {
  }

  lemma RunLengthAtLeast(t: string, d: string)
    requires Digits(d) && |d| <= |t| && t[..|d|] == d
    ensures RunLength(t, 0, IsDigit) >= |d|
  {
  }

  /** One more dotted group in front of `n` groups. */
  lemma OctetsCons(a: string, rest: string, n: nat)
    requires Digits(a) && 1 <= |a| <= 3 && Octets(rest, n)
    ensures Octets(a + "." + rest, n + 1)
  {
    var t := a + "." + rest;
    assert t[..|a|] == a && t[|a|] == '.';
    RunLengthOf(t, a);
    assert t[|a| + 1..] == rest;
  }

  lemma OctetsLast(d: string, post: string)
    requires Digits(d) && |d| >= 1
    ensures Octets(d + post, 0)
  {
    assert (d + post)[..|d|] == d;
    RunLengthAtLeast(d + post, d);
  }

  lemma IpUrlAtScheme(s: string, i: nat, scheme: string)
    requires scheme == "http://" || scheme == "https://"
    requires MatchAt(s, scheme, i) && i + |scheme| <= |s| && Octets(s[i + |scheme|..], 3)
    ensures IpUrlAt(s, i)
  {
  }

  /** A dotted quad of one- to three-digit groups after `http://` or `https://`, whatever
      surrounds it, is found by the search. */
  lemma IpUrlFound(pre: string, scheme: string, a: string, b: string, c: string, d: string, post: string)
    requires scheme == "http://" || scheme == "https://"
    requires Digits(a) && Digits(b) && Digits(c) && Digits(d)
    requires 1 <= |a| <= 3 && 1 <= |b| <= 3 && 1 <= |c| <= 3 && 1 <= |d|
    ensures HasIpUrl(pre + scheme + (a + "." + (b + "." + (c + "." + (d + post)))))
  {
    var quad := a + "." + (b + "." + (c + "." + (d + post)));
    assert Octets(quad, 3) by {
      OctetsLast(d, post);
      OctetsCons(c, d + post, 0);
      OctetsCons(b, c + "." + (d + post), 1);
      OctetsCons(a, b + "." + (c + "." + (d + post)), 2);
    }
    var s := pre + scheme + quad;
    var i := |pre|;
    assert MatchAt(s, scheme, i) by {
      assert s[i..i + |scheme|] == scheme;
      MatchAtSlice(s, scheme, i);
    }
    assert s[i + |scheme|..] == quad;
    IpUrlAtScheme(s, i, scheme);
  }

  lemma SchemesStartWithHttp()
    ensures "http://"[..4] == "http" && "https://"[..4] == "http"
  {
  }

  /** A match always starts with the scheme, so text without `http` has no IP-based URL. */
  lemma IpUrlNeedsScheme(s: string)
    requires HasIpUrl(s)
    ensures Contains(s, "http")
  {
    var k: nat :| k < |s| && IpUrlAt(s, k);
    var scheme := if MatchAt(s, "http://", k) then "http://" else "https://";
    SchemesStartWithHttp();
    MatchAtPrefix(s, scheme, "http", k);
    ContainsIff(s, "http");
  }

  // ---------------------------------------------------------------------------
  // The per-link checks

  /** The first entry of `table` that occurs in the (lower-cased) href. */
  function FirstIn(href: string, table: seq<string>): (r: Option<string>)
    ensures r.Some? ==> r.value in table && Contains(href, r.value)
    ensures r.None? ==> forall k :: 0 <= k < |table| ==> !Contains(href, table[k])
  {
    match FindFirst(table, t => Contains(href, t))
    case Some(i) => Some(table[i])
    case None => None
  }

  /** The href ends in `tld`, or has `tld` right before a slash. */
  predicate TldIn(href: string, tld: string) {
    EndsWith(href, tld) || Contains(href, tld + "/")
  }

  function FirstTld(href: string): (r: Option<string>)
    ensures r.Some? ==> r.value in SuspiciousTlds && TldIn(href, r.value)
    ensures r.None? ==> forall k :: 0 <= k < |SuspiciousTlds| ==> !TldIn(href, SuspiciousTlds[k])
  {
    match FindFirst(SuspiciousTlds, t => TldIn(href, t))
    case Some(i) => Some(SuspiciousTlds[i])
    case None => None
  }

  /** The first three checks on one link: shortener, mismatch, IP address. */
  function LeadingFindings(link: LinkInfo, shortener: Option<string>, ip: bool): (fs: seq<Finding>)
    ensures FloorsPositive(fs)
    ensures |fs| <= 3
    ensures |fs| == Flag(shortener.Some?) + Flag(link.isMismatched) + Flag(ip)
    ensures shortener.Some? ==> fs[0] == Finding("URL shortener detected: " + shortener.value, 0.6)
    ensures link.isMismatched ==> fs[Flag(shortener.Some?)] == MismatchFinding(link)
    ensures ip ==> fs[|fs| - 1] == Finding("IP-based URL: " + link.href, 0.8)
    ensures RunningMax(fs) ==
      if link.isMismatched then 0.9 else if ip then 0.8 else if shortener.Some? then 0.6 else 0.0
    ensures ip ==> Finding("IP-based URL: " + link.href, 0.8) in fs
  {
    var s := When(shortener, 0.6, x => "URL shortener detected: " + x);
    var m := Check(link.isMismatched, MismatchFinding(link));
    var i := Check(ip, Finding("IP-based URL: " + link.href, 0.8));
    RunningMaxAppend(s, m);
    RunningMaxAppend(s + m, i);
    FloorsPositiveAppend(s, m);
    FloorsPositiveAppend(s + m, i);
    assert ip ==> i[0] in s + m + i;
    s + m + i
  }

  function MismatchFinding(link: LinkInfo): Finding {
    Finding("URL mismatch: displays '" + link.displayText + "' but links to '" + link.href + "'", 0.9)
  }

  /** The last two checks on one link: top-level domain, keyword. */
  function TrailingFindings(tld: Option<string>, keyword: Option<string>): (fs: seq<Finding>)
    ensures FloorsPositive(fs)
    ensures |fs| <= 2
    ensures |fs| == Flag(tld.Some?) + Flag(keyword.Some?)
    ensures tld.Some? ==> fs[0] == Finding("Suspicious TLD: " + tld.value, 0.5)
    ensures keyword.Some? ==> fs[|fs| - 1] == Finding("Suspicious keyword in URL: \"" + keyword.value + "\"", 0.5)
    ensures RunningMax(fs) == if tld.Some? || keyword.Some? then 0.5 else 0.0
  {
    var t := When(tld, 0.5, x => "Suspicious TLD: " + x);
    var k := When(keyword, 0.5, x => "Suspicious keyword in URL: \"" + x + "\"");
    RunningMaxAppend(t, k);
    FloorsPositiveAppend(t, k);
    t + k
  }

  /** The checks on one link, in the order the loop body runs them, given what the shortener,
      TLD and keyword lookups found and whether the href is IP-based. */
  function LinkFindingsOf(link: LinkInfo, shortener: Option<string>, ip: bool, tld: Option<string>,
                          keyword: Option<string>): (fs: seq<Finding>)
    ensures FloorsPositive(fs)
    ensures |fs| <= 5
    ensures RunningMax(fs) ==
      if link.isMismatched then 0.9
      else if ip then 0.8
      else if shortener.Some? then 0.6
      else if tld.Some? || keyword.Some? then 0.5
      else 0.0
    ensures ip ==> Finding("IP-based URL: " + link.href, 0.8) in fs
  {
    var lead := LeadingFindings(link, shortener, ip);
    var trail := TrailingFindings(tld, keyword);
    Joined(lead, trail);
    lead + trail
  }

  /** The findings of one link come in the order shortener, mismatch, IP address, top-level
      domain, keyword, each present exactly when its check fires. */
  lemma LinkFindingsOrder(link: LinkInfo, shortener: Option<string>, ip: bool, tld: Option<string>,
                          keyword: Option<string>)
    ensures var fs := LinkFindingsOf(link, shortener, ip, tld, keyword);
      |fs| == Flag(shortener.Some?) + Flag(link.isMismatched) + Flag(ip) + Flag(tld.Some?) + Flag(keyword.Some?)
    ensures var fs := LinkFindingsOf(link, shortener, ip, tld, keyword);
      shortener.Some? ==> fs[0] == Finding("URL shortener detected: " + shortener.value, 0.6)
    ensures var fs := LinkFindingsOf(link, shortener, ip, tld, keyword);
      link.isMismatched ==> fs[Flag(shortener.Some?)] == MismatchFinding(link)
    ensures var fs := LinkFindingsOf(link, shortener, ip, tld, keyword);
      ip ==> fs[Flag(shortener.Some?) + Flag(link.isMismatched)] == Finding("IP-based URL: " + link.href, 0.8)
    ensures var fs := LinkFindingsOf(link, shortener, ip, tld, keyword);
      tld.Some? ==> fs[Flag(shortener.Some?) + Flag(link.isMismatched) + Flag(ip)] == Finding("Suspicious TLD: " + tld.value, 0.5)
    ensures var fs := LinkFindingsOf(link, shortener, ip, tld, keyword);
      keyword.Some? ==> fs[|fs| - 1] == Finding("Suspicious keyword in URL: \"" + keyword.value + "\"", 0.5)
  {
    var lead := LeadingFindings(link, shortener, ip);
    var trail := TrailingFindings(tld, keyword);
    assert LinkFindingsOf(link, shortener, ip, tld, keyword) == lead + trail;
    AppendPlaces(lead, trail, Flag(shortener.Some?), Flag(link.isMismatched) + Flag(ip));
  }

  /** Where the elements of `lead` and `trail` land in `lead + trail`. */
  lemma AppendPlaces(lead: seq<Finding>, trail: seq<Finding>, i: nat, n: nat)
    requires i + n == |lead|
    ensures |lead + trail| == |lead| + |trail|
    ensures |lead| > 0 ==> (lead + trail)[0] == lead[0] && (lead + trail)[|lead| - 1] == lead[|lead| - 1]
    ensures i < |lead| ==> (lead + trail)[i] == lead[i]
    ensures |trail| > 0 ==> (lead + trail)[|lead|] == trail[0] && (lead + trail)[|lead + trail| - 1] == trail[|trail| - 1]
  {
  }

  /** `LinkAnalyzer.analyze`'s loop body for one link. */
  function LinkChecks(link: LinkInfo): (fs: seq<Finding>)
    ensures FloorsPositive(fs)
    ensures |fs| <= 5
    ensures RunningMax(fs) == LinkLevel(link)
    ensures HasIpUrl(link.href) ==> Finding("IP-based URL: " + link.href, 0.8) in fs
    ensures var href := Lower(link.href);
      fs == LinkFindingsOf(link, FirstIn(href, UrlShorteners), HasIpUrl(link.href), FirstTld(href),
                           FirstIn(href, SuspiciousUrlKeywords))
  {
    var href := Lower(link.href);
    var shortener, tld, keyword := FirstIn(href, UrlShorteners), FirstTld(href), FirstIn(href, SuspiciousUrlKeywords);
    assert shortener.Some? <==> Shortened(link) by {
      FirstInSome(href, UrlShorteners);
    }
    assert keyword.Some? <==> SuspiciousWord(link) by {
      FirstInSome(href, SuspiciousUrlKeywords);
    }
    assert tld.Some? <==> SuspiciousEnding(link) by {
      FirstTldSome(href);
    }
    LinkFindingsOf(link, shortener, HasIpUrl(link.href), tld, keyword)
  }

  lemma FirstInSome(href: string, table: seq<string>)
    ensures FirstIn(href, table).Some? <==> exists k :: 0 <= k < |table| && Contains(href, table[k])
  {
    if FirstIn(href, table).Some? {
      var k :| 0 <= k < |table| && table[k] == FirstIn(href, table).value;
    }
  }

  lemma FirstTldSome(href: string)
    ensures FirstTld(href).Some? <==> exists k :: 0 <= k < |SuspiciousTlds| && TldIn(href, SuspiciousTlds[k])
  {
    if FirstTld(href).Some? {
      var k :| 0 <= k < |SuspiciousTlds| && SuspiciousTlds[k] == FirstTld(href).value;
    }
  }

  predicate Shortened(link: LinkInfo) {
    exists k :: 0 <= k < |UrlShorteners| && Contains(Lower(link.href), UrlShorteners[k])
  }

  predicate SuspiciousEnding(link: LinkInfo) {
    exists k :: 0 <= k < |SuspiciousTlds| && TldIn(Lower(link.href), SuspiciousTlds[k])
  }

  predicate SuspiciousWord(link: LinkInfo) {
    exists k :: 0 <= k < |SuspiciousUrlKeywords| && Contains(Lower(link.href), SuspiciousUrlKeywords[k])
  }

  /** How serious the most serious thing wrong with one link is. */
  function LinkLevel(link: LinkInfo): real {
    if link.isMismatched then 0.9
    else if HasIpUrl(link.href) then 0.8
    else if Shortened(link) then 0.6
    else if SuspiciousEnding(link) || SuspiciousWord(link) then 0.5
    else 0.0
  }

  // ---------------------------------------------------------------------------
  // The heuristic

  /** Some indicator already mentions an IP-based URL. */
  predicate MentionsIp(fs: seq<Finding>) {
    exists k :: 0 <= k < |fs| && Contains(fs[k].indicator, "IP-based")
  }

  function Body(email: ParsedEmail): string {
    email.bodyText + " " + email.bodyHtml
  }

  function BodyCheck(email: ParsedEmail, fs: seq<Finding>): (extra: seq<Finding>)
    ensures FloorsPositive(extra)
    ensures |extra| == Flag(HasIpUrl(Body(email)) && !MentionsIp(fs))
    ensures |extra| > 0 ==> extra[0] == Finding("IP-based URL found in email body", 0.7)
    ensures RunningMax(extra) == if HasIpUrl(Body(email)) && !MentionsIp(fs) then 0.7 else 0.0
  {
    Check(HasIpUrl(Body(email)) && !MentionsIp(fs), Finding("IP-based URL found in email body", 0.7))
  }

  function Findings(email: ParsedEmail): seq<Finding> {
    var fs := Collect(email.links, LinkChecks);
    fs + BodyCheck(email, fs)
  }

  /** `LinkAnalyzer.analyze`. */
  function Analyze(email: ParsedEmail): (r: HeuristicResult)
    ensures r.name == "link_analysis"
    ensures r.score == 0.0 <==> |r.indicators| == 0
    ensures |r.indicators| <= 5 * |email.links| + 1
    ensures var fs := Collect(email.links, LinkChecks);
      r.indicators == Indicators(fs) + Indicators(BodyCheck(email, fs))
  {
    var fs := Collect(email.links, LinkChecks);
    CollectPositive(email.links, LinkChecks);
    CollectLength(email.links, LinkChecks, 5);
    FloorsPositiveAppend(fs, BodyCheck(email, fs));
    IndicatorsAppend(fs, BodyCheck(email, fs));
    ScoreZeroIffNoIndicators("link_analysis", Findings(email));
    Report("link_analysis", Findings(email))
  }

  /** Every link's findings form one block, after those of the links before it and before those
      of the links after it. */
  lemma LinkChecksInOrder(links: seq<LinkInfo>, i: nat)
    requires i < |links|
    ensures Collect(links, LinkChecks) ==
      Collect(links[..i], LinkChecks) + LinkChecks(links[i]) + Collect(links[i + 1..], LinkChecks)
  {
    CollectSplit(links, LinkChecks, i);
  }

  /** The body is searched only when no link was reported as IP-based. */
  predicate BodyIpReported(email: ParsedEmail) {
    HasIpUrl(Body(email)) && !MentionsIp(Collect(email.links, LinkChecks))
  }

  /** The score is that of the worst link, or 0.7 when the body search fires and no link is
      worse. */
  lemma AnalyzeScore(email: ParsedEmail)
    ensures Analyze(email).score ==
      Max(Peak(email.links, LinkLevel), if BodyIpReported(email) then 0.7 else 0.0)
  {
    var fs := Collect(email.links, LinkChecks);
    CollectPeak(email.links, LinkChecks, LinkLevel);
    RunningMaxAppend(fs, BodyCheck(email, fs));
  }

  /** The score takes one of six values. */
  lemma ScoreValues(email: ParsedEmail)
    ensures Analyze(email).score in {0.0, 0.5, 0.6, 0.7, 0.8, 0.9}
  {
    AnalyzeScore(email);
    var p := Peak(email.links, LinkLevel);
    if p != 0.0 {
      var i :| 0 <= i < |email.links| && p == LinkLevel(email.links[i]);
    }
  }

  predicate Mismatched(link: LinkInfo) {
    link.isMismatched
  }

  /** Only a mismatch raises a link to 0.9, and nothing raises it higher. */
  lemma LinkLevelTop(link: LinkInfo)
    ensures LinkLevel(link) <= 0.9 && (LinkLevel(link) == 0.9 <==> Mismatched(link))
  {
  }

  /** A mismatched link always scores 0.9, and nothing else does. */
  lemma MismatchDominates(email: ParsedEmail)
    ensures Analyze(email).score == 0.9 <==> Any(email.links, Mismatched)
  {
    AnalyzeScore(email);
    forall x ensures LinkLevel(x) <= 0.9 && (LinkLevel(x) == 0.9 <==> Mismatched(x)) {
      LinkLevelTop(x);
    }
    PeakTop(email.links, LinkLevel, 0.9, Mismatched);
  }

  lemma IpIndicatorMentionsIp(href: string)
    ensures Contains("IP-based URL: " + href, "IP-based")
  {
    ContainsMiddle("", "IP-based", " URL: " + href);
    assert "" + "IP-based" + " URL: " + href == "IP-based URL: " + href;
  }

  lemma MentionsIpOf(fs: seq<Finding>, f: Finding)
    requires f in fs && Contains(f.indicator, "IP-based")
    ensures MentionsIp(fs)
  {
    var j :| 0 <= j < |fs| && fs[j] == f;
  }

  /** A link whose href is IP-based suppresses the body search. */
  lemma IpLinkSuppressesBody(email: ParsedEmail, i: nat)
    requires i < |email.links| && HasIpUrl(email.links[i].href)
    ensures !BodyIpReported(email)
  {
    var href := email.links[i].href;
    var f := Finding("IP-based URL: " + href, 0.8);
    IpIndicatorMentionsIp(href);
    CollectIncludes(email.links, LinkChecks, i, f);
    MentionsIpOf(Collect(email.links, LinkChecks), f);
  }

  /** Without links, and without an IP-based URL in the body, there is nothing to report. */
  lemma NothingToReport(email: ParsedEmail)
    requires |email.links| == 0 && !HasIpUrl(Body(email))
    ensures Analyze(email).score == 0.0 && Analyze(email).indicators == []
  {
  }
}
