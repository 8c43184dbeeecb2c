/**
 * The email structure and its link extraction (backend/src/parser/email_parser.py).
 *
 * HTML parsing itself is not modelled: `ExtractLinks` receives the anchors an HTML parser found
 * in the body (each `<a>` element that carries an `href`, with the text pieces it contains), and
 * does what the Python code does with them. The three regular expressions of the file are
 * written out as scanners over the string.
 */
module EmailParser {
  import opened Options
  import opened Text

  datatype LinkInfo = LinkInfo(href: string, displayText: string, isMismatched: bool := false)

  /** A parsed message; every field has the default the dataclass gives it. */
  datatype ParsedEmail = ParsedEmail(
    sender: string := "",
    senderName: string := "",
    recipient: string := "",
    subject: string := "",
    bodyText: string := "",
    bodyHtml: string := "",
    headers: map<string, string> := map[],
    links: seq<LinkInfo> := [])

  /** An anchor element as the HTML parser reports it: its `href` attribute and its text nodes. */
  datatype Anchor = Anchor(href: string, texts: seq<string>)

  /** The request payload: the string-valued keys that are present, and the `headers` key. */
  datatype RawEmail = RawEmail(fields: map<string, string>, headers: Option<map<string, string>>)

  /** `email_data.get(key, "")`. */
  function Field(data: RawEmail, key: string): (v: string)
    ensures key !in data.fields ==> v == ""
    ensures key in data.fields ==> v == data.fields[key]
  {
    if key in data.fields then data.fields[key] else ""
  }

  // ---------------------------------------------------------------------------
  // The `https?://` prefix, matched case-insensitively

  /**
   * Length of the scheme prefix at `i`: 8 for `https://`, 7 for `http://`, 0 for neither.
   * When `https://` is present but what follows it does not match, the regular expression
   * engine's retry without the optional `s` cannot succeed either (it would need `:` where
   * the `s` is), so the longer prefix is the only one that needs to be considered.
   */
  function SchemeLength(s: string, i: nat): (n: nat)
    ensures n == 0 || n == 7 || n == 8
    ensures n == 8 <==> MatchAtCI(s, "https://", i)
    ensures n == 7 ==> MatchAtCI(s, "http://", i)
    ensures n == 0 ==> !MatchAtCI(s, "http://", i)
  {
    if MatchAtCI(s, "https://", i) then 8
    else if MatchAtCI(s, "http://", i) then 7
    else 0
  }

  /** `[^\s<>"']`, the characters a plain-text URL may continue with. */
  predicate UrlChar(c: char) { !IsSpace(c) && c != '<' && c != '>' && c != '"' && c != '\'' }

  /** `[^/:\s]`, the characters of a host. */
  predicate HostChar(c: char) { c != '/' && c != ':' && !IsSpace(c) }

  /** Length of the match of `https?://[^\s<>"']+` at `i`, or 0 when it does not match there. */
  function UrlMatchLength(s: string, i: nat): (n: nat)
    ensures n > 0 ==> i + n <= |s| && SchemeLength(s, i) > 0 && n > SchemeLength(s, i)
  {
    var scheme := SchemeLength(s, i);
    if scheme == 0 then 0
    else
      var run := RunLength(s, i + scheme, UrlChar);
      if run == 0 then 0 else scheme + run
  }

  /** `URL_REGEX.finditer(s)` from position `i`: successive non-overlapping matches, left to right. */
  function FindUrls(s: string, i: nat := 0): (urls: seq<string>)
    ensures forall k :: 0 <= k < |urls| ==> |urls[k]| > 7 && LowerChar(urls[k][0]) == 'h'
    decreases |s| - i
  {
    if i >= |s| then []
    else
      var n := UrlMatchLength(s, i);
      if n > 0 then
        assert MatchFromCI(s, "http://", i, 0) || MatchFromCI(s, "https://", i, 0);
        [s[i..i + n]] + FindUrls(s, i + n)
      else FindUrls(s, i + 1)
  }

  /** Characters `rstrip` removes from the end of a plain-text URL. */
  const TrailingPunctuation: string := ".,;:!?)"

  predicate Punctuation(c: char) { c in TrailingPunctuation }

  /** `match.group().rstrip(".,;:!?)")`. */
  function TrimUrl(url: string): string {
    TrimEnd(url, Punctuation)
  }

  /** A URL that starts with a letter keeps at least that letter, and ends in no punctuation. */
  lemma TrimUrlKeepsScheme(url: string)
    requires |url| > 0 && LowerChar(url[0]) == 'h'
    ensures |TrimUrl(url)| > 0 && TrimUrl(url)[|TrimUrl(url)| - 1] !in TrailingPunctuation
  {
  }

  /** The plain-text URLs of a body, trimmed, in discovery order. */
  function PlainUrls(bodyText: string): (urls: seq<string>)
    ensures forall k :: 0 <= k < |urls| ==> |urls[k]| > 0 && urls[k][|urls[k]| - 1] !in TrailingPunctuation
  {
    var found := FindUrls(bodyText);
    var urls := seq(|found|, k requires 0 <= k < |found| => TrimUrl(found[k]));
    forall k | 0 <= k < |urls|
      ensures |urls[k]| > 0 && urls[k][|urls[k]| - 1] !in TrailingPunctuation
    {
      TrimUrlKeepsScheme(found[k]);
    }
    urls
  }

  // ---------------------------------------------------------------------------
  // Mismatch detection

  /** `re.compile(r"https?://[^\s]+", re.IGNORECASE).match(text)`: the text begins like a URL. */
  predicate UrlShaped(text: string) {
    var scheme := SchemeLength(text, 0);
    scheme > 0 && scheme < |text| && !IsSpace(text[scheme])
  }

  /** The host captured by `https?://([^/:\s]+)` when the pattern matches at `i`. */
  function HostAt(url: string, i: nat): (h: Option<string>)
    ensures h.Some? ==> |h.value| > 0 && forall k :: 0 <= k < |h.value| ==> HostChar(h.value[k])
  {
    var scheme := SchemeLength(url, i);
    if scheme == 0 then None
    else
      var run := RunLength(url, i + scheme, HostChar);
      if run == 0 then None else Some(url[i + scheme..i + scheme + run])
  }

  function FirstHost(url: string, i: nat): (h: Option<string>)
    ensures h.Some? ==> exists k: nat :: i <= k && HostAt(url, k) == h && forall j: nat :: i <= j < k ==> HostAt(url, j).None?
    ensures h.None? ==> forall k: nat :: i <= k ==> HostAt(url, k).None?
    decreases |url| - i
  {
    if i >= |url| then
      assert forall k: nat :: i <= k ==> SchemeLength(url, k) == 0;
      None
    else if HostAt(url, i).Some? then HostAt(url, i)
    else FirstHost(url, i + 1)
  }

  /** `_extract_domain`: the host of the leftmost `https?://host` in the string, if any. */
  function ExtractDomain(url: string): (h: Option<string>)
    ensures h.Some? ==> exists k: nat :: HostAt(url, k) == h && forall j: nat :: j < k ==> HostAt(url, j).None?
    ensures h.None? ==> forall k: nat :: HostAt(url, k).None?
  {
    FirstHost(url, 0)
  }

  /** `_check_link_mismatch`. */
  function CheckLinkMismatch(href: string, displayText: string): (mismatched: bool)
    ensures !UrlShaped(displayText) ==> !mismatched
    ensures mismatched <==>
      && UrlShaped(displayText)
      && ExtractDomain(href).Some? && ExtractDomain(displayText).Some?
      && Lower(ExtractDomain(href).value) != Lower(ExtractDomain(displayText).value)
  {
    if !UrlShaped(displayText) then false
    else
      match (ExtractDomain(href), ExtractDomain(displayText))
      case (Some(h), Some(d)) => Lower(h) != Lower(d)
      case _ => false
  }

  // ---------------------------------------------------------------------------
  // Links of the HTML body

  /** `anchor.get_text(strip=True)`: the text pieces, each stripped, concatenated. */
  function AnchorText(texts: seq<string>): string {
    if |texts| == 0 then "" else AnchorText(texts[..|texts| - 1]) + Strip(texts[|texts| - 1])
  }

  function AnchorLink(a: Anchor): LinkInfo {
    var href := Strip(a.href);
    var text := AnchorText(a.texts);
    LinkInfo(href, text, CheckLinkMismatch(href, text))
  }

  /** `extract_links`: one link per anchor, in document order; nothing for an empty body. */
  function ExtractLinks(html: string, anchors: seq<Anchor>): (links: seq<LinkInfo>)
    ensures html == "" ==> links == []
    ensures html != "" ==> |links| == |anchors|
    ensures html != "" ==> forall k :: 0 <= k < |links| ==>
      links[k].href == Strip(anchors[k].href) && links[k].displayText == AnchorText(anchors[k].texts)
    ensures html != "" ==> forall k :: 0 <= k < |links| ==>
      links[k].isMismatched == CheckLinkMismatch(links[k].href, links[k].displayText)
    ensures forall k :: 0 <= k < |links| ==> !UrlShaped(links[k].displayText) ==> !links[k].isMismatched
  {
    if html == "" then []
    else seq(|anchors|, k requires 0 <= k < |anchors| => AnchorLink(anchors[k]))
  }

  // ---------------------------------------------------------------------------
  // Merging plain-text links after the HTML ones

  /** The lower-cased hrefs of a list of links. */
  function HrefKeys(links: seq<LinkInfo>): set<string> {
    set k | 0 <= k < |links| :: Lower(links[k].href)
  }

  /** The `k`-th URL is kept: its lower-cased form is neither an HTML href nor an earlier URL. */
  predicate FreshUrl(html: seq<LinkInfo>, urls: seq<string>, k: nat)
    requires k < |urls|
  {
    && Lower(urls[k]) !in HrefKeys(html)
    && forall j :: 0 <= j < k ==> Lower(urls[j]) != Lower(urls[k])
  }

  function PlainLink(url: string): LinkInfo {
    LinkInfo(url, url, false)
  }

  /** The plain-text links among the first `n` URLs: the kept ones, in order. */
  function FreshLinks(html: seq<LinkInfo>, urls: seq<string>, n: nat): seq<LinkInfo>
    requires n <= |urls|
  {
    if n == 0 then []
    else FreshLinks(html, urls, n - 1) + (if FreshUrl(html, urls, n - 1) then [PlainLink(urls[n - 1])] else [])
  }

  /** Each kept link is one of the first `n` URLs shown as itself, never mismatched, and not an
      HTML href up to case. */
  predicate KeptUrls(html: seq<LinkInfo>, urls: seq<string>, n: nat, kept: seq<LinkInfo>)
    requires n <= |urls|
  {
    forall m :: 0 <= m < |kept| ==>
      && kept[m].href == kept[m].displayText && !kept[m].isMismatched
      && kept[m].href in urls[..n]
      && Lower(kept[m].href) !in HrefKeys(html)
  }

  /** No two links share an href up to case. */
  predicate UniqueHrefs(links: seq<LinkInfo>) {
    forall m1, m2 :: 0 <= m1 < m2 < |links| ==> Lower(links[m1].href) != Lower(links[m2].href)
  }

  /** Every one of the first `n` URLs is, up to case, an HTML href or a kept href. */
  predicate Covered(html: seq<LinkInfo>, urls: seq<string>, n: nat, kept: seq<LinkInfo>)
    requires n <= |urls|
  {
    forall k :: 0 <= k < n ==> Lower(urls[k]) in HrefKeys(html) + HrefKeys(kept)
  }

  /** The links kept after `n - 1` URLs come first among those kept after `n`. */
  lemma FreshLinksGrow(html: seq<LinkInfo>, urls: seq<string>, n: nat)
    requires 0 < n <= |urls|
    ensures var before, kept := FreshLinks(html, urls, n - 1), FreshLinks(html, urls, n);
      && |before| <= |kept|
      && (forall k :: 0 <= k < |before| ==> kept[k] == before[k])
      && HrefKeys(before) <= HrefKeys(kept)
      && (FreshUrl(html, urls, n - 1) ==> |kept| == |before| + 1 && kept[|before|] == PlainLink(urls[n - 1]))
      && (!FreshUrl(html, urls, n - 1) ==> kept == before)
  {
    var before, kept := FreshLinks(html, urls, n - 1), FreshLinks(html, urls, n);
    assert forall k :: 0 <= k < |before| ==> kept[k] == before[k];
  }

  lemma {:induction false} FreshLinksKept(html: seq<LinkInfo>, urls: seq<string>, n: nat)
    requires n <= |urls|
    ensures KeptUrls(html, urls, n, FreshLinks(html, urls, n))
  {
    if n > 0 {
      FreshLinksKept(html, urls, n - 1);
      FreshLinksGrow(html, urls, n);
      assert urls[..n - 1] <= urls[..n];
      assert urls[n - 1] == urls[..n][n - 1];
    }
  }

  lemma {:induction false} FreshLinksUnique(html: seq<LinkInfo>, urls: seq<string>, n: nat)
    requires n <= |urls|
    ensures UniqueHrefs(FreshLinks(html, urls, n))
  {
    if n > 0 {
      FreshLinksUnique(html, urls, n - 1);
      FreshLinksGrow(html, urls, n);
      var before := FreshLinks(html, urls, n - 1);
      if FreshUrl(html, urls, n - 1) {
        FreshLinksKept(html, urls, n - 1);
        forall m | 0 <= m < |before|
          ensures Lower(before[m].href) != Lower(urls[n - 1])
        {
          var j :| 0 <= j < n - 1 && before[m].href == urls[..n - 1][j];
          assert before[m].href == urls[j];
        }
      }
    }
  }

  lemma {:induction false} FreshLinksCovered(html: seq<LinkInfo>, urls: seq<string>, n: nat)
    requires n <= |urls|
    ensures Covered(html, urls, n, FreshLinks(html, urls, n))
  {
    if n > 0 {
      FreshLinksCovered(html, urls, n - 1);
      FreshLinksGrow(html, urls, n);
      var before, kept := FreshLinks(html, urls, n - 1), FreshLinks(html, urls, n);
      var key := Lower(urls[n - 1]);
      if FreshUrl(html, urls, n - 1) {
        assert key == Lower(kept[|before|].href);
      } else if key !in HrefKeys(html) {
        var j :| 0 <= j < n - 1 && Lower(urls[j]) == key;
      }
    }
  }

  /** What the plain-text links are: each one is a URL shown as itself and never mismatched; none
      repeats an HTML href or another plain-text link up to case; and every URL is covered. */
  lemma FreshLinksFacts(html: seq<LinkInfo>, urls: seq<string>, n: nat)
    requires n <= |urls|
    ensures KeptUrls(html, urls, n, FreshLinks(html, urls, n))
    ensures UniqueHrefs(FreshLinks(html, urls, n))
    ensures Covered(html, urls, n, FreshLinks(html, urls, n))
  {
    FreshLinksKept(html, urls, n);
    FreshLinksUnique(html, urls, n);
    FreshLinksCovered(html, urls, n);
  }

  /** The loop of `parse_email`, which keeps the lower-cased hrefs seen so far in a set. */
  function MergeLinks(links: seq<LinkInfo>, seen: set<string>, urls: seq<string>, i: nat): seq<LinkInfo>
    requires i <= |urls|
    decreases |urls| - i
  {
    if i == |urls| then links
    else if Lower(urls[i]) in seen then MergeLinks(links, seen, urls, i + 1)
    else MergeLinks(links + [PlainLink(urls[i])], seen + {Lower(urls[i])}, urls, i + 1)
  }

  /** The lower-cased URLs among the first `i`. */
  function SeenUrls(urls: seq<string>, i: nat): set<string>
    requires i <= |urls|
  {
    set j | 0 <= j < i :: Lower(urls[j])
  }

  /** The loop with its set of seen hrefs computes exactly the kept URLs. */
  lemma {:induction false} MergeLinksKeepsFresh(html: seq<LinkInfo>, urls: seq<string>, i: nat, links: seq<LinkInfo>, seen: set<string>)
    requires i <= |urls|
    requires links == html + FreshLinks(html, urls, i)
    requires seen == HrefKeys(html) + SeenUrls(urls, i)
    ensures MergeLinks(links, seen, urls, i) == html + FreshLinks(html, urls, |urls|)
    decreases |urls| - i
  {
    if i < |urls| {
      var key := Lower(urls[i]);
      if key in seen {
        assert !FreshUrl(html, urls, i) by {
          if key !in HrefKeys(html) {
            var j :| 0 <= j < i && Lower(urls[j]) == key;
          }
        }
        MergeLinksKeepsFresh(html, urls, i + 1, links, seen);
      } else {
        assert FreshUrl(html, urls, i);
        assert SeenUrls(urls, i + 1) == SeenUrls(urls, i) + {key};
        assert links + [PlainLink(urls[i])] == html + FreshLinks(html, urls, i + 1);
        MergeLinksKeepsFresh(html, urls, i + 1, links + [PlainLink(urls[i])], seen + {key});
      }
    }
  }

  /** `parse_email`. */
  function ParseEmail(data: RawEmail, anchors: seq<Anchor>): (e: ParsedEmail)
    ensures e.sender == Field(data, "from") && e.senderName == Field(data, "from_name")
    ensures e.recipient == Field(data, "to") && e.subject == Field(data, "subject")
    ensures e.bodyText == Field(data, "body_text") && e.bodyHtml == Field(data, "body_html")
    ensures e.headers == data.headers.GetOr(map[])
    ensures var html := ExtractLinks(e.bodyHtml, anchors);
            e.links == html + FreshLinks(html, PlainUrls(e.bodyText), |PlainUrls(e.bodyText)|)
  {
    var bodyHtml := Field(data, "body_html");
    var bodyText := Field(data, "body_text");
    var html := ExtractLinks(bodyHtml, anchors);
    var urls := PlainUrls(bodyText);
    var links := MergeLinks(html, HrefKeys(html), urls, 0);
    MergeLinksKeepsFresh(html, urls, 0, html, HrefKeys(html));
    ParsedEmail(
      sender := Field(data, "from"),
      senderName := Field(data, "from_name"),
      recipient := Field(data, "to"),
      subject := Field(data, "subject"),
      bodyText := bodyText,
      bodyHtml := bodyHtml,
      headers := data.headers.GetOr(map[]),
      links := links)
  }

  /** What `parse_email` promises of its link list, given the HTML links and the trimmed URLs:
      the HTML links come first, unchanged; each later link is one of the URLs, shown as itself,
      not mismatched, with no trailing punctuation; those links are unique up to case and
      distinct from every HTML href; and every URL is among the hrefs up to case. */
  predicate MergedAsParsed(html: seq<LinkInfo>, urls: seq<string>, links: seq<LinkInfo>)
    requires forall k :: 0 <= k < |urls| ==> |urls[k]| > 0
  {
    && |html| <= |links| && links[..|html|] == html
    && (forall m :: |html| <= m < |links| ==>
          && links[m].href == links[m].displayText && !links[m].isMismatched
          && links[m].href in urls
          && Lower(links[m].href) !in HrefKeys(html))
    && (forall m1, m2 :: |html| <= m1 < m2 < |links| ==> Lower(links[m1].href) != Lower(links[m2].href))
    && (forall k :: 0 <= k < |urls| ==> Lower(urls[k]) in HrefKeys(links))
  }

  lemma MergedLinksFacts(html: seq<LinkInfo>, urls: seq<string>, links: seq<LinkInfo>)
    requires forall k :: 0 <= k < |urls| ==> |urls[k]| > 0
    requires links == html + FreshLinks(html, urls, |urls|)
    ensures MergedAsParsed(html, urls, links)
  {
    var kept := FreshLinks(html, urls, |urls|);
    FreshLinksFacts(html, urls, |urls|);
    assert urls[..|urls|] == urls;
    AppendedLinks(html, kept, links);
  }

  /** The link list of a parsed email is the HTML links followed by the plain-text ones, each
      trimmed of trailing punctuation, as `MergedAsParsed` states. */
  lemma ParsedLinks(data: RawEmail, anchors: seq<Anchor>)
    ensures var e := ParseEmail(data, anchors);
      var urls := PlainUrls(e.bodyText);
      && MergedAsParsed(ExtractLinks(e.bodyHtml, anchors), urls, e.links)
      && forall m :: 0 <= m < |urls| ==> urls[m][|urls[m]| - 1] !in TrailingPunctuation
  {
    var e := ParseEmail(data, anchors);
    MergedLinksFacts(ExtractLinks(e.bodyHtml, anchors), PlainUrls(e.bodyText), e.links);
  }

  lemma AppendedLinks(html: seq<LinkInfo>, kept: seq<LinkInfo>, links: seq<LinkInfo>)
    requires links == html + kept
    ensures |html| <= |links| && links[..|html|] == html
    ensures forall m :: |html| <= m < |links| ==> links[m] == kept[m - |html|]
    ensures HrefKeys(links) == HrefKeys(html) + HrefKeys(kept)
  {
    forall x | x in HrefKeys(html) + HrefKeys(kept) ensures x in HrefKeys(links) {
      if x in HrefKeys(html) {
        var k :| 0 <= k < |html| && x == Lower(html[k].href);
        assert links[k] == html[k];
      } else {
        var k :| 0 <= k < |kept| && x == Lower(kept[k].href);
        assert links[|html| + k] == kept[k];
      }
    }
  }

  // ---------------------------------------------------------------------------
  // Links of a single anchor


  /** `http://host`, followed by nothing or by a character a host cannot contain, begins like
      a URL and has `host` as its domain. */
  lemma ExtractDomainOf(host: string, rest: string)
    requires |host| > 0 && forall k :: 0 <= k < |host| ==> HostChar(host[k])
    requires |rest| == 0 || !HostChar(rest[0])
    ensures ExtractDomain("http://" + host + rest) == Some(host)
    ensures UrlShaped("http://" + host + rest)
  {
    var s := "http://" + host + rest;
    assert s[..7] == "http://";
    MatchFromCIChars(s, "http://", 0, 0);
    assert s[4] == ':';
    MatchFromCIChars(s, "https://", 0, 0);
    assert SchemeLength(s, 0) == 7;
    forall m | 0 <= m < |host| ensures s[7 + m] == host[m] { }
    assert 7 + |host| < |s| ==> s[7 + |host|] == rest[0];
    assert RunLength(s, 7, HostChar) == |host|;
    assert s[7..7 + |host|] == host;
    assert HostAt(s, 0) == Some(host);
  }

  /** With no plain-text body, the parsed links are exactly the HTML links. */
  lemma OnlyHtmlLinks(data: RawEmail, anchors: seq<Anchor>)
    requires Field(data, "body_text") == ""
    ensures ParseEmail(data, anchors).links == ExtractLinks(Field(data, "body_html"), anchors)
  {
    assert FindUrls("") == [];
  }

  /** One anchor whose href and text have no outer whitespace gives one link with that href and
      text. */
  lemma SingleAnchor(html: string, href: string, text: string)
    requires html != ""
    requires |href| > 0 && !IsSpace(href[0]) && !IsSpace(href[|href| - 1])
    requires |text| > 0 && !IsSpace(text[0]) && !IsSpace(text[|text| - 1])
    ensures ExtractLinks(html, [Anchor(href, [text])]) == [LinkInfo(href, text, CheckLinkMismatch(href, text))]
  {
    StripUnchanged(href);
    StripUnchanged(text);
    assert AnchorText([text]) == text by {
      assert [text][..0] == [];
    }
  }

  /** Two URL-shaped texts whose hosts differ ignoring case are mismatched. */
  lemma HostsDiffer(hrefHost: string, shownHost: string)
    requires |hrefHost| > 0 && NameFrom(hrefHost, 0)
    requires |shownHost| > 0 && NameFrom(shownHost, 0)
    requires Lower(hrefHost) != Lower(shownHost)
    ensures CheckLinkMismatch("http://" + hrefHost, "http://" + shownHost)
  {
    forall k | 0 <= k < |hrefHost| ensures HostChar(hrefHost[k]) { NameAt(hrefHost, 0, k); }
    forall k | 0 <= k < |shownHost| ensures HostChar(shownHost[k]) { NameAt(shownHost, 0, k); }
    ExtractDomainOf(hrefHost, "");
    ExtractDomainOf(shownHost, "");
    assert "http://" + hrefHost + "" == "http://" + hrefHost;
    assert "http://" + shownHost + "" == "http://" + shownHost;
  }
}
