/**
 * The domain heuristic (backend/src/detection/heuristics/domain_analyzer.py): the sender's and
 * every link's registrable domain is compared with a fixed list of brands, by edit distance
 * (typosquatting), by undoing look-alike character substitutions (homographs) and by substring
 * (a brand embedded in a longer label).
 */
module DomainAnalyzer {
  import opened Options
  import opened Text
  import opened Levenshtein
  import opened Registrable
  import opened Heuristic
  import opened EmailParser

  const KnownBrands: seq<string> := [
    "paypal", "apple", "microsoft", "google", "amazon", "netflix",
    "facebook", "instagram", "whatsapp", "linkedin", "twitter",
    "dropbox", "chase", "wellsfargo", "bankofamerica", "citibank",
    "ups", "fedex", "dhl", "usps", "bank", "secure", "login"
  ]

  /** Look-alike substitutions, in the order the dictionary iterates them. */
  const HomographMap: seq<(string, string)> := [
    ("0", "o"), ("1", "l"), ("l", "i"), ("rn", "m"), ("vv", "w"), ("cl", "d"), ("nn", "m")
  ]

  // ---------------------------------------------------------------------------
  // Domains

  /** The address with everything up to its last `@` removed, and `>` and whitespace stripped
      from both ends; anything without `@` is left alone. */
  function Cleaned(address: string): string {
    if '@' in address then Strip(StripChars(AfterLast(address, '@'), ">")) else address
  }

  /** `_get_domain`: `"{domain}.{suffix}"` of the address, or nothing when it has no domain. */
  function GetDomain(address: string): (r: Option<string>)
    ensures r.Some? <==> Extract(Cleaned(address)).domain != ""
  {
    var p := Extract(Cleaned(address));
    if p.domain != "" then Some(p.domain + "." + p.suffix) else None
  }

  /** The domain `_get_domain` returns is extracted again by every check; doing so gives back the
      label and the suffix it was built from. */
  lemma GetDomainRoundTrip(address: string)
    requires GetDomain(address).Some? && TrimmedParts(Extract(Cleaned(address)))
    ensures Extract(GetDomain(address).value) == Extract(Cleaned(address))
  {
    ExtractRejoined(Cleaned(address));
  }

  /** The lower-cased registrable label every brand check compares. */
  function Label(domain: string): string {
    Lower(Extract(domain).domain)
  }

  // ---------------------------------------------------------------------------
  // Brand checks

  /** `name` is a near miss of `brand`: different, and at most two edits away. */
  predicate NearMiss(name: string, brand: string) {
    name != brand && 0 < Lev(name, brand) <= 2
  }

  /** `_check_typosquatting` on a lower-cased label: the first brand it is a near miss of. */
  function TyposquatOf(name: string): (r: Option<string>)
    ensures r.Some? ==> r.value in KnownBrands && r.value != name && 1 <= Lev(name, r.value) <= 2
    ensures r.Some? ==> exists i :: 0 <= i < |KnownBrands| && KnownBrands[i] == r.value &&
                          forall j :: 0 <= j < i ==> !NearMiss(name, KnownBrands[j])
    ensures r.None? ==> forall i :: 0 <= i < |KnownBrands| ==> !NearMiss(name, KnownBrands[i])
  {
    match FindFirst(KnownBrands, b => NearMiss(name, b))
    case Some(i) => Some(KnownBrands[i])
    case None => None
  }

  function Typosquat(domain: string): Option<string> {
    TyposquatOf(Label(domain))
  }

  /** `name` embeds `brand` without being it. */
  predicate Embeds(name: string, brand: string) {
    Contains(name, brand) && name != brand
  }

  /** `_check_brand_in_domain` on a lower-cased label: the first brand that occurs inside it
      without being all of it. */
  function BrandInName(name: string): (r: Option<string>)
    ensures r.Some? ==> r.value in KnownBrands && r.value != name
    ensures r.Some? ==> exists k: nat :: MatchAt(name, r.value, k)
    ensures r.Some? ==> exists i :: 0 <= i < |KnownBrands| && KnownBrands[i] == r.value &&
                          forall j :: 0 <= j < i ==> !Embeds(name, KnownBrands[j])
    ensures r.None? ==> forall i :: 0 <= i < |KnownBrands| ==> !Embeds(name, KnownBrands[i])
  {
    match FindFirst(KnownBrands, b => Embeds(name, b))
    case Some(i) =>
      ContainsIff(name, KnownBrands[i]);
      Some(KnownBrands[i])
    case None => None
  }

  function BrandInDomain(domain: string): Option<string> {
    BrandInName(Label(domain))
  }

  // ---------------------------------------------------------------------------
  // Homographs

  /** Python's `s.replace(pat, rep)` from position `i` on: occurrences are replaced left to
      right without overlapping. */
  function ReplaceFrom(s: string, pat: string, rep: string, i: nat): string
    requires |pat| > 0 && i <= |s|
    decreases |s| - i
  {
    if i == |s| then ""
    else if MatchAt(s, pat, i) then rep + ReplaceFrom(s, pat, rep, i + |pat|)
    else [s[i]] + ReplaceFrom(s, pat, rep, i + 1)
  }

  function Replace(s: string, pat: string, rep: string): string
    requires |pat| > 0
  {
    ReplaceFrom(s, pat, rep, 0)
  }

  /** Replacing adds no character that neither the text nor the replacement has. */
  lemma {:induction false} ReplaceFromAvoids(s: string, pat: string, rep: string, i: nat, c: char)
    requires |pat| > 0 && i <= |s|
    requires c !in s && c !in rep
    ensures c !in ReplaceFrom(s, pat, rep, i)
    decreases |s| - i
  {
    if i < |s| {
      if MatchAt(s, pat, i) {
        ReplaceFromAvoids(s, pat, rep, i + |pat|, c);
      } else {
        ReplaceFromAvoids(s, pat, rep, i + 1, c);
      }
    }
  }

  /** Replacing a single character by another leaves none of it. */
  lemma {:induction false} ReplaceFromRemoves(s: string, c: char, d: char, i: nat)
    requires c != d && i <= |s|
    ensures c !in ReplaceFrom(s, [c], [d], i)
    decreases |s| - i
  {
    if i < |s| {
      if MatchAt(s, [c], i) {
        ReplaceFromRemoves(s, c, d, i + 1);
      } else {
        MatchAtSlice(s, [c], i);
        assert s[i..i + 1] == [s[i]];
        ReplaceFromRemoves(s, c, d, i + 1);
      }
    }
  }

  /** Text where `pat` does not occur from `i` on is left unchanged. */
  lemma {:induction false} ReplaceFromAbsent(s: string, pat: string, rep: string, i: nat)
    requires |pat| > 0 && i <= |s|
    requires forall k: nat :: i <= k ==> !MatchAt(s, pat, k)
    ensures ReplaceFrom(s, pat, rep, i) == s[i..]
    decreases |s| - i
  {
    if i < |s| {
      ReplaceFromAbsent(s, pat, rep, i + 1);
      assert s[i..] == [s[i]] + s[i + 1..];
    }
  }

  lemma ReplaceAbsent(s: string, pat: string, rep: string)
    requires |pat| > 0 && !Contains(s, pat)
    ensures Replace(s, pat, rep) == s
  {
    ContainsIff(s, pat);
    ReplaceFromAbsent(s, pat, rep, 0);
  }

  predicate NonEmptyKeys(pairs: seq<(string, string)>) {
    forall k :: 0 <= k < |pairs| ==> |pairs[k].0| > 0
  }

  /** Applies the replacements one after the other. */
  function ReplaceAll(s: string, pairs: seq<(string, string)>): string
    requires NonEmptyKeys(pairs)
    decreases |pairs|
  {
    if |pairs| == 0 then s else ReplaceAll(Replace(s, pairs[0].0, pairs[0].1), pairs[1..])
  }

  lemma {:induction false} ReplaceAllAvoids(s: string, pairs: seq<(string, string)>, c: char)
    requires NonEmptyKeys(pairs)
    requires c !in s && forall k :: 0 <= k < |pairs| ==> c !in pairs[k].1
    ensures c !in ReplaceAll(s, pairs)
    decreases |pairs|
  {
    if |pairs| > 0 {
      ReplaceFromAvoids(s, pairs[0].0, pairs[0].1, 0, c);
      ReplaceAllAvoids(Replace(s, pairs[0].0, pairs[0].1), pairs[1..], c);
    }
  }

  lemma {:induction false} ReplaceAllUnchanged(s: string, pairs: seq<(string, string)>)
    requires NonEmptyKeys(pairs)
    requires forall k :: 0 <= k < |pairs| ==> !Contains(s, pairs[k].0)
    ensures ReplaceAll(s, pairs) == s
    decreases |pairs|
  {
    if |pairs| > 0 {
      ReplaceAbsent(s, pairs[0].0, pairs[0].1);
      ReplaceAllUnchanged(s, pairs[1..]);
    }
  }

  function Normalize(name: string): string {
    ReplaceAll(name, HomographMap)
  }

  /** A label with none of the look-alike patterns normalizes to itself. */
  lemma NormalizeUnchanged(name: string)
    requires forall k :: 0 <= k < |HomographMap| ==> !Contains(name, HomographMap[k].0)
    ensures Normalize(name) == name
  {
    ReplaceAllUnchanged(name, HomographMap);
  }

  /** The first replacement, then the rest. */
  lemma ReplaceAllCons(s: string, pairs: seq<(string, string)>)
    requires |pairs| > 0 && NonEmptyKeys(pairs)
    ensures NonEmptyKeys(pairs[1..])
    ensures ReplaceAll(s, pairs) == ReplaceAll(Replace(s, pairs[0].0, pairs[0].1), pairs[1..])
  {
    assert forall k :: 0 <= k < |pairs| - 1 ==> pairs[1..][k] == pairs[k + 1];
  }

  /** Normalizing leaves no `0`, no `1` and no `l`: `1` becomes `l` before every `l` becomes
      `i`. */
  lemma NormalizeDropsLookAlikes(name: string)
    ensures '0' !in Normalize(name) && '1' !in Normalize(name) && 'l' !in Normalize(name)
  {
    var m0 := HomographMap;
    assert NonEmptyKeys(m0);
    var m1, s1 := m0[1..], Replace(name, "0", "o");
    ReplaceAllCons(name, m0);
    var m2, s2 := m1[1..], Replace(s1, "1", "l");
    ReplaceAllCons(s1, m1);
    var m3, s3 := m2[1..], Replace(s2, "l", "i");
    ReplaceAllCons(s2, m2);
    assert '0' !in s3 && '1' !in s3 && 'l' !in s3 by {
      ReplaceFromRemoves(name, '0', 'o', 0);
      ReplaceFromAvoids(s1, "1", "l", 0, '0');
      ReplaceFromAvoids(s2, "l", "i", 0, '0');
      ReplaceFromRemoves(s1, '1', 'l', 0);
      ReplaceFromAvoids(s2, "l", "i", 0, '1');
      ReplaceFromRemoves(s2, 'l', 'i', 0);
    }
    assert NonEmptyKeys(m3) && forall k :: 0 <= k < |m3| ==> '0' !in m3[k].1 && '1' !in m3[k].1 && 'l' !in m3[k].1 by {
      assert m3 == [("rn", "m"), ("vv", "w"), ("cl", "d"), ("nn", "m")];
    }
    ReplaceAllAvoids(s3, m3, '0');
    ReplaceAllAvoids(s3, m3, '1');
    ReplaceAllAvoids(s3, m3, 'l');
  }

  /** `_check_homograph` on a lower-cased label: the brand it spells once its look-alikes are
      undone, provided undoing them changed something. */
  function HomographOf(name: string): (r: Option<string>)
    ensures r.Some? <==> Normalize(name) != name && exists i :: 0 <= i < |KnownBrands| && KnownBrands[i] == Normalize(name)
    ensures r.Some? ==> r.value == Normalize(name)
  {
    var normalized := Normalize(name);
    if normalized != name then
      match FindFirst(KnownBrands, b => normalized == b)
      case Some(i) => Some(KnownBrands[i])
      case None => None
    else None
  }

  function Homograph(domain: string): Option<string> {
    HomographOf(Label(domain))
  }

  /** A brand spelled with `l` is never reported as a homograph, whatever the label: `paypal`,
      `google` and the other brands with an `l` cannot be matched. */
  lemma HomographNeverL(name: string)
    ensures HomographOf(name).Some? ==> 'l' !in HomographOf(name).value
  {
    NormalizeDropsLookAlikes(name);
  }

  // ---------------------------------------------------------------------------
  // The heuristic

  /** The sender checks, given what the typosquatting and homograph checks found. */
  function SenderFindings(sd: string, typo: Option<string>, homograph: Option<string>): (fs: seq<Finding>)
    ensures FloorsPositive(fs)
    ensures |fs| == Flag(typo.Some?) + Flag(homograph.Some?)
    ensures typo.Some? ==> fs[0] == Finding("Typosquatting: " + sd + " resembles " + typo.value, 0.85)
    ensures homograph.Some? ==>
      fs[|fs| - 1] == Finding("Homograph attack: " + sd + " uses look-alike characters for " + homograph.value, 0.9)
    ensures RunningMax(fs) == if homograph.Some? then 0.9 else if typo.Some? then 0.85 else 0.0
  {
    var t := When(typo, 0.85, b => "Typosquatting: " + sd + " resembles " + b);
    var h := When(homograph, 0.9, b => "Homograph attack: " + sd + " uses look-alike characters for " + b);
    RunningMaxAppend(t, h);
    t + h
  }

  /** The checks on one link's domain, given what the typosquatting and brand checks found. */
  function LinkDomainFindings(ld: string, typo: Option<string>, brand: Option<string>): (fs: seq<Finding>)
    ensures FloorsPositive(fs)
    ensures |fs| == Flag(typo.Some?) + Flag(brand.Some?)
    ensures typo.Some? ==> fs[0] == Finding("Typosquatting in link: " + ld + " resembles " + typo.value, 0.85)
    ensures brand.Some? ==>
      fs[|fs| - 1] == Finding("Brand name \"" + brand.value + "\" embedded in link domain: " + ld, 0.6)
    ensures RunningMax(fs) == if typo.Some? then 0.85 else if brand.Some? then 0.6 else 0.0
  {
    var t := When(typo, 0.85, b => "Typosquatting in link: " + ld + " resembles " + b);
    var e := When(brand, 0.6, b => "Brand name \"" + b + "\" embedded in link domain: " + ld);
    RunningMaxAppend(t, e);
    t + e
  }

  /** What one link contributes: nothing when its href has no domain. */
  function LinkCheck(link: LinkInfo): (fs: seq<Finding>)
    ensures FloorsPositive(fs)
    ensures GetDomain(link.href).None? ==> fs == []
    ensures GetDomain(link.href).Some? ==> var ld := GetDomain(link.href).value;
      fs == LinkDomainFindings(ld, Typosquat(ld), BrandInDomain(ld))
    ensures RunningMax(fs) ==
      if LinkTypo(link) then 0.85 else if LinkBrand(link) then 0.6 else 0.0
  {
    match GetDomain(link.href)
    case Some(ld) => LinkDomainFindings(ld, Typosquat(ld), BrandInDomain(ld))
    case None => []
  }

  function LinkFindings(links: seq<LinkInfo>): seq<Finding> {
    Collect(links, LinkCheck)
  }

  function SenderBrandFindings(sd: string, brand: Option<string>): (fs: seq<Finding>)
    ensures FloorsPositive(fs)
    ensures |fs| == Flag(brand.Some?)
    ensures brand.Some? ==> fs[0] == Finding("Brand name \"" + brand.value + "\" embedded in sender domain: " + sd, 0.6)
    ensures RunningMax(fs) == if brand.Some? then 0.6 else 0.0
  {
    When(brand, 0.6, b => "Brand name \"" + b + "\" embedded in sender domain: " + sd)
  }

  function Findings(email: ParsedEmail): seq<Finding> {
    match GetDomain(email.sender)
    case Some(sd) =>
      SenderFindings(sd, Typosquat(sd), Homograph(sd)) + LinkFindings(email.links)
      + SenderBrandFindings(sd, BrandInDomain(sd))
    case None => LinkFindings(email.links)
  }

  /** `DomainAnalyzer.analyze`: the sender's typosquatting and homograph indicators, then every
      link's, link by link, then the sender's brand indicator. */
  function Analyze(email: ParsedEmail): (r: HeuristicResult)
    ensures r.name == "domain_analysis"
    ensures r.score == 0.0 <==> |r.indicators| == 0
    ensures r.score in {0.0, 0.6, 0.85, 0.9}
    ensures GetDomain(email.sender).None? ==> r.indicators == Indicators(LinkFindings(email.links))
    ensures GetDomain(email.sender).Some? ==>
      var sd := GetDomain(email.sender).value;
      r.indicators == Indicators(SenderFindings(sd, Typosquat(sd), Homograph(sd)))
                      + Indicators(LinkFindings(email.links))
                      + Indicators(SenderBrandFindings(sd, BrandInDomain(sd)))
  {
    var fs := Findings(email);
    FindingsIndicators(email);
    FindingsPositive(email);
    FindingsScore(email);
    ScoreZeroIffNoIndicators("domain_analysis", fs);
    Report("domain_analysis", fs)
  }

  /** The texts of the findings, part by part. */
  lemma FindingsIndicators(email: ParsedEmail)
    ensures GetDomain(email.sender).Some? ==>
      var sd := GetDomain(email.sender).value;
      Indicators(Findings(email)) == Indicators(SenderFindings(sd, Typosquat(sd), Homograph(sd)))
                                     + Indicators(LinkFindings(email.links))
                                     + Indicators(SenderBrandFindings(sd, BrandInDomain(sd)))
  {
    if GetDomain(email.sender).Some? {
      var sd := GetDomain(email.sender).value;
      var s, l := SenderFindings(sd, Typosquat(sd), Homograph(sd)), LinkFindings(email.links);
      IndicatorsAppend(s, l);
      IndicatorsAppend(s + l, SenderBrandFindings(sd, BrandInDomain(sd)));
    }
  }

  /** Every link's findings form one block, after those of the links before it and before those
      of the links after it. */
  lemma LinkFindingsInOrder(links: seq<LinkInfo>, i: nat)
    requires i < |links|
    ensures LinkFindings(links) == LinkFindings(links[..i]) + LinkCheck(links[i]) + LinkFindings(links[i + 1..])
  {
    CollectSplit(links, LinkCheck, i);
  }

  // ---------------------------------------------------------------------------
  // What the score means

  predicate LinkTypo(link: LinkInfo) {
    GetDomain(link.href).Some? && Typosquat(GetDomain(link.href).value).Some?
  }

  predicate LinkBrand(link: LinkInfo) {
    GetDomain(link.href).Some? && BrandInDomain(GetDomain(link.href).value).Some?
  }

  predicate SenderHomograph(email: ParsedEmail) {
    GetDomain(email.sender).Some? && Homograph(GetDomain(email.sender).value).Some?
  }

  predicate AnyTyposquat(email: ParsedEmail) {
    (GetDomain(email.sender).Some? && Typosquat(GetDomain(email.sender).value).Some?)
    || Any(email.links, LinkTypo)
  }

  predicate AnyBrand(email: ParsedEmail) {
    (GetDomain(email.sender).Some? && BrandInDomain(GetDomain(email.sender).value).Some?)
    || Any(email.links, LinkBrand)
  }

  function LinkScore(links: seq<LinkInfo>): real {
    if Any(links, LinkTypo) then 0.85
    else if Any(links, LinkBrand) then 0.6
    else 0.0
  }

  lemma LinkFindingsScore(links: seq<LinkInfo>)
    ensures RunningMax(LinkFindings(links)) == LinkScore(links)
    ensures FloorsPositive(LinkFindings(links))
  {
    CollectScore(links, LinkCheck, LinkTypo, LinkBrand, 0.85, 0.6);
  }

  lemma FindingsPositive(email: ParsedEmail)
    ensures FloorsPositive(Findings(email))
  {
    LinkFindingsScore(email.links);
    if GetDomain(email.sender).Some? {
      var sd := GetDomain(email.sender).value;
      var sender := SenderFindings(sd, Typosquat(sd), Homograph(sd));
      FloorsPositiveAppend(sender, LinkFindings(email.links));
      FloorsPositiveAppend(sender + LinkFindings(email.links), SenderBrandFindings(sd, BrandInDomain(sd)));
    }
  }

  /** The score of the domain findings, ranked as in `AnalyzeScore`. */
  function DomainScore(email: ParsedEmail): real {
    if SenderHomograph(email) then 0.9
    else if AnyTyposquat(email) then 0.85
    else if AnyBrand(email) then 0.6
    else 0.0
  }

  /** The larger of the sender, link and sender-brand scores follows the ranking. */
  lemma Ranked(homograph: bool, senderTypo: bool, linkTypo: bool, senderBrand: bool, linkBrand: bool)
    ensures Max(Max(if homograph then 0.9 else if senderTypo then 0.85 else 0.0,
                    if linkTypo then 0.85 else if linkBrand then 0.6 else 0.0),
                if senderBrand then 0.6 else 0.0)
         == if homograph then 0.9 else if senderTypo || linkTypo then 0.85
            else if senderBrand || linkBrand then 0.6 else 0.0
  {
  }

  lemma FindingsScore(email: ParsedEmail)
    ensures RunningMax(Findings(email)) == DomainScore(email)
  {
    if GetDomain(email.sender).Some? {
      SenderFindingsScore(email, GetDomain(email.sender).value);
    } else {
      NoSenderFindingsScore(email);
    }
  }

  /** Without a sender domain only the link checks count. */
  lemma NoSenderFindingsScore(email: ParsedEmail)
    requires GetDomain(email.sender).None?
    ensures RunningMax(Findings(email)) == DomainScore(email)
  {
    assert RunningMax(LinkFindings(email.links)) == LinkScore(email.links) by {
      LinkFindingsScore(email.links);
    }
    assert RunningMax(Findings(email)) == RunningMax(LinkFindings(email.links)) by {
      assert Findings(email) == LinkFindings(email.links);
    }
    assert DomainScore(email) == LinkScore(email.links) by {
      assert !SenderHomograph(email);
      assert AnyTyposquat(email) == Any(email.links, LinkTypo);
      assert AnyBrand(email) == Any(email.links, LinkBrand);
    }
  }

  /** With a sender domain, the sender checks come first and the sender brand check last. */
  lemma SenderFindingsScore(email: ParsedEmail, sd: string)
    requires GetDomain(email.sender) == Some(sd)
    ensures RunningMax(Findings(email)) == DomainScore(email)
  {
    var links := LinkFindings(email.links);
    var sender := SenderFindings(sd, Typosquat(sd), Homograph(sd));
    var brand := SenderBrandFindings(sd, BrandInDomain(sd));
    assert RunningMax(Findings(email)) == Max(Max(RunningMax(sender), RunningMax(links)), RunningMax(brand)) by {
      assert Findings(email) == sender + links + brand;
      ThreeParts(sender, links, brand);
    }
    assert RunningMax(links) == LinkScore(email.links) by {
      LinkFindingsScore(email.links);
    }
    Ranked(Homograph(sd).Some?, Typosquat(sd).Some?, Any(email.links, LinkTypo),
           BrandInDomain(sd).Some?, Any(email.links, LinkBrand));
  }

  lemma ThreeParts(a: seq<Finding>, b: seq<Finding>, c: seq<Finding>)
    ensures RunningMax(a + b + c) == Max(Max(RunningMax(a), RunningMax(b)), RunningMax(c))
  {
    RunningMaxAppend(a, b);
    RunningMaxAppend(a + b, c);
  }

  /** The score is the floor of the most serious check that fired: a sender homograph, then any
      typosquat, then any embedded brand. */
  lemma AnalyzeScore(email: ParsedEmail)
    ensures Analyze(email).score == DomainScore(email)
  {
    FindingsScore(email);
  }

  // ---------------------------------------------------------------------------
  // Plain sender addresses

  /** `local@name.suffix`, with `name` and `suffix` in lower-case host-name characters without a
      dot, has `name.suffix` as its domain, and `name` is the label the brand checks compare. */
  lemma SenderDomainOf(local: string, name: string, suffix: string)
    requires |name| > 0 && NameFrom(name, 0) && '.' !in name
    requires |suffix| > 0 && NameFrom(suffix, 0) && '.' !in suffix
    ensures GetDomain(local + "@" + (name + "." + suffix)) == Some(name + "." + suffix)
    ensures Label(name + "." + suffix) == name
  {
    CleanedOf(local, name, suffix);
    ExtractOfName(name, suffix);
    LowerOfName(name);
  }

  lemma ExtractOfName(name: string, suffix: string)
    requires |name| > 0 && NameFrom(name, 0) && '.' !in name
    requires |suffix| > 0 && NameFrom(suffix, 0) && '.' !in suffix
    ensures Extract(name + "." + suffix) == Registrable.Parts(name, suffix)
  {
    forall k | 0 <= k < |name| ensures !Separator(name[k]) { NameAt(name, 0, k); }
    forall k | 0 <= k < |suffix| ensures !Separator(suffix[k]) { NameAt(suffix, 0, k); }
    NameAt(name, 0, 0);
    NameAt(suffix, 0, |suffix| - 1);
    ExtractJoined(name, suffix);
  }

  lemma CleanedOf(local: string, name: string, suffix: string)
    requires |name| > 0 && NameFrom(name, 0)
    requires |suffix| > 0 && NameFrom(suffix, 0)
    ensures Cleaned(local + "@" + (name + "." + suffix)) == name + "." + suffix
  {
    var b := name + "." + suffix;
    JoinedNoAt(name, suffix);
    AfterAt(local, b);
    JoinedEnds(name, suffix);
    TrimmedName(b);
  }

  lemma JoinedNoAt(name: string, suffix: string)
    requires NameFrom(name, 0) && NameFrom(suffix, 0)
    ensures '@' !in name + "." + suffix
  {
    forall k | 0 <= k < |name| ensures name[k] != '@' { NameAt(name, 0, k); }
    forall k | 0 <= k < |suffix| ensures suffix[k] != '@' { NameAt(suffix, 0, k); }
    assert '@' !in name && '@' !in suffix;
  }

  lemma AfterAt(local: string, b: string)
    requires '@' !in b
    ensures '@' in local + "@" + b
    ensures AfterLast(local + "@" + b, '@') == b
  {
    assert (local + "@" + b)[|local|] == '@';
    AfterLastSplit(local, '@', b);
    assert local + "@" + b == local + ['@'] + b;
  }

  lemma JoinedEnds(name: string, suffix: string)
    requires |name| > 0 && NameFrom(name, 0)
    requires |suffix| > 0 && NameFrom(suffix, 0)
    ensures IsNameChar((name + "." + suffix)[0])
    ensures IsNameChar((name + "." + suffix)[|name| + |suffix|])
  {
    NameAt(name, 0, 0);
    NameAt(suffix, 0, |suffix| - 1);
  }

  lemma TrimmedName(b: string)
    requires |b| > 0 && IsNameChar(b[0]) && IsNameChar(b[|b| - 1])
    ensures Strip(StripChars(b, ">")) == b
  {
    NameCharPlain(b[0]);
    NameCharPlain(b[|b| - 1]);
    StripCharsUnchanged(b, ">");
    StripUnchanged(b);
  }
}
