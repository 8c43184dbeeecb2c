# Phishing detection engine: a Dafny model

This project models the detection core of a phishing-email analysis service. The Dafny files
model these parts of it:

- **Parsing.** A raw email dictionary becomes a `ParsedEmail`. HTML anchors become links, with
  a check of each anchor's displayed URL against its href. Plain-text URLs that were not already
  found in the HTML are added to the links.
- **Heuristics.** Four heuristics each turn the parsed email into a `HeuristicResult`: a name, a
  score and a list of indicator texts.
  - *link analysis*: URL shorteners, href/display mismatches, IP-address URLs, suspicious
    top-level domains, suspicious keywords, and an IP-address URL anywhere in the body.
  - *domain analysis*: typosquatting by Levenshtein distance against known brands, look-alike
    (homograph) characters, and brand names embedded in a domain.
  - *language analysis*: sixteen urgency phrases and five threat phrases, searched as regular
    expressions.
  - *sender analysis*: free-mail senders using a brand in their display name, display names
    that contain an email address, and Reply-To domains that differ from the sender's.
- **Features.** The classifier's input text and the structural features of an email.
- **The verdict.** The four scores and an optional classifier probability become one final
  score. That score is classified as Phishing (at least 0.7), Suspicious (at least 0.4) or
  Safe, and then summarised and rounded to two decimals.

The link, domain and sender heuristics are written the way the source writes them: a list of
findings, each an indicator text with a score floor, and a score that is the running maximum
of those floors. The language heuristic instead scores the numbers of urgency and threat
matches (`LanguageAnalyzer.Score`). Each
heuristic has a lemma that gives its score in closed form:
`DomainAnalyzer.AnalyzeScore`, `LinkAnalyzer.AnalyzeScore`, `LanguageAnalyzer.AnalyzeScore`
and `SenderAnalyzer.AnalyzeScore`. Each lemma names the strongest condition that holds, for
example "a sender homograph gives 0.9, else any typosquat gives 0.85, …".

Points where the code's behaviour may surprise:

- **Averaging.** The final score averages all four heuristic scores, zeros included. It does
  not average only the heuristics that fired. Without a classifier the weights are 0.5 for the
  maximum and 0.5 for the mean, so one heuristic on its own contributes 5/8 of its score
  (`Analyzer.LoneScore`). Two heuristics can therefore never reach "Phishing" without the
  classifier (`Analyzer.TwoScoresBelowPhishing`).
- **Homograph check.** The look-alike table is applied pair by pair, and `1 → l` is followed
  by `l → i`. As a result the check can never report a brand that contains an `l`
  (`DomainAnalyzer.HomographNeverL`). For example, `g00gle` is caught by the typosquatting
  check instead (`Scenarios.TyposquatG00gle`).
- **Rounding.** Classification uses the unrounded score, so a reported 0.7 can be labelled
  "Suspicious" (`Analyzer.RoundedScoreMayLookPhishing`, `Scenarios.ConfidentClassifier`).

Modules, one per source file plus shared pieces:

| module | contents |
|---|---|
| `Options` | the `Option` datatype |
| `Text` | characters, case, substrings and trimming |
| `Registrable` | a simplified `tldextract` |
| `Levenshtein` | edit distance and a row-by-row algorithm proved equal to it |
| `Pattern` | the regular-expression fragment the phrase lists use, with Python's backtracking order |
| `Heuristic` | `HeuristicResult` and the running-maximum fold |
| `EmailParser` | the email parser |
| `LinkAnalyzer`, `DomainAnalyzer`, `LanguageAnalyzer`, `SenderAnalyzer` | the four heuristics |
| `Preprocessor` | feature extraction |
| `Analyzer` | the verdict |
| `Scenarios` | worked examples on concrete inputs |
| `ParserCases`, `DomainCases`, `LanguageCases`, `SenderCases` | the inputs of the parser and heuristic tests, with the outcomes the model gives them |

## Model

| member | source | states |
|---|---|---|
| EmailParser.Field | backend/src/parser/email_parser.py:62-69 | A missing key of the email dictionary reads as the empty string; a present key reads as its value. |
| EmailParser.SchemeLength | backend/src/parser/email_parser.py:29 | The case-insensitive `https?://` prefix at a position is 8 characters exactly when `https://` is there, and 7 characters only when `http://` is. |
| EmailParser.UrlMatchLength | backend/src/parser/email_parser.py:29 | A URL match at a position stays inside the text, starts with a scheme and has at least one character after the scheme. |
| EmailParser.FindUrls | backend/src/parser/email_parser.py:44 | Every URL found in the plain text is longer than its `http://` prefix and starts with `h` or `H`. |
| EmailParser.TrimUrlKeepsScheme | backend/src/parser/email_parser.py:45 | Stripping trailing `.,;:!?)` from a URL leaves it non-empty and ending in a character outside that set. |
| EmailParser.PlainUrls | backend/src/parser/email_parser.py:44-45 | Every plain-text URL, after trailing punctuation is stripped, is non-empty and does not end in punctuation. |
| EmailParser.HostAt | backend/src/parser/email_parser.py:108 | The host captured after a scheme is non-empty and contains no `/`, `:` or whitespace. |
| EmailParser.FirstHost | backend/src/parser/email_parser.py:108-109 | The host reported comes from the leftmost position with a match, and none is reported when no position matches. |
| EmailParser.ExtractDomain | backend/src/parser/email_parser.py:106-109 | `_extract_domain` returns the host of the first `https?://` in the text, and nothing exactly when there is none. |
| EmailParser.CheckLinkMismatch | backend/src/parser/email_parser.py:91-103 | A link is mismatched exactly when its display text starts with a URL and both texts have a host that differ ignoring case; display text that does not start with a URL never gives a mismatch. |
| EmailParser.ExtractLinks | backend/src/parser/email_parser.py:74-88 | Empty HTML gives no links. Otherwise there is one link per anchor, in order, with the stripped href, the joined stripped display text, and a mismatch flag that is `CheckLinkMismatch` of that href and text. A non-URL display is never mismatched. |
| EmailParser.FreshLinksGrow | backend/src/parser/email_parser.py:44-48 | Each further plain-text URL either appends exactly one link (its own, when its lower-cased form is new) or changes nothing. |
| EmailParser.FreshLinksKept | backend/src/parser/email_parser.py:46-47 | Every added link is a plain-text URL used as its own display text, is not mismatched, and its lower-cased href is not among the HTML hrefs. |
| EmailParser.FreshLinksUnique | backend/src/parser/email_parser.py:46-48 | No two added links share an href up to case. |
| EmailParser.FreshLinksCovered | backend/src/parser/email_parser.py:41-48 | Every plain-text URL is, up to case, an HTML href or an added link. |
| EmailParser.MergeLinks | backend/src/parser/email_parser.py:44-48 | The loop over plain-text URLs with its seen set; `EmailParser.MergeLinksKeepsFresh` shows it appends exactly the fresh links. |
| EmailParser.MergeLinksKeepsFresh | backend/src/parser/email_parser.py:40-48 | The loop that keeps a set of seen hrefs yields exactly the HTML links followed by the added links. |
| EmailParser.ParseEmail | backend/src/parser/email_parser.py:32-71 | Each field of the parsed email is the matching dictionary entry, or empty when absent; headers default to the empty map; the links are the HTML links followed by the new plain-text links. |
| EmailParser.ParsedLinks | backend/src/parser/email_parser.py:40-48 | The parsed links start with the HTML links; the rest are unique, unmismatched plain-text URLs not already in the HTML; every plain-text URL is covered. |
| EmailParser.AppendedLinks | backend/src/parser/email_parser.py:47 | Appending links keeps the earlier links as a prefix and adds their hrefs to the seen set. |
| EmailParser.ExtractDomainOf | backend/src/parser/email_parser.py:106-109 | For `http://host` followed by nothing or by a character no host contains, the text starts with a URL and its domain is exactly `host`. |
| EmailParser.OnlyHtmlLinks | backend/src/parser/email_parser.py:40-48 | With an empty plain-text body, the parsed links are exactly the HTML links. |
| EmailParser.SingleAnchor | backend/src/parser/email_parser.py:74-88 | A single anchor whose href and text have no surrounding white space gives exactly one link, carrying that href and that text, flagged as the mismatch check decides. |
| EmailParser.HostsDiffer | backend/src/parser/email_parser.py:91-103 | Two `http://` URLs whose lower-case host names differ are a mismatch. |
| Heuristic.RunningMaxBounds | backend/src/detection/heuristics/base.py:7-11 | The score of a list of findings is at least every floor, and is either 0 or one of the floors. |
| Heuristic.ScoreZeroIffNoIndicators | backend/src/detection/heuristics/base.py:7-11 | When every floor is positive, a result scores 0 exactly when it reports no indicators. |
| Heuristic.RunningMaxAppend | backend/src/detection/heuristics/link_analyzer.py:63-67 | The score of two lists of findings is the larger of their scores, as `score = max(score, …)` accumulates. |
| Heuristic.CollectScore | backend/src/detection/heuristics/domain_analyzer.py:41-56 | Checking every item of a list scores `high` if any item is high, else `low` if any is low, else 0. |
| Heuristic.CollectPeak | backend/src/detection/heuristics/link_analyzer.py:29-61 | Checking every item of a list scores the highest per-item score. |
| Levenshtein.Lev | backend/src/detection/heuristics/domain_analyzer.py:117-123 | The distance to an empty string is the other string's length. |
| Levenshtein.LevSymmetric | backend/src/detection/heuristics/domain_analyzer.py:119-120 | The distance does not depend on argument order, so swapping the arguments when the first is shorter changes nothing. |
| Levenshtein.LevZeroIff | backend/src/detection/heuristics/domain_analyzer.py:87-88 | The distance is 0 exactly when the strings are equal. |
| Levenshtein.LevAtMostLonger | backend/src/detection/heuristics/domain_analyzer.py:117-135 | The distance is at most the longer length. |
| Levenshtein.LevAtLeastGap | backend/src/detection/heuristics/domain_analyzer.py:117-135 | The distance is at least the difference of the lengths. |
| Levenshtein.LevAtMostMismatches | backend/src/detection/heuristics/domain_analyzer.py:117-135 | For equal lengths, the distance is at most the number of positions that differ. |
| Levenshtein.LevAtLeastAbsent | backend/src/detection/heuristics/domain_analyzer.py:117-135 | The distance is at least the number of characters of either string that never occur in the other. |
| Levenshtein.LevenshteinRows | backend/src/detection/heuristics/domain_analyzer.py:117-135 | The two-row algorithm, with its swap and empty-string cases, returns the edit distance. |
| Levenshtein.Rows | backend/src/detection/heuristics/domain_analyzer.py:124-135 | The row loop for a first string at least as long as the second returns the edit distance. |
| Levenshtein.Table | backend/src/detection/heuristics/domain_analyzer.py:119-122 | Whatever the argument lengths, the returned value is the edit distance. |
| Levenshtein.FirstRow | backend/src/detection/heuristics/domain_analyzer.py:124 | `range(len(s2) + 1)` holds the distances from the empty prefix of `s1`. |
| Levenshtein.NextRow | backend/src/detection/heuristics/domain_analyzer.py:125-134 | From the row for the first `i` characters, one pass of the inner loop computes the row for `i + 1`. |
| Registrable.SplitHost | backend/src/detection/heuristics/domain_analyzer.py:74-76 | The label and suffix split off a host contain no dot. |
| Registrable.ExtractNoSeparator | backend/src/detection/heuristics/domain_analyzer.py:74-76 | Neither extracted part contains a dot, slash, `?`, `#`, `@` or `:`. |
| Registrable.ExtractJoined | backend/src/detection/heuristics/domain_analyzer.py:76 | Extracting from `"{domain}.{suffix}"` gives back that domain and suffix. |
| Registrable.ExtractRejoined | backend/src/detection/heuristics/domain_analyzer.py:74-76 | Extracting again from the rejoined result of an extraction repeats it. |
| Registrable.HostIsHostChars | backend/src/detection/heuristics/domain_analyzer.py:74 | The host found in any address has no `/`, `?`, `#`, `@` or `:`. |
| DomainAnalyzer.GetDomain | backend/src/detection/heuristics/domain_analyzer.py:69-77 | `_get_domain` returns something exactly when the cleaned address has a registrable label. |
| DomainAnalyzer.GetDomainRoundTrip | backend/src/detection/heuristics/domain_analyzer.py:69-77 | Extracting from what `_get_domain` returns gives the same label and suffix as the address it came from. |
| DomainAnalyzer.TyposquatOf | backend/src/detection/heuristics/domain_analyzer.py:79-90 | A reported brand is a known brand other than the name, one or two edits away, with no earlier brand that close; nothing is reported when no brand is that close. |
| DomainAnalyzer.BrandInName | backend/src/detection/heuristics/domain_analyzer.py:92-100 | A reported brand occurs inside the name and differs from it, and no earlier brand does so; nothing is reported when no brand qualifies. |
| DomainAnalyzer.ReplaceAbsent | backend/src/detection/heuristics/domain_analyzer.py:109 | `str.replace` of a pattern that does not occur leaves the string unchanged. |
| DomainAnalyzer.ReplaceAllAvoids | backend/src/detection/heuristics/domain_analyzer.py:108-109 | A character that neither the name nor any replacement contains is absent after all replacements. |
| DomainAnalyzer.Normalize | backend/src/detection/heuristics/domain_analyzer.py:107-109 | The look-alike replacements applied pair by pair; `DomainAnalyzer.NormalizeUnchanged` and `DomainAnalyzer.NormalizeDropsLookAlikes` state what it keeps and what it removes. |
| DomainAnalyzer.NormalizeUnchanged | backend/src/detection/heuristics/domain_analyzer.py:107-109 | A name with none of the look-alike patterns normalises to itself. |
| DomainAnalyzer.NormalizeDropsLookAlikes | backend/src/detection/heuristics/domain_analyzer.py:16-19 | After normalisation no `0`, `1` or `l` is left. |
| DomainAnalyzer.HomographOf | backend/src/detection/heuristics/domain_analyzer.py:102-115 | A brand is reported exactly when normalisation changed the name and produced a known brand, and the brand reported is the normalised name. |
| DomainAnalyzer.HomographNeverL | backend/src/detection/heuristics/domain_analyzer.py:16-19 | No brand containing `l` is ever reported as a homograph. |
| DomainAnalyzer.SenderFindings | backend/src/detection/heuristics/domain_analyzer.py:28-38 | The typosquat indicator, naming the brand, comes first and the homograph indicator last, each present exactly when its check finds a brand. The sender checks score 0.9 for a homograph, else 0.85 for a typosquat, else 0. |
| DomainAnalyzer.LinkDomainFindings | backend/src/detection/heuristics/domain_analyzer.py:46-56 | The link typosquat indicator comes first and the embedded-brand indicator last, each present exactly when its check finds a brand. A link domain scores 0.85 for a typosquat, else 0.6 for an embedded brand, else 0. |
| DomainAnalyzer.LinkCheck | backend/src/detection/heuristics/domain_analyzer.py:41-56 | A link whose href has no domain adds nothing. Otherwise the link gets the checks of its domain, and scores 0.85 when that domain is a typosquat, else 0.6 when it embeds a brand, else 0. |
| DomainAnalyzer.SenderBrandFindings | backend/src/detection/heuristics/domain_analyzer.py:59-65 | One indicator, naming the brand, exactly when the sender domain embeds one; it scores 0.6. |
| DomainAnalyzer.LinkFindingsInOrder | backend/src/detection/heuristics/domain_analyzer.py:41-56 | Each link's findings form one block, after those of the links before it and before those of the links after it. |
| DomainAnalyzer.LinkFindingsScore | backend/src/detection/heuristics/domain_analyzer.py:41-56 | All links together score 0.85 if any link domain is a typosquat, else 0.6 if any embeds a brand, else 0. |
| DomainAnalyzer.FindingsScore | backend/src/detection/heuristics/domain_analyzer.py:23-67 | The running maximum over the findings equals the ranking: sender homograph 0.9, any typosquat 0.85, any embedded brand 0.6, else 0. |
| DomainAnalyzer.SenderFindingsScore | backend/src/detection/heuristics/domain_analyzer.py:28-65 | With a sender domain, the sender, link and sender-brand findings together score by that ranking. |
| DomainAnalyzer.NoSenderFindingsScore | backend/src/detection/heuristics/domain_analyzer.py:41-56 | Without a sender domain only the links count, and they score by that ranking. |
| DomainAnalyzer.Analyze | backend/src/detection/heuristics/domain_analyzer.py:23-67 | The result is named `domain_analysis`, scores one of 0, 0.6, 0.85 and 0.9, and scores 0 exactly when it reports nothing. Its indicators are the sender's typosquat and homograph ones, then the links' in link order, then the sender's brand one; without a sender domain, only the links'. |
| DomainAnalyzer.AnalyzeScore | backend/src/detection/heuristics/domain_analyzer.py:23-67 | The domain score is given by the ranking, independently of the order the checks run in. |
| DomainAnalyzer.CleanedOf | backend/src/detection/heuristics/domain_analyzer.py:72-73 | The text after the last `@` of an address, when it begins and ends with a host-name character, is kept whole by both strips. |
| DomainAnalyzer.ExtractOfName | backend/src/detection/heuristics/domain_analyzer.py:74-76 | `name.suffix` with no dot in either part extracts to that label and suffix. |
| DomainAnalyzer.SenderDomainOf | backend/src/detection/heuristics/domain_analyzer.py:69-77 | For `local@name.suffix` in lower-case host-name characters, `_get_domain` returns `name.suffix`, and the brand checks compare `name`. |
| Pattern.Ends | backend/src/detection/heuristics/language_analyzer.py:33-34 | Every end position a pattern can reach from a start lies between that start and the end of the text. |
| Pattern.StarSingle | backend/src/detection/heuristics/language_analyzer.py:43 | A starred character class tries the longest run first and then each shorter one, as a greedy `\s*` backtracks. |
| Pattern.CatThrough | backend/src/detection/heuristics/language_analyzer.py:7-30 | If the first part can end where the second part can start, the concatenation matches through both. |
| Pattern.AltEither | backend/src/detection/heuristics/language_analyzer.py:10-30 | An alternation matches wherever either alternative matches. |
| Pattern.OptTaken | backend/src/detection/heuristics/language_analyzer.py:10-30 | An optional group matches wherever its body matches. |
| Pattern.PlusOne | backend/src/detection/heuristics/language_analyzer.py:7-30 | `\s+` or `\d+` matches a single qualifying character. |
| Pattern.WordMatch | backend/src/detection/heuristics/language_analyzer.py:33-34 | A literal word matches its text ignoring case. |
| Pattern.SearchFrom | backend/src/detection/heuristics/language_analyzer.py:47 | The match found starts at the leftmost position where the pattern matches and ends at the first end in backtracking order; nothing is found only when no position matches. |
| Pattern.Search | backend/src/detection/heuristics/language_analyzer.py:47-49 | `pattern.search` succeeds exactly when some position matches, and the matched text occurs in the searched text. |
| Pattern.SearchFinds | backend/src/detection/heuristics/language_analyzer.py:47 | Any position where the pattern matches makes the search succeed. |
| LanguageAnalyzer.UrgencyPhrases | backend/src/detection/heuristics/language_analyzer.py:6-23 | There are sixteen urgency phrases. |
| LanguageAnalyzer.ThreatPhrases | backend/src/detection/heuristics/language_analyzer.py:25-31 | There are five threat phrases. |
| LanguageAnalyzer.Searches | backend/src/detection/heuristics/language_analyzer.py:46-47 | Each phrase's outcome is its search in the text, phrase by phrase. |
| LanguageAnalyzer.Matched | backend/src/detection/heuristics/language_analyzer.py:46-58 | Every reported match is text that occurs in the searched text, with at most one match per phrase. |
| LanguageAnalyzer.FoundCount | backend/src/detection/heuristics/language_analyzer.py:48-50 | The number of reported matches is the number of searches that succeeded. |
| LanguageAnalyzer.MatchedCount | backend/src/detection/heuristics/language_analyzer.py:45-58 | The counter equals the number of distinct phrases that occur in the text. |
| LanguageAnalyzer.Quoted | backend/src/detection/heuristics/language_analyzer.py:49 | Each indicator is the prefix followed by the matched text in double quotes. |
| LanguageAnalyzer.Score | backend/src/detection/heuristics/language_analyzer.py:60-66 | The language score lies in [0, 0.9] and is 0 exactly when no phrase of either kind was found. |
| LanguageAnalyzer.ScoreTable | backend/src/detection/heuristics/language_analyzer.py:60-66 | The stepwise score is the larger of the two kinds' values: urgency gives 0.45, 0.6, 0.8 and then 0.9; threats give 0.65, 0.8 and then 0.9. |
| LanguageAnalyzer.ScoreMonotone | backend/src/detection/heuristics/language_analyzer.py:60-66 | Finding more phrases of either kind never lowers the score. |
| LanguageAnalyzer.ScoreFloors | backend/src/detection/heuristics/language_analyzer.py:61-66 | One threat phrase scores at least 0.65; three urgency phrases score at least 0.8. |
| LanguageAnalyzer.Analyze | backend/src/detection/heuristics/language_analyzer.py:38-68 | The result is named `language_analysis`, scores in [0, 0.9], scores 0 exactly when it reports nothing, and reports at most 21 indicators. The indicators are one "Urgency phrase" per urgency match, in phrase order, followed by one "Threatening language" per threat match. |
| LanguageAnalyzer.Indicators | backend/src/detection/heuristics/language_analyzer.py:44-58 | The quoted urgency matches come first, in order, and the quoted threat matches after them. |
| LanguageAnalyzer.AnalyzeScore | backend/src/detection/heuristics/language_analyzer.py:38-68 | The score follows the table of distinct phrases found, and there is one indicator per phrase found. |
| LanguageAnalyzer.IndicatorsQuoteText | backend/src/detection/heuristics/language_analyzer.py:42-58 | Every indicator quotes text that occurs in the subject and body joined by a space. |
| LanguageAnalyzer.SpacedWord | backend/src/detection/heuristics/language_analyzer.py:7-30 | A word, matched ignoring case and followed by white space, then a match of the rest, is a match of `word\s+rest`. |
| LanguageAnalyzer.SpacedPhrase | backend/src/detection/heuristics/language_analyzer.py:7-30 | Two words written in any case with a space between them, anywhere in the text, make `a\s+b` found. |
| LanguageAnalyzer.SpacedPhrase3 | backend/src/detection/heuristics/language_analyzer.py:7 | Three words written in any case with spaces between them, anywhere in the text, make `a\s+b\s+c` found. |
| LanguageAnalyzer.WordFound | backend/src/detection/heuristics/language_analyzer.py:9 | A word written in any case anywhere in the text is found. |
| LanguageAnalyzer.PhraseHit | backend/src/detection/heuristics/language_analyzer.py:46-50 | A phrase whose search succeeds counts as a hit. |
| LanguageAnalyzer.TwoMembers | backend/src/detection/heuristics/language_analyzer.py:45-50 | Two different phrases found means at least two hits. |
| LanguageAnalyzer.TwoUrgencyHits | backend/src/detection/heuristics/language_analyzer.py:45-66 | Two different urgency phrases found give at least two indicators and a score of at least 0.6. |
| LanguageAnalyzer.ThreatHit | backend/src/detection/heuristics/language_analyzer.py:53-62 | One threat phrase found gives an indicator and a score of at least 0.65. |
| LinkAnalyzer.HasIpUrl | backend/src/detection/heuristics/link_analyzer.py:16 | `IP_URL_PATTERN.search`; `LinkAnalyzer.IpUrlFound` and `LinkAnalyzer.IpUrlNeedsScheme` state when it holds and that it needs `http`. |
| LinkAnalyzer.IpUrlFound | backend/src/detection/heuristics/link_analyzer.py:16 | `http://` or `https://` followed by four dot-separated groups of digits, the first three of one to three digits, is detected wherever it appears. |
| LinkAnalyzer.IpUrlNeedsScheme | backend/src/detection/heuristics/link_analyzer.py:16 | Text without `http` never counts as containing an IP URL. |
| LinkAnalyzer.FirstIn | backend/src/detection/heuristics/link_analyzer.py:33-37 | The shortener or keyword reported occurs in the lower-cased href; nothing is reported when no entry occurs. |
| LinkAnalyzer.FirstTld | backend/src/detection/heuristics/link_analyzer.py:50-54 | The TLD reported ends the href or is followed by `/` in it; nothing is reported when no listed TLD qualifies. |
| LinkAnalyzer.FirstInSome | backend/src/detection/heuristics/link_analyzer.py:33-37 | A shortener or keyword is reported exactly when some entry of the table occurs in the href. |
| LinkAnalyzer.FirstTldSome | backend/src/detection/heuristics/link_analyzer.py:50-54 | A TLD is reported exactly when some listed TLD qualifies. |
| LinkAnalyzer.LeadingFindings | backend/src/detection/heuristics/link_analyzer.py:32-47 | The shortener, mismatch and IP indicators come in that order, each present exactly when its check fires. They score 0.9 for a mismatch, else 0.8 for an IP URL, else 0.6 for a shortener; an IP URL is always reported with its href. |
| LinkAnalyzer.TrailingFindings | backend/src/detection/heuristics/link_analyzer.py:49-61 | The TLD indicator comes before the keyword indicator, each present exactly when its lookup finds an entry. They score 0.5 when either fires. |
| LinkAnalyzer.LinkFindingsOf | backend/src/detection/heuristics/link_analyzer.py:29-61 | The five checks on one link give at most five findings and score by rank: mismatch 0.9, IP 0.8, shortener 0.6, TLD or keyword 0.5. |
| LinkAnalyzer.LinkFindingsOrder | backend/src/detection/heuristics/link_analyzer.py:29-61 | One link's findings come in the order shortener, mismatch, IP address, TLD, keyword, each present exactly when its check fires and naming what it found. |
| LinkAnalyzer.LinkChecks | backend/src/detection/heuristics/link_analyzer.py:29-61 | One link's findings are those of its five checks: the shortener, TLD and keyword lookups on the lower-cased href, the IP pattern on the href as written, and the mismatch flag. They score its link level, and an IP-address href is reported. |
| LinkAnalyzer.LinkChecksInOrder | backend/src/detection/heuristics/link_analyzer.py:29-61 | Each link's findings form one block, after those of the links before it and before those of the links after it. |
| LinkAnalyzer.BodyCheck | backend/src/detection/heuristics/link_analyzer.py:63-67 | The body check adds the one "IP-based URL found in email body" indicator, scoring 0.7, exactly when the body has an IP URL and no earlier indicator mentions "IP-based". |
| LinkAnalyzer.Analyze | backend/src/detection/heuristics/link_analyzer.py:25-69 | The result is named `link_analysis`, scores 0 exactly when it reports nothing, and reports at most five indicators per link plus one. Its indicators are the links', link by link, with the body indicator last. |
| LinkAnalyzer.AnalyzeScore | backend/src/detection/heuristics/link_analyzer.py:25-69 | The link score is the worst link's level, or 0.7 when the body check fires and no link is worse. |
| LinkAnalyzer.ScoreValues | backend/src/detection/heuristics/link_analyzer.py:25-69 | The link score is one of 0, 0.5, 0.6, 0.7, 0.8 and 0.9. |
| LinkAnalyzer.LinkLevelTop | backend/src/detection/heuristics/link_analyzer.py:40-42 | A link's level is at most 0.9 and reaches it exactly for a mismatched link. |
| LinkAnalyzer.MismatchDominates | backend/src/detection/heuristics/link_analyzer.py:40-42 | The link score is 0.9 exactly when some link is mismatched. |
| LinkAnalyzer.IpLinkSuppressesBody | backend/src/detection/heuristics/link_analyzer.py:44-47 | A link with an IP-address href keeps the body check from firing. |
| LinkAnalyzer.NothingToReport | backend/src/detection/heuristics/link_analyzer.py:63-69 | No links and no IP URL in the body give score 0 and no indicators. |
| SenderAnalyzer.FirstAtSign | backend/src/detection/heuristics/sender_analyzer.py:28 | The position found is the first `@` followed by a domain character. |
| SenderAnalyzer.AtDomain | backend/src/detection/heuristics/sender_analyzer.py:28-29 | The sender domain is empty exactly when no `@` is followed by a `[\w.-]` character, and it consists of such characters. |
| SenderAnalyzer.AtDomainOf | backend/src/detection/heuristics/sender_analyzer.py:28-29 | For `local@domain` followed by a non-domain character, the domain found is exactly `domain`. |
| SenderAnalyzer.HasEmailAddress | backend/src/detection/heuristics/sender_analyzer.py:42 | The address search on the display name; `SenderAnalyzer.AddressFound` and `SenderAnalyzer.AddressNeedsAt` state when it holds and what it needs. |
| SenderAnalyzer.AddressFound | backend/src/detection/heuristics/sender_analyzer.py:42 | A display name containing `name@domain.tld` counts as containing an email address. |
| SenderAnalyzer.AddressNeedsAt | backend/src/detection/heuristics/sender_analyzer.py:42 | A display name without `@` or without `.` never counts as containing an address. |
| SenderAnalyzer.Findings | backend/src/detection/heuristics/sender_analyzer.py:31-53 | At most three findings: 0.8 for a free-mail sender with a brand in the display name, else 0.7 for an address in the display name or a differing Reply-To domain. |
| SenderAnalyzer.Analyze | backend/src/detection/heuristics/sender_analyzer.py:20-55 | The result is named `sender_analysis`, scores one of 0, 0.7 and 0.8, and scores 0 exactly when it reports nothing. Its indicators are exactly those of the checks that fire, in the order free-mail impersonation, display-name address, Reply-To mismatch. |
| SenderAnalyzer.AnalyzeScore | backend/src/detection/heuristics/sender_analyzer.py:20-55 | The sender score is 0.8 for free-mail impersonation, else 0.7 for a spoofed display name or a Reply-To mismatch, else 0. |
| SenderAnalyzer.ReplyToSenderNotFlagged | backend/src/detection/heuristics/sender_analyzer.py:47-53 | A Reply-To equal to the sender, or with the same domain, is never flagged. |
| SenderAnalyzer.PlainAddress | backend/src/detection/heuristics/sender_analyzer.py:24-29 | `local@domain` in lower-case host-name characters is unchanged by lower-casing, and its domain is `domain`. |
| SenderAnalyzer.OtherReplyDomain | backend/src/detection/heuristics/sender_analyzer.py:47-53 | A plain Reply-To address on a different domain from a plain sender address is flagged. |
| SenderAnalyzer.NamedAddress | backend/src/detection/heuristics/sender_analyzer.py:42 | `local@host.tld` in host-name characters, with a letter after the dot, counts as an email address. |
| Preprocessor.CountIsMultiplicity | backend/src/detection/ml/preprocessor.py:13-14 | `text.count(c)` is the number of occurrences of `c`. |
| Preprocessor.CountWhereZero | backend/src/detection/ml/preprocessor.py:21-22 | No character qualifies exactly when the count is zero. |
| Preprocessor.UppercaseRatio | backend/src/detection/ml/preprocessor.py:19-25 | With letters present, the ratio is the number of upper-case letters over the number of letters; with none it is 0. It is in [0, 1] and is 0 exactly when the text has no upper-case letter. |
| Preprocessor.AllUpper | backend/src/detection/ml/preprocessor.py:19-25 | The ratio is 1 exactly when the text has letters and every letter is upper case. |
| Preprocessor.LowerRatio | backend/src/detection/ml/preprocessor.py:8 | The lower-cased text has an upper-case ratio of 0. |
| Preprocessor.ExtractFeatures | backend/src/detection/ml/preprocessor.py:4-16 | The features are the lower-cased joined text, the link count, no HTML, both lengths, the number of `!` and `?` in the joined text, and the upper-case ratio of the joined text. |
| Analyzer.Predict | backend/src/detection/ml/model.py:38-51 | A prediction exists exactly when the classifier gives a probability; its confidence is that probability, and it says phishing exactly when the confidence is at least 0.5. |
| Analyzer.Sum | backend/src/detection/analyzer.py:52 | `sum(scores)`; `Analyzer.SumAgainstMax` and `Analyzer.SumMaxMonotone` bound it by the maximum and show it monotone. |
| Analyzer.Mean | backend/src/detection/analyzer.py:50-54 | The average, 0 for no scores; `Analyzer.MeanBetween` keeps it within the scores' bounds. |
| Analyzer.FinalScore | backend/src/detection/analyzer.py:56-63 | The weighted score; `Analyzer.FinalScoreBounds`, `Analyzer.FinalScoreMonotone`, `Analyzer.FinalScoreAgainstMax` and `Analyzer.LoneScore` state its range, its monotonicity and its value for one heuristic. |
| Analyzer.MaxOf | backend/src/detection/analyzer.py:50-54 | The maximum is at least every score and is one of them; with no scores it is 0. |
| Analyzer.SumMaxMonotone | backend/src/detection/analyzer.py:51-52 | Raising any score never lowers the sum or the maximum. |
| Analyzer.SumAgainstMax | backend/src/detection/analyzer.py:51-52 | With no negative score, the sum lies between the maximum and n times the maximum. |
| Analyzer.FinalScoreBounds | backend/src/detection/analyzer.py:50-63 | With scores and confidence in [0, 1], the final score is in [0, 1]. |
| Analyzer.MeanBetween | backend/src/detection/analyzer.py:52-54 | The mean of values in [lo, hi] lies in [lo, hi]. |
| Analyzer.FinalScoreMonotone | backend/src/detection/analyzer.py:50-63 | Raising any heuristic score or the classifier's confidence never lowers the final score. |
| Analyzer.FinalScoreAgainstMax | backend/src/detection/analyzer.py:50-63 | Without a classifier, four scores give a final score between 5/8 of the highest score and the highest score. |
| Analyzer.LoneScore | backend/src/detection/analyzer.py:50-63 | Without a classifier, one heuristic scoring s with the other three at 0 gives a final score of 5s/8. |
| Analyzer.TwoScoresBelowPhishing | backend/src/detection/analyzer.py:50-71 | Without a classifier, at most two non-zero scores of at most 0.9 give at most 0.675, below "Phishing". |
| Analyzer.Classify | backend/src/detection/analyzer.py:66-71 | A score of at least 0.7 is "Phishing", one in [0.4, 0.7) is "Suspicious", and anything lower is "Safe". |
| Analyzer.ClassifyMonotone | backend/src/detection/analyzer.py:66-71 | A higher final score never gives a milder classification. |
| Analyzer.Summary | backend/src/detection/analyzer.py:78-83 | The summary text; `Analyzer.SummaryDistinguishes` shows it determines the classification and, when risky, the indicator count. |
| Analyzer.SummaryDistinguishes | backend/src/detection/analyzer.py:78-83 | Equal summaries mean equal classifications, and for Phishing or Suspicious equal indicator counts. |
| Analyzer.Round2 | backend/src/detection/analyzer.py:87 | The reported score is a whole number of hundredths within 0.005 of the final score; at an exact half-hundredth it is the even one (ties to even). |
| Analyzer.Round2Idempotent | backend/src/detection/analyzer.py:87 | Rounding a rounded score changes nothing. |
| Analyzer.RoundedScoreMayLookPhishing | backend/src/detection/analyzer.py:66-87 | A final score of 0.6999 is classified "Suspicious" but reported as 0.7. |
| Analyzer.Run | backend/src/detection/analyzer.py:28-33 | Each heuristic reports under its own name with a score in [0, 0.9]. |
| Analyzer.Heuristics | backend/src/detection/analyzer.py:38-39 | There are four results, named link, domain, language and sender analysis in that order, each scoring in [0, 0.9]. |
| Analyzer.Scores | backend/src/detection/analyzer.py:39 | The scores are the results' scores, in order. |
| Analyzer.AllIndicators | backend/src/detection/analyzer.py:74-76 | The collected indicators are as many as the results report between them; every reported indicator is among them, and each of them is one that some result reports. |
| Analyzer.Aggregate | backend/src/detection/analyzer.py:50-91 | The result keeps the heuristic results and the prediction. It is classified by the unrounded final score and reports that score rounded to two decimals, which is within 0.005 of it. The summary names the classification and the total indicator count, and is the "no significant indicators" text exactly when the classification is Safe. |
| Analyzer.Analyze | backend/src/detection/analyzer.py:36-91 | The analysis reports the four heuristic results in order. Its prediction is the classifier's answer about the lower-cased subject and body joined by a space, and there is none without a classifier. It reports the classification of the final score of those results and that prediction, that score rounded to two decimals, and the summary for the classification and the total indicator count. |
| Analyzer.AnalyzeBounds | backend/src/detection/analyzer.py:36-63 | With a classifier whose probabilities lie in [0, 1], the final score is in [0, 1]. Without a classifier it lies between 5/8 of the highest heuristic score and that score, which is at most 0.9. |
| Scenarios.PhishingVerdict | backend/src/detection/analyzer.py:56-71 | Scores 0.9, 0.85, 0.9 and 0 without a classifier give 0.78125, which is "Phishing". |
| Scenarios.LoneMismatch | backend/src/detection/analyzer.py:56-71 | A lone mismatched link (0.9) without a classifier gives 0.5625, which is "Suspicious". |
| Scenarios.ConfidentClassifier | backend/src/detection/analyzer.py:56-87 | The same link with a 0.9 classifier confidence gives 0.6975: "Suspicious", reported as 0.7. |
| Scenarios.NothingFound | backend/src/detection/analyzer.py:56-71 | Four zero scores give 0, which is "Safe". |
| Scenarios.UrgentFound | backend/src/detection/heuristics/language_analyzer.py:9 | "URGENT reply" matches the phrase `urgent` ignoring case, and one urgency phrase scores 0.45. |
| Scenarios.SenderDomain | backend/src/detection/heuristics/sender_analyzer.py:28-29 | The sender domain of `bob@pay-pal.io>` is `pay-pal.io`. |
| Scenarios.IpLink | backend/src/detection/heuristics/link_analyzer.py:16 | Text containing `http://10.0.0.1/login` has an IP URL. |
| Scenarios.TyposquatG00gle | backend/src/detection/heuristics/domain_analyzer.py:79-90 | `g00gle` is reported as a typosquat of `google`, the first known brand within two edits. |
| Scenarios.G00gleFarFromFirstBrands | backend/src/detection/heuristics/domain_analyzer.py:84-89 | `g00gle` is more than two edits from `paypal`, `apple` and `microsoft`. |
| Scenarios.G00gleNearGoogle | backend/src/detection/heuristics/domain_analyzer.py:87-88 | `g00gle` is one or two edits from `google`. |
| Scenarios.TyposquatPaypa1 | backend/src/detection/heuristics/domain_analyzer.py:79-90 | `paypa1` is reported as a typosquat of `paypal`. |
| Scenarios.Paypa1NearPaypal | backend/src/detection/heuristics/domain_analyzer.py:87-88 | `paypa1` is exactly one edit from `paypal`. |
| ParserCases.EvilAnchor | backend/tests/test_analyzer.py:78-87 | The anchor `http://evil.com` shown as `http://paypal.com`, with no plain-text body, gives exactly one link, and it is mismatched. |
| DomainCases.Paypa1Sender | backend/tests/test_heuristics.py:64-68 | The sender `support@paypa1.com` scores at least 0.85, for typosquatting `paypal`. |
| DomainCases.G00gleSender | backend/tests/test_heuristics.py:70-74 | The sender `alert@g00gle.com` scores at least 0.85, for typosquatting `google`. |
| LanguageCases.LegalHit | backend/tests/test_heuristics.py:95-102 | "Legal action" in the body is found by the first threat phrase. |
| LanguageCases.LegalThreat | backend/tests/test_heuristics.py:95-102 | The "Final Warning" message reports at least one indicator and scores at least 0.65. |
| LanguageCases.UrgentHit | backend/tests/test_heuristics.py:86-93 | "URGENT" in the subject is found by the phrase `urgent`. |
| LanguageCases.ImmediateHit | backend/tests/test_heuristics.py:86-93 | "Immediate action required" in the body is found by the first urgency phrase. |
| LanguageCases.UrgentAndImmediate | backend/tests/test_heuristics.py:86-93 | The "URGENT: Account Suspended" message reports at least two indicators and scores at least 0.6. |
| SenderCases.FreeMailFlag | backend/tests/test_heuristics.py:114-121 | `paypal.security@gmail.com` shown as "PayPal Security" is a free-mail sender with a brand in the display name. |
| SenderCases.FreeMailBrand | backend/tests/test_heuristics.py:114-121 | That sender scores 0.8. |
| SenderCases.ScammerReply | backend/tests/test_heuristics.py:123-131 | A Reply-To of `scammer@evil.com` for the sender `support@company.com` is flagged. |
| SenderCases.ReplyElsewhere | backend/tests/test_heuristics.py:123-131 | That message scores at least 0.7. |
| SenderCases.CeoNamed | backend/tests/test_heuristics.py:133-140 | The display name `ceo@company.com` contains an email address. |
| SenderCases.AddressAsName | backend/tests/test_heuristics.py:133-140 | A message with that display name scores at least 0.7. |
| SenderCases.JohnDoeNoBrand | backend/tests/test_heuristics.py:109-112 | "John Doe" names no brand and contains no `@`. |
| SenderCases.PlainSender | backend/tests/test_heuristics.py:109-112 | `friend@gmail.com` shown as "John Doe", with no Reply-To, scores 0. |

## Left out

- The public suffix list: `tldextract` is replaced by a simplified `Registrable.Extract` that
  takes the last label of a host as its suffix. Suffixes of several labels such as `co.uk`,
  and a host whose last label is not a known suffix, are therefore split differently than the
  library would.
- HTML parsing: BeautifulSoup is not modelled. `EmailParser.ExtractLinks` receives the
  document's anchors as input, each an href and its text pieces.
- Unicode: `\d`, `\w`, `isalpha`, `isupper`, `lower()` and the case folding of `re.IGNORECASE`
  are the ASCII ones, so letters and digits outside ASCII are not recognised and not
  lower-cased, and a case-insensitive pattern does not match the non-ASCII case variants Python
  accepts (`ſ` for `s`, the Kelvin sign for `k`). White space (`\s`, `isspace`,
  `strip()`) is Python's full Unicode set, in `Text.IsSpace`.
- The regular-expression engine: only the fragment the phrase lists need is modelled (literals,
  `\s`, `\d`, concatenation, alternation, `?`, `*`, `+`). The URL, IP, domain and address
  patterns are written as direct scanning functions.
- Floating point: scores are exact reals. `round(x, 2)` is modelled as rounding half to even on
  the exact value, so binary floating-point effects near a half-hundredth are not modelled.
- The trained classifier: `model.py`'s pickled vectoriser and model are not modelled. When a
  model is loaded, `Analyzer.Analyze` takes a function from text to an optional probability;
  when none is loaded, it takes no function. Loading failures and prediction exceptions are
  the absent result.
- Set iteration order: `URL_SHORTENERS`, `SUSPICIOUS_TLDS`, `SUSPICIOUS_URL_KEYWORDS` and
  `FREE_EMAIL_PROVIDERS` are Python sets, so which shortener, TLD or keyword is named in an
  indicator depends on the interpreter. The model tries them in the order they are written,
  and its contracts say only that some matching entry is named.
- Logging in the parser and the model.
- The HTTP API, request schemas, configuration and application start-up.
- Pattern.Search: states that a match exists and occurs in the text; which match is chosen
  (leftmost start, first end in backtracking order) is stated by `Pattern.SearchFrom`.
- EmailParser.FindUrls: states the shape of every URL found, not that every URL in the text is
  found.
- Some worked examples: the tests whose outcome needs every phrase or brand search to fail
  (`user@google.com` scoring 0 for its domain, "Meeting tomorrow" scoring 0 for its language),
  the link-analyzer tests and the whole-pipeline tests are not worked through on their concrete
  inputs. The outcomes they check are stated in general by `DomainAnalyzer.AnalyzeScore`,
  `LanguageAnalyzer.AnalyzeScore`, `LinkAnalyzer.AnalyzeScore` and `Analyzer.AnalyzeBounds`.
