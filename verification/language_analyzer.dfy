/**
 * The language heuristic (backend/src/detection/heuristics/language_analyzer.py): the subject
 * and plain-text body are searched for sixteen urgency phrases and five threat phrases; every
 * phrase found is reported with the text it matched, and the score grows with how many of each
 * kind were found.
 */
module LanguageAnalyzer {
  import opened Options
  import opened Text
  import opened Pattern
  import opened Heuristic
  import opened EmailParser

  /** `\s+`. */
  function Gap(): Regex { Plus(Space) }

  /** `a\s+b`. */
  function Spaced(a: Regex, b: Regex): Regex { Cat(a, Cat(Gap(), b)) }

  /** The urgency phrases, in the order they are tried. */
  function UrgencyPhrases(): (ps: seq<Regex>)
    ensures |ps| == 16
  {
    [ Spaced(Word("immediate"), Spaced(Word("action"), Word("required"))),
      Spaced(Word("act"), Word("now")),
      Word("urgent"),
      Spaced(Word("account"), Cat(Opt(Spaced(Word("has"), Cat(Word("been"), Gap()))),
        Alt(Word("suspended"), Alt(Word("locked"), Alt(Word("compromised"), Word("disabled")))))),
      Spaced(Word("verify"), Spaced(Word("your"),
        Alt(Word("account"), Alt(Word("identity"), Word("information"))))),
      Spaced(Word("confirm"), Spaced(Word("your"),
        Alt(Word("account"), Alt(Word("identity"), Word("information"))))),
      Spaced(Word("unauthorized"), Alt(Word("access"), Alt(Word("activity"), Word("transaction")))),
      Spaced(Word("click"), Cat(Opt(Cat(Word("here"), Gap())), Word("immediately"))),
      Spaced(Word("within"), Spaced(Plus(Digit), Cat(Word("hour"), Opt(Lit('s'))))),
      Spaced(Word("your"), Spaced(Word("account"), Spaced(Word("will"), Spaced(Word("be"),
        Alt(Word("closed"), Alt(Word("terminated"), Word("deleted"))))))),
      Spaced(Word("failure"), Spaced(Word("to"), Alt(Word("respond"), Alt(Word("verify"), Word("confirm"))))),
      Spaced(Word("security"), Word("alert")),
      Spaced(Word("unusual"),
        Alt(Word("activity"), Alt(Cat(Word("sign"), Cat(Opt(Lit('-')), Word("in"))), Word("login")))),
      Spaced(Word("limited"), Word("time")),
      Spaced(Word("won"), Cat(Opt(Lit('a')), Cat(Star(Space),
        Alt(Word("prize"), Alt(Word("lottery"), Alt(Word("gift"), Word("reward"))))))),
      Word("congratulations") ]
  }

  /** The threat phrases, in the order they are tried. */
  function ThreatPhrases(): (ps: seq<Regex>)
    ensures |ps| == 5
  {
    [ Spaced(Word("legal"), Word("action")),
      Spaced(Word("law"), Word("enforcement")),
      Spaced(Word("arrest"), Word("warrant")),
      Spaced(Word("criminal"), Word("charges")),
      Cat(Word("permanent"), Spaced(Opt(Word("ly")),
        Alt(Word("ban"), Alt(Word("block"), Alt(Word("suspend"), Word("delete")))))) ]
  }

  /** The searched text: the subject and the plain-text body joined by a space. */
  function Searched(email: ParsedEmail): string {
    email.subject + " " + email.bodyText
  }

  /** The outcome of searching `text` for each phrase. */
  function Searches(ps: seq<Regex>, text: string): (os: seq<Option<string>>)
    ensures |os| == |ps| && forall k :: 0 <= k < |ps| ==> os[k] == Search(ps[k], text)
  {
    seq(|ps|, k requires 0 <= k < |ps| => Search(ps[k], text))
  }

  /** The values that were found, in order. */
  function Found(os: seq<Option<string>>): (ms: seq<string>)
    ensures |ms| <= |os|
    ensures forall k :: 0 <= k < |ms| ==> Some(ms[k]) in os
  {
    if |os| == 0 then []
    else
      var init := Found(os[..|os| - 1]);
      assert forall k :: 0 <= k < |init| ==> Some(init[k]) in os by {
        assert forall o :: o in os[..|os| - 1] ==> o in os;
      }
      match os[|os| - 1]
      case Some(m) => init + [m]
      case None => init
  }

  /** The text matched by each phrase that occurs in `text`, in phrase order. */
  function Matched(ps: seq<Regex>, text: string): (ms: seq<string>)
    ensures |ms| <= |ps|
    ensures forall k :: 0 <= k < |ms| ==> Contains(text, ms[k])
  {
    var os := Searches(ps, text);
    var ms := Found(os);
    assert forall k :: 0 <= k < |ms| ==> Contains(text, ms[k]) by {
      forall k | 0 <= k < |ms| ensures Contains(text, ms[k]) {
        var i :| 0 <= i < |os| && os[i] == Some(ms[k]);
        assert Search(ps[i], text) == Some(ms[k]);
      }
    }
    ms
  }

  /** The positions of the elements of `xs` that satisfy `p`. */
  function Indices<T>(xs: seq<T>, p: T -> bool): set<nat> {
    set i: nat | i < |xs| && p(xs[i])
  }

  lemma IndicesSplit<T>(xs: seq<T>, p: T -> bool)
    requires |xs| > 0
    ensures Indices(xs, p) == Indices(xs[..|xs| - 1], p) + (if p(xs[|xs| - 1]) then {|xs| - 1} else {})
    ensures |xs| - 1 !in Indices(xs[..|xs| - 1], p)
  {
    var init := xs[..|xs| - 1];
    forall i: nat | i < |init| ensures init[i] == xs[i] { }
  }

  predicate IsSome(o: Option<string>) { o.Some? }

  lemma {:induction false} FoundCount(os: seq<Option<string>>)
    ensures |Found(os)| == |Indices(os, IsSome)|
  {
    if |os| > 0 {
      FoundCount(os[..|os| - 1]);
      IndicesSplit(os, IsSome);
    } else {
      assert Indices(os, IsSome) == {};
    }
  }

  /** The phrases of `ps` that occur in `text`, by position. */
  function Hits(ps: seq<Regex>, text: string): set<nat> {
    Indices(ps, r => Search(r, text).Some?)
  }

  /** One indicator is reported per phrase found. */
  lemma MatchedCount(ps: seq<Regex>, text: string)
    ensures |Matched(ps, text)| == |Hits(ps, text)|
  {
    var os := Searches(ps, text);
    FoundCount(os);
    assert Indices(os, IsSome) == Hits(ps, text);
  }

  function Quoted(prefix: string, ms: seq<string>): (texts: seq<string>)
    ensures |texts| == |ms|
    ensures forall k :: 0 <= k < |ms| ==> texts[k] == prefix + "\"" + ms[k] + "\""
  {
    seq(|ms|, k requires 0 <= k < |ms| => prefix + "\"" + ms[k] + "\"")
  }

  function Min(a: real, b: real): real {
    if a <= b then a else b
  }

  /** The score for `u` urgency phrases and `t` threat phrases, raised step by step as written. */
  function Score(u: nat, t: nat): (score: real)
    ensures 0.0 <= score <= 0.9
    ensures score == 0.0 <==> u == 0 && t == 0
  {
    var afterThreats := if t > 0 then Max(0.0, Min(0.5 + t as real * 0.15, 0.9)) else 0.0;
    var afterUrgency := if u > 0 then Max(afterThreats, Min(0.3 + u as real * 0.15, 0.9)) else afterThreats;
    if u >= 3 then Max(afterUrgency, 0.8) else afterUrgency
  }

  /** What the urgency phrases alone are worth: one 0.45, two 0.6, three 0.8, more 0.9. */
  function UrgencyLevel(u: nat): real {
    if u == 0 then 0.0 else if u == 1 then 0.45 else if u == 2 then 0.6 else if u == 3 then 0.8 else 0.9
  }

  /** What the threat phrases alone are worth: one 0.65, two 0.8, more 0.9. */
  function ThreatLevel(t: nat): real {
    if t == 0 then 0.0 else if t == 1 then 0.65 else if t == 2 then 0.8 else 0.9
  }

  /** The score is the larger of what each kind of phrase is worth on its own. */
  lemma ScoreTable(u: nat, t: nat)
    ensures Score(u, t) == Max(UrgencyLevel(u), ThreatLevel(t))
  {
  }

  /** Finding more phrases never lowers the score. */
  lemma ScoreMonotone(u: nat, t: nat, u': nat, t': nat)
    requires u <= u' && t <= t'
    ensures Score(u, t) <= Score(u', t')
  {
    ScoreTable(u, t);
    ScoreTable(u', t');
  }

  /** A single threat phrase already scores 0.65; three urgency phrases score at least 0.8. */
  lemma ScoreFloors(u: nat, t: nat)
    ensures t > 0 ==> Score(u, t) >= 0.65
    ensures u >= 3 ==> Score(u, t) >= 0.8
  {
    ScoreTable(u, t);
  }

  function Analyze(email: ParsedEmail): (result: HeuristicResult)
    ensures result.name == "language_analysis"
    ensures 0.0 <= result.score <= 0.9
    ensures result.score == 0.0 <==> result.indicators == []
    ensures |result.indicators| <= |UrgencyPhrases()| + |ThreatPhrases()|
    ensures var urgent, threats := Matched(UrgencyPhrases(), Searched(email)), Matched(ThreatPhrases(), Searched(email));
      && |result.indicators| == |urgent| + |threats|
      && (forall k :: 0 <= k < |urgent| ==> result.indicators[k] == "Urgency phrase: \"" + urgent[k] + "\"")
      && (forall k :: 0 <= k < |threats| ==>
            result.indicators[|urgent| + k] == "Threatening language: \"" + threats[k] + "\"")
  {
    var text := Searched(email);
    var urgent := Matched(UrgencyPhrases(), text);
    var threats := Matched(ThreatPhrases(), text);
    HeuristicResult("language_analysis", Score(|urgent|, |threats|), Indicators(urgent, threats))
  }

  /** The urgency phrases found, then the threatening ones, each quoted under its own heading. */
  function Indicators(urgent: seq<string>, threats: seq<string>): (inds: seq<string>)
    ensures |inds| == |urgent| + |threats|
    ensures forall k :: 0 <= k < |urgent| ==> inds[k] == "Urgency phrase: \"" + urgent[k] + "\""
    ensures forall k :: 0 <= k < |threats| ==> inds[|urgent| + k] == "Threatening language: \"" + threats[k] + "\""
  {
    var u, t := Quoted("Urgency phrase: ", urgent), Quoted("Threatening language: ", threats);
    assert forall k :: 0 <= k < |threats| ==> (u + t)[|urgent| + k] == t[k];
    u + t
  }

  /** The score counts the distinct phrases of each kind that occur in the text. */
  lemma AnalyzeScore(email: ParsedEmail)
    ensures Analyze(email).score ==
      Max(UrgencyLevel(|Hits(UrgencyPhrases(), Searched(email))|), ThreatLevel(|Hits(ThreatPhrases(), Searched(email))|))
    ensures |Analyze(email).indicators| ==
      |Hits(UrgencyPhrases(), Searched(email))| + |Hits(ThreatPhrases(), Searched(email))|
  {
    MatchedCount(UrgencyPhrases(), Searched(email));
    MatchedCount(ThreatPhrases(), Searched(email));
    ScoreTable(|Matched(UrgencyPhrases(), Searched(email))|, |Matched(ThreatPhrases(), Searched(email))|);
  }

  /** The indicator text for a match of either kind. */
  ghost predicate Quotes(indicator: string, text: string) {
    exists m :: Contains(text, m) &&
      (indicator == "Urgency phrase: \"" + m + "\"" || indicator == "Threatening language: \"" + m + "\"")
  }

  lemma QuotedAll(urgent: seq<string>, threats: seq<string>, text: string, k: nat)
    requires forall j :: 0 <= j < |urgent| ==> Contains(text, urgent[j])
    requires forall j :: 0 <= j < |threats| ==> Contains(text, threats[j])
    requires k < |urgent| + |threats|
    ensures Quotes((Quoted("Urgency phrase: ", urgent) + Quoted("Threatening language: ", threats))[k], text)
  {
    var all := Quoted("Urgency phrase: ", urgent) + Quoted("Threatening language: ", threats);
    if k < |urgent| {
      assert all[k] == "Urgency phrase: " + "\"" + urgent[k] + "\"";
    } else {
      assert all[k] == "Threatening language: " + "\"" + threats[k - |urgent|] + "\"";
    }
  }

  /** Each indicator quotes text that occurs in the subject or body. */
  lemma IndicatorsQuoteText(email: ParsedEmail, k: nat)
    requires k < |Analyze(email).indicators|
    ensures Quotes(Analyze(email).indicators[k], Searched(email))
  {
    var text := Searched(email);
    QuotedAll(Matched(UrgencyPhrases(), text), Matched(ThreatPhrases(), text), text, k);
  }

  // ---------------------------------------------------------------------------
  // Phrases found in a text

  /** A word, one white-space character, and then a match of `r`: a match of `word\s+r`. */
  lemma SpacedWord(w: string, r: Regex, s: string, i: nat, x: nat)
    requires i + |w| < |s| && MatchAtCI(s, w, i) && IsSpace(s[i + |w|])
    requires x in Ends(r, s, i + |w| + 1)
    ensures x in Ends(Spaced(Word(w), r), s, i)
  {
    var e := i + |w|;
    WordMatch(w, s, i);
    PlusOne(Space, s, e);
    CatThrough(Gap(), r, s, e, e + 1, x);
    CatThrough(Word(w), Cat(Gap(), r), s, i, e, x);
  }


  /** Two words, in any case, separated by a space, anywhere in the text: `a\s+b` is found. */
  lemma SpacedPhrase(pre: string, t1: string, t2: string, post: string, a: string, b: string)
    requires Lower(t1) == a && Lower(t2) == b
    ensures Search(Spaced(Word(a), Word(b)), pre + t1 + " " + t2 + post).Some?
  {
    var s := pre + t1 + " " + t2 + post;
    var i := |pre|;
    assert MatchAtCI(s, a, i) by {
      WordAt(pre, t1, " " + t2 + post, a);
      assert pre + t1 + (" " + t2 + post) == s;
    }
    assert MatchAtCI(s, b, i + |a| + 1) by {
      WordAt(pre + t1 + " ", t2, post, b);
    }
    assert s[i + |a|] == ' ';
    WordMatch(b, s, i + |a| + 1);
    SpacedWord(a, Word(b), s, i, i + |a| + 1 + |b|);
    SearchFinds(Spaced(Word(a), Word(b)), s, i, i + |a| + 1 + |b|);
  }

  /** A word, in any case, followed by a space and a match of `r`: a match of `word\s+r`. */
  lemma WordThen(pre: string, t: string, post: string, w: string, r: Regex, x: nat)
    requires Lower(t) == w && |post| > 0 && post[0] == ' '
    requires x in Ends(r, pre + t + post, |pre| + |w| + 1)
    ensures x in Ends(Spaced(Word(w), r), pre + t + post, |pre|)
  {
    var s := pre + t + post;
    WordAt(pre, t, post, w);
    assert s[|pre| + |w|] == post[0];
    SpacedWord(w, r, s, |pre|, x);
  }

  /** Three words, in any case, separated by spaces, anywhere in the text: `a\s+b\s+c` is found. */
  lemma SpacedPhrase3(pre: string, t1: string, t2: string, t3: string, post: string, a: string, b: string, c: string)
    requires Lower(t1) == a && Lower(t2) == b && Lower(t3) == c
    ensures Search(Spaced(Word(a), Spaced(Word(b), Word(c))), pre + t1 + " " + t2 + " " + t3 + post).Some?
  {
    var s := pre + t1 + " " + t2 + " " + t3 + post;
    var p2 := pre + t1 + " ";
    var p3 := p2 + t2 + " ";
    var x := |p3| + |c|;
    assert x in Ends(Word(c), s, |p3|) by {
      WordAt(p3, t3, post, c);
      assert p3 + t3 + post == s;
      WordMatch(c, s, |p3|);
    }
    assert x in Ends(Spaced(Word(b), Word(c)), s, |p2|) by {
      assert p2 + t2 + (" " + t3 + post) == s;
      WordThen(p2, t2, " " + t3 + post, b, Word(c), x);
    }
    assert x in Ends(Spaced(Word(a), Spaced(Word(b), Word(c))), s, |pre|) by {
      assert pre + t1 + (" " + t2 + " " + t3 + post) == s;
      WordThen(pre, t1, " " + t2 + " " + t3 + post, a, Spaced(Word(b), Word(c)), x);
    }
    SearchFinds(Spaced(Word(a), Spaced(Word(b), Word(c))), s, |pre|, x);
  }

  /** A phrase found in the text counts among the hits. */
  lemma PhraseHit(ps: seq<Regex>, text: string, i: nat)
    requires i < |ps| && Search(ps[i], text).Some?
    ensures i in Hits(ps, text)
  {
  }

  /** A word, in any case, anywhere in the text is found. */
  lemma WordFound(pre: string, t: string, post: string, w: string)
    requires Lower(t) == w
    ensures Search(Word(w), pre + t + post).Some?
  {
    WordAt(pre, t, post, w);
    WordMatch(w, pre + t + post, |pre|);
    SearchFinds(Word(w), pre + t + post, |pre|, |pre| + |w|);
  }

  /** Two distinct positions in a set of positions: it has at least two members. */
  lemma TwoMembers(h: set<nat>, i: nat, j: nat)
    requires i in h && j in h && i != j
    ensures |h| >= 2
  {
    assert h == (h - {i, j}) + {i, j};
    assert |{i, j}| == 2;
  }

  /** Two different urgency phrases found: two indicators and a score of at least 0.6. */
  lemma TwoUrgencyHits(email: ParsedEmail, i: nat, j: nat)
    requires i in Hits(UrgencyPhrases(), Searched(email)) && j in Hits(UrgencyPhrases(), Searched(email)) && i != j
    ensures Analyze(email).score >= 0.6
    ensures |Analyze(email).indicators| >= 2
  {
    var text := Searched(email);
    TwoMembers(Hits(UrgencyPhrases(), text), i, j);
    ScoreTable(|Hits(UrgencyPhrases(), text)|, |Hits(ThreatPhrases(), text)|);
    AnalyzeScore(email);
  }

  /** One threat phrase found: an indicator, and a score of at least 0.65. */
  lemma ThreatHit(email: ParsedEmail, i: nat)
    requires i in Hits(ThreatPhrases(), Searched(email))
    ensures Analyze(email).score >= 0.65
    ensures |Analyze(email).indicators| >= 1
  {
    var text := Searched(email);
    ScoreTable(|Hits(UrgencyPhrases(), text)|, |Hits(ThreatPhrases(), text)|);
    ScoreFloors(|Hits(UrgencyPhrases(), text)|, |Hits(ThreatPhrases(), text)|);
    AnalyzeScore(email);
  }
}
